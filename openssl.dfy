/**
 * The parts of OpenSSL's BIGNUM and EC libraries, and of the project's base64
 * helper, that the number tool calls. Their implementations are not part of this
 * model: each call is a field of `Lib`, a record of total functions, so every
 * property proved elsewhere holds whatever the library does. The one library
 * function given a definition is BN_num_bits, whose meaning is fixed (the number
 * of significant bits of the magnitude), with BN_num_bytes derived from it as
 * OpenSSL's bn.h macro does.
 */
module OpenSsl {
  import opened Wrappers

  newtype byte = x: int | 0 <= x < 256

  /** The OpenSSL curve identifiers (NID_...) that filter_ecpoint names. */
  datatype CurveId =
    | Secp256k1 | Secp384r1 | Secp521r1
    | Sect283k1 | Sect283r1 | Sect409k1 | Sect409r1 | Sect571k1 | Sect571r1

  /**
   * A BIGNUM value is an unbounded signed integer. `None` results stand for a
   * null pointer or a zero "characters consumed" count.
   */
  datatype Lib = Lib(
    hex2bn: string -> Option<int>,          // BN_hex2bn; None when it returns 0
    dec2bn: string -> Option<int>,          // BN_dec2bn; None when it returns 0
    bin2bn: seq<byte> -> Option<int>,       // BN_bin2bn; None when it returns null
    mpi2bn: seq<byte> -> Option<int>,       // BN_mpi2bn; None when it returns null
    bn2hex: int -> string,                  // BN_bn2hex
    bn2dec: int -> string,                  // BN_bn2dec
    bn2bin: int -> seq<byte>,               // what BN_bn2bin writes
    mpiSize: int -> nat,                    // BN_bn2mpi(bn, nullptr)
    bn2mpi: int -> seq<byte>,               // what BN_bn2mpi writes
    isPrime: int -> int,                    // BN_is_prime_ex: 1, 0, or -1 on error
    groupByName: CurveId -> bool,           // EC_GROUP_new_by_curve_name is non-null
    pointDecodes: (CurveId, int) -> bool,   // EC_POINT_bn2point is non-null
    b64Decode: string -> seq<byte>,         // b64_decode from base64.h
    b64Encode: seq<byte> -> string          // b64_encode from base64.h
  )

  function Abs(x: int): nat
  {
    if x < 0 then -x else x
  }

  function Pow2(k: nat): (r: nat)
    ensures r >= 1
  {
    if k == 0 then 1 else 2 * Pow2(k - 1)
  }

  /** Number of significant bits of a natural number. */
  function BitsOf(m: nat): nat
  {
    if m == 0 then 0 else 1 + BitsOf(m / 2)
  }

  /** BN_num_bits: the bit length of the magnitude; 0 for zero. */
  function NumBits(x: int): nat
  {
    BitsOf(Abs(x))
  }

  /** BN_num_bytes, defined in bn.h as (BN_num_bits(a) + 7) / 8. */
  function NumBytes(x: int): nat
  {
    (NumBits(x) + 7) / 8
  }

  /** BitsOf(m) is k exactly when m lies in [2^(k-1), 2^k), or m and k are both 0. */
  lemma {:induction false} BitsOfIff(m: nat, k: nat)
    ensures BitsOf(m) == k <==> (if k == 0 then m == 0 else Pow2(k - 1) <= m < Pow2(k))
  {
    if m == 0 {
    } else if k == 0 {
    } else {
      BitsOfIff(m / 2, k - 1);
      if k == 1 {
        assert Pow2(0) == 1 && Pow2(1) == 2;
      } else {
        assert Pow2(k - 1) == 2 * Pow2(k - 2);
        assert Pow2(k) == 2 * Pow2(k - 1);
      }
    }
  }

  /** The bit length of x is k exactly when |x| is a k-bit number. */
  lemma NumBitsIff(x: int, k: nat)
    ensures NumBits(x) == k <==> (if k == 0 then x == 0 else Pow2(k - 1) <= Abs(x) < Pow2(k))
  {
    BitsOfIff(Abs(x), k);
  }

  /** 2^k is a (k+1)-bit number. */
  lemma NumBitsPow2(k: nat)
    ensures NumBits(Pow2(k)) == k + 1
  {
    assert Pow2(k + 1) == 2 * Pow2(k);
    NumBitsIff(Pow2(k), k + 1);
  }

  /** A nonzero value needs NumBytes(x) bytes: 8 * (bytes - 1) < bits <= 8 * bytes. */
  lemma NumBytesBounds(x: int)
    ensures x == 0 <==> NumBytes(x) == 0
    ensures 8 * NumBytes(x) - 7 <= NumBits(x) <= 8 * NumBytes(x)
  {
    NumBitsIff(x, 0);
  }
}
