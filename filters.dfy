/**
 * The filters of filters.cc. A filter takes the number (absent when the
 * holder's BIGNUM pointer is null), prints report lines and returns 0 or -1.
 * Printing is modelled by the list of report lines a filter produces.
 */
module Filters {
  import opened Wrappers
  import opened OpenSsl

  /** One printed report line; the comment gives its format in the source. */
  datatype Report =
    | BitsLine(bits: nat)          // "bits: %d"
    | BytesLine(bytes: nat)        // "bytes: %d"
    | DecLine(dec: string)         // "dec: %s"
    | HexLine(hex: string)         // "hex: %s"
    | Base64Line(b64: string)      // "base64: %s"
    | MpiLine(b64: string)         // "MPI base64: %s"
    | PrimeLine(yes: bool)         // "prime: Yes" / "prime: No"
    | EcPointLine(curve: string)   // "ec-point: <curve name>"
    | EcPointNone                  // "ec-point: No"
    | HashLine(digest: string)     // "hash: <digest names>"
    | SshModuliLine(yes: bool)     // "SSH moduli: Yes" / "SSH moduli: No"

  /** What running a filter amounts to: its return value and what it printed. */
  datatype Outcome = Outcome(ret: int, lines: seq<Report>)

  /** The filter functions that can be registered in a `number`. */
  datatype FilterKind =
    | Bits | Bytes | Prime | EcPoint | Hash | SshModuli
    | Hex | Dec | Base64 | Mpi | Le

  /**
   * The surroundings a filter runs in: the library, the lines of
   * /etc/ssh/moduli (None when fopen fails) and the behaviour of filter_le,
   * which main.cc registers but no shown file defines.
   */
  datatype Env = Env(lib: Lib, moduli: Option<seq<string>>, le: Option<int> -> Outcome)

  /** The result of the guard every filter starts with: return -1, print nothing. */
  const NullInput := Outcome(-1, [])

  // ---------------------------------------------------------------- simple filters

  function FilterBits(bn: Option<int>): Outcome
  {
    if bn.None? then NullInput else Outcome(0, [BitsLine(NumBits(bn.value))])
  }

  function FilterBytes(bn: Option<int>): Outcome
  {
    if bn.None? then NullInput else Outcome(0, [BytesLine(NumBytes(bn.value))])
  }

  function FilterDec(lib: Lib, bn: Option<int>): Outcome
  {
    if bn.None? then NullInput else Outcome(0, [DecLine(lib.bn2dec(bn.value))])
  }

  function FilterHex(lib: Lib, bn: Option<int>): Outcome
  {
    if bn.None? then NullInput else Outcome(0, [HexLine(lib.bn2hex(bn.value))])
  }

  /** BN_bn2bin must write exactly BN_num_bytes bytes, or the filter gives up. */
  function FilterB64(lib: Lib, bn: Option<int>): Outcome
  {
    if bn.None? then NullInput
    else
      var bytes := lib.bn2bin(bn.value);
      if |bytes| != NumBytes(bn.value) then Outcome(-1, [])
      else Outcome(0, [Base64Line(lib.b64Encode(bytes))])
  }

  /** BN_bn2mpi must write as many bytes as its sizing call announced. */
  function FilterMpi(lib: Lib, bn: Option<int>): Outcome
  {
    if bn.None? then NullInput
    else
      var n := lib.mpiSize(bn.value);
      var bytes := lib.bn2mpi(bn.value);
      if |bytes| != n then Outcome(-1, [])
      else Outcome(0, [MpiLine(lib.b64Encode(bytes))])
  }

  /** Any nonzero answer of BN_is_prime_ex, the error value -1 included, reads as "Yes". */
  function FilterPrime(lib: Lib, bn: Option<int>): Outcome
  {
    if bn.None? then NullInput else Outcome(0, [PrimeLine(lib.isPrime(bn.value) != 0)])
  }

  // ---------------------------------------------------------------- hash

  /** The digest table of filter_hash, keyed on the bit length. */
  const Bits2Hash: map<int, string> := map[
    128 := "MD4, MD5",
    160 := "SHA1, RIPEMD-160",
    192 := "TIGER",
    256 := "SHA256",
    512 := "SHA512"
  ]

  function HashLabel(bits: int): (names: string)
    ensures names == "No" <==> bits !in Bits2Hash
    ensures bits in Bits2Hash ==> names == Bits2Hash[bits]
  {
    if bits in Bits2Hash then Bits2Hash[bits] else "No"
  }

  function FilterHash(bn: Option<int>): Outcome
  {
    if bn.None? then NullInput else Outcome(0, [HashLine(HashLabel(NumBits(bn.value)))])
  }

  /** The label is chosen by the exact bit length of the number. */
  lemma HashByBitLength(v: int)
    ensures FilterHash(Some(v)).ret == 0
    ensures FilterHash(Some(v)).lines == [HashLine(
      if NumBits(v) == 128 then "MD4, MD5"
      else if NumBits(v) == 160 then "SHA1, RIPEMD-160"
      else if NumBits(v) == 192 then "TIGER"
      else if NumBits(v) == 256 then "SHA256"
      else if NumBits(v) == 512 then "SHA512"
      else "No")]
  {
  }

  /** "SHA256" is reported exactly for the 256-bit numbers. */
  lemma Sha256IffBits(v: int)
    ensures FilterHash(Some(v)).lines == [HashLine("SHA256")] <==> NumBits(v) == 256
  {
  }

  /** A number is reported as a SHA256 digest exactly when 2^255 <= |v| < 2^256. */
  lemma {:induction false} HashSha256Range(v: int)
    ensures FilterHash(Some(v)).lines == [HashLine("SHA256")] <==> Pow2(255) <= Abs(v) < Pow2(256)
  {
    Sha256IffBits(v);
    NumBitsIff(v, 256);
  }

  /** A 249-bit number fills 32 bytes and is reported as no digest. */
  lemma Bits249IsNo(v: int)
    requires NumBits(v) == 249
    ensures NumBytes(v) == 32
    ensures FilterHash(Some(v)).lines == [HashLine("No")]
  {
  }

  /** 2^248 has 32 bytes but 249 bits: the byte length alone does not select "SHA256". */
  lemma {:induction false} HashIsNotByByteLength()
    ensures NumBytes(Pow2(248)) == 32
    ensures FilterHash(Some(Pow2(248))).lines == [HashLine("No")]
  {
    NumBitsPow2(248);
    Bits249IsNo(Pow2(248));
  }

  // ---------------------------------------------------------------- ecpoint

  /** The curve table of filter_ecpoint, as the source writes it. */
  const Name2Nid: map<string, CurveId> := map[
    "secp521r1" := Secp521r1,
    "secp384r1" := Secp384r1,
    "sect283k1" := Sect283k1,
    "sect283r1" := Sect283r1,
    "sect409k1" := Sect409k1,
    "sect409r1" := Sect409r1,
    "secp256k1" := Secp256k1,
    "sect571k1" := Sect571k1,
    "sect571r1" := Sect571r1
  ]

  /** The order in which std::map walks Name2Nid: ascending by name. */
  const CurveOrder: seq<string> := [
    "secp256k1", "secp384r1", "secp521r1",
    "sect283k1", "sect283r1", "sect409k1", "sect409r1", "sect571k1", "sect571r1"
  ]

  /** std::string's `<`: lexicographic on characters. */
  predicate StrLess(a: string, b: string)
    decreases |a|
  {
    if |a| == 0 then |b| > 0
    else if |b| == 0 then false
    else if a[0] != b[0] then a[0] < b[0]
    else StrLess(a[1..], b[1..])
  }

  lemma {:induction false} StrLessTransitive(a: string, b: string, c: string)
    requires StrLess(a, b) && StrLess(b, c)
    ensures StrLess(a, c)
    decreases |a|
  {
    if |a| > 0 && a[0] == b[0] && b[0] == c[0] {
      StrLessTransitive(a[1..], b[1..], c[1..]);
    }
  }

  /** If a and b agree before position k and a[k] < b[k], then a < b. */
  lemma {:induction false} StrLessAt(a: string, b: string, k: nat)
    requires k < |a| && k < |b| && a[..k] == b[..k] && a[k] < b[k]
    ensures StrLess(a, b)
  {
    if k > 0 {
      assert a[0] == a[..k][0] == b[..k][0] == b[0];
      assert a[1..][..k - 1] == a[..k][1..] == b[..k][1..] == b[1..][..k - 1];
      StrLessAt(a[1..], b[1..], k - 1);
    }
  }

  /** A sequence whose neighbours ascend ascends between any two positions. */
  lemma {:induction false} AscendingFromAdjacent(s: seq<string>, i: nat, j: nat)
    requires forall k :: 0 <= k < |s| - 1 ==> StrLess(s[k], s[k + 1])
    requires i < j < |s|
    ensures StrLess(s[i], s[j])
    decreases j - i
  {
    if i + 1 < j {
      AscendingFromAdjacent(s, i + 1, j);
      StrLessTransitive(s[i], s[i + 1], s[j]);
    }
  }

  /** CurveOrder lists exactly the keys of Name2Nid, each once. */
  lemma CurveOrderNames()
    ensures forall c :: c in Name2Nid <==> c in CurveOrder
    ensures forall i, j :: 0 <= i < j < |CurveOrder| ==> CurveOrder[i] != CurveOrder[j]
    ensures |CurveOrder| == |Name2Nid.Keys|
  {
    CurveOrderAscending();
    forall i, j | 0 <= i < j < |CurveOrder|
      ensures CurveOrder[i] != CurveOrder[j]
    {
      StrLessIrreflexive(CurveOrder[i]);
    }
    DistinctCard(CurveOrder);
    assert Name2Nid.Keys == set c | c in CurveOrder;
  }

  /** Every name of the walk order is a key of the table. */
  lemma CurveOrderInTable()
    ensures forall c :: c in CurveOrder ==> c in Name2Nid
  {
  }

  /** No string is below itself. */
  lemma {:induction false} StrLessIrreflexive(a: string)
    ensures !StrLess(a, a)
    decreases |a|
  {
    if |a| > 0 {
      StrLessIrreflexive(a[1..]);
    }
  }

  /** A sequence without repetitions has as many distinct elements as positions. */
  lemma {:induction false} DistinctCard(s: seq<string>)
    requires forall i, j :: 0 <= i < j < |s| ==> s[i] != s[j]
    ensures |set c | c in s| == |s|
  {
    if s != [] {
      var init, last := s[..|s| - 1], s[|s| - 1];
      DistinctCard(init);
      assert (set c | c in s) == (set c | c in init) + {last};
      assert last !in (set c | c in init);
    }
  }

  /** CurveOrder is ascending by name, which is how std::map walks Name2Nid. */
  lemma CurveOrderAscending()
    ensures forall i, j :: 0 <= i < j < |CurveOrder| ==> StrLess(CurveOrder[i], CurveOrder[j])
  {
    forall k | 0 <= k < |CurveOrder| - 1
      ensures StrLess(CurveOrder[k], CurveOrder[k + 1])
    {
      AdjacentCurvesAscend(k);
    }
    forall i, j | 0 <= i < j < |CurveOrder|
      ensures StrLess(CurveOrder[i], CurveOrder[j])
    {
      AscendingFromAdjacent(CurveOrder, i, j);
    }
  }

  lemma AdjacentCurvesAscend(k: nat)
    requires k < |CurveOrder| - 1
    ensures StrLess(CurveOrder[k], CurveOrder[k + 1])
  {
    var a, b := CurveOrder[k], CurveOrder[k + 1];
    var d := if k == 2 then 3 else if k in {0, 1, 4, 6} then 4 else 7;
    assert a[..d] == b[..d];
    StrLessAt(a, b, d);
  }

  /**
   * A curve of `table` counts as a hit when its group can be built and the
   * number decodes as a point on it.
   */
  predicate HitIn(lib: Lib, v: int, table: map<string, CurveId>, name: string)
    requires name in table
  {
    lib.groupByName(table[name]) && lib.pointDecodes(table[name], v)
  }

  /** A curve of the filter's own table is a hit. */
  predicate Hit(lib: Lib, v: int, name: string)
    requires name in Name2Nid
  {
    HitIn(lib, v, Name2Nid, name)
  }

  /** The "ec-point: <name>" lines for the curves of `names` that are hits, in that order. */
  function CurveHits(lib: Lib, v: int, table: map<string, CurveId>, names: seq<string>): seq<Report>
    requires forall c :: c in names ==> c in table
  {
    if names == [] then []
    else
      var last := names[|names| - 1];
      CurveHits(lib, v, table, names[..|names| - 1]) + (if HitIn(lib, v, table, last) then [EcPointLine(last)] else [])
  }

  function EcPointSpec(lib: Lib, bn: Option<int>): Outcome
  {
    CurveOrderInTable();
    if bn.None? then NullInput
    else
      var hits := CurveHits(lib, bn.value, Name2Nid, CurveOrder);
      Outcome(0, if hits == [] then [EcPointNone] else hits)
  }

  /** filter_ecpoint: try every curve of the table, print one line per curve the number is a point of. */
  method FilterEcPoint(lib: Lib, bn: Option<int>) returns (o: Outcome)
    ensures o == EcPointSpec(lib, bn)
  {
    if bn.None? {
      return NullInput;
    }
    CurveOrderInTable();
    var hasPoint := false;
    var lines: seq<Report> := [];
    var i := 0;
    while i < |CurveOrder|
      invariant 0 <= i <= |CurveOrder|
      invariant lines == CurveHits(lib, bn.value, Name2Nid, CurveOrder[..i])
      invariant hasPoint <==> lines != []
    {
      var name := CurveOrder[i];
      var nid := Name2Nid[name];
      assert CurveOrder[..i + 1][..i] == CurveOrder[..i];
      i := i + 1;
      if !lib.groupByName(nid) {
        continue;
      }
      if lib.pointDecodes(nid, bn.value) {
        lines := lines + [EcPointLine(name)];
        hasPoint := true;
      }
    }
    assert CurveOrder[..i] == CurveOrder;
    if !hasPoint {
      lines := lines + [EcPointNone];
    }
    return Outcome(0, lines);
  }

  /** A curve line is printed exactly for the table curves that are hits. */
  lemma {:induction false} CurveHitsMembers(lib: Lib, v: int, table: map<string, CurveId>, names: seq<string>, c: string)
    requires forall c :: c in names ==> c in table
    ensures EcPointLine(c) in CurveHits(lib, v, table, names) <==> c in names && HitIn(lib, v, table, c)
    ensures EcPointNone !in CurveHits(lib, v, table, names)
  {
    if names != [] {
      CurveHitsMembers(lib, v, table, names[..|names| - 1], c);
      assert names == names[..|names| - 1] + [names[|names| - 1]];
    }
  }

  /** Every curve line printed names a curve, in the order the curves were tried. */
  lemma {:induction false} CurveHitsInOrder(lib: Lib, v: int, table: map<string, CurveId>, names: seq<string>)
    requires forall c :: c in names ==> c in table
    requires forall i, j :: 0 <= i < j < |names| ==> StrLess(names[i], names[j])
    ensures forall k :: 0 <= k < |CurveHits(lib, v, table, names)| ==> CurveHits(lib, v, table, names)[k].EcPointLine?
    ensures forall k, l :: 0 <= k < l < |CurveHits(lib, v, table, names)| ==>
      StrLess(CurveHits(lib, v, table, names)[k].curve, CurveHits(lib, v, table, names)[l].curve)
  {
    if names != [] {
      var init, last := names[..|names| - 1], names[|names| - 1];
      CurveHitsInOrder(lib, v, table, init);
      forall c | EcPointLine(c) in CurveHits(lib, v, table, init)
        ensures StrLess(c, last)
      {
        CurveHitsMembers(lib, v, table, init, c);
        var i :| 0 <= i < |init| && init[i] == c;
      }
    }
  }

  /** Every line CurveHits produces names a hit curve of `names`. */
  lemma {:induction false} CurveHitsAreHits(lib: Lib, v: int, table: map<string, CurveId>, names: seq<string>)
    requires forall c :: c in names ==> c in table
    ensures forall r :: r in CurveHits(lib, v, table, names) ==>
      r.EcPointLine? && r.curve in names && HitIn(lib, v, table, r.curve)
  {
    if names != [] {
      CurveHitsAreHits(lib, v, table, names[..|names| - 1]);
    }
  }

  /**
   * For each table curve, its line is printed exactly when it is a hit, no
   * other line is ever printed, and the filter returns 0.
   */
  lemma EcPointLines(lib: Lib, v: int)
    ensures EcPointSpec(lib, Some(v)).ret == 0
    ensures forall c :: c in Name2Nid ==>
      (EcPointLine(c) in EcPointSpec(lib, Some(v)).lines <==> Hit(lib, v, c))
    ensures forall r :: r in EcPointSpec(lib, Some(v)).lines ==>
      r == EcPointNone || (r.EcPointLine? && r.curve in Name2Nid)
  {
    CurveOrderNames();
    CurveHitsAreHits(lib, v, Name2Nid, CurveOrder);
    forall c | c in Name2Nid
      ensures EcPointLine(c) in CurveHits(lib, v, Name2Nid, CurveOrder) <==> Hit(lib, v, c)
    {
      CurveHitsMembers(lib, v, Name2Nid, CurveOrder, c);
    }
  }

  /** "ec-point: No" is printed, alone, exactly when no curve of the table is a hit. */
  lemma EcPointNoneIff(lib: Lib, v: int)
    ensures EcPointSpec(lib, Some(v)).lines == [EcPointNone] <==>
      forall c :: c in Name2Nid ==> !Hit(lib, v, c)
    ensures EcPointNone in EcPointSpec(lib, Some(v)).lines ==>
      EcPointSpec(lib, Some(v)).lines == [EcPointNone]
  {
    CurveOrderNames();
    var hits := CurveHits(lib, v, Name2Nid, CurveOrder);
    CurveHitsAreHits(lib, v, Name2Nid, CurveOrder);
    CurveHitsMembers(lib, v, Name2Nid, CurveOrder, "");
    if hits != [] {
      assert hits[0] in hits;
    } else {
      forall c | c in Name2Nid
        ensures !Hit(lib, v, c)
      {
        CurveHitsMembers(lib, v, Name2Nid, CurveOrder, c);
      }
    }
  }

  /** The curve lines come out in ascending name order, the order the curves are tried. */
  lemma EcPointLinesAscend(lib: Lib, v: int)
    ensures var lines := EcPointSpec(lib, Some(v)).lines;
      forall k, l :: 0 <= k < l < |lines| && lines[k].EcPointLine? && lines[l].EcPointLine? ==>
        StrLess(lines[k].curve, lines[l].curve)
  {
    CurveOrderNames();
    CurveOrderAscending();
    CurveHitsInOrder(lib, v, Name2Nid, CurveOrder);
  }

  /** A curve whose group cannot be built is skipped silently. */
  lemma EcPointSkipsUnavailable(lib: Lib, v: int, c: string)
    requires c in Name2Nid && !lib.groupByName(Name2Nid[c])
    ensures EcPointLine(c) !in EcPointSpec(lib, Some(v)).lines
  {
    EcPointLines(lib, v);
  }

  // ---------------------------------------------------------------- ssh moduli

  /** std::string::rfind for one character: the last index holding c. */
  function LastIndexOf(s: string, c: char): (r: Option<nat>)
    ensures r.None? <==> c !in s
    ensures r.Some? ==>
      && r.value < |s| && s[r.value] == c
      && forall j :: r.value < j < |s| ==> s[j] != c
  {
    if |s| == 0 then None
    else if s[|s| - 1] == c then Some(|s| - 1)
    else
      var r := LastIndexOf(s[..|s| - 1], c);
      assert s == s[..|s| - 1] + [s[|s| - 1]];
      r
  }

  /** The text after the last space of a line; None for a line without a space. */
  function LastField(line: string): (r: Option<string>)
    ensures r.None? <==> ' ' !in line
    ensures r.Some? ==>
      && ' ' !in r.value
      && exists i :: 0 <= i < |line| && line[i] == ' ' && line[i + 1..] == r.value
  {
    match LastIndexOf(line, ' ')
    case None => None
    case Some(i) =>
      Some(line[i + 1..])
  }

  /** A moduli line matches when its last field parses as hex and equals the number. */
  predicate LineMatches(lib: Lib, v: int, line: string)
  {
    match LastField(line)
    case None => false
    case Some(key) => lib.hex2bn(key) == Some(v)
  }

  /** The index of the first matching line at or after `from`. */
  function FirstMatchFrom(lib: Lib, v: int, lines: seq<string>, from: nat): Option<nat>
    decreases |lines| - from
  {
    if from >= |lines| then None
    else if LineMatches(lib, v, lines[from]) then Some(from)
    else FirstMatchFrom(lib, v, lines, from + 1)
  }

  function FirstMatch(lib: Lib, v: int, lines: seq<string>): Option<nat>
  {
    FirstMatchFrom(lib, v, lines, 0)
  }

  lemma {:induction false} FirstMatchFromIsFirst(lib: Lib, v: int, lines: seq<string>, from: nat)
    ensures FirstMatchFrom(lib, v, lines, from).None? <==>
      forall j :: from <= j < |lines| ==> !LineMatches(lib, v, lines[j])
    ensures FirstMatchFrom(lib, v, lines, from).Some? ==>
      var k := FirstMatchFrom(lib, v, lines, from).value;
      from <= k < |lines| && LineMatches(lib, v, lines[k]) &&
      forall j :: from <= j < k ==> !LineMatches(lib, v, lines[j])
    decreases |lines| - from
  {
    if from < |lines| && !LineMatches(lib, v, lines[from]) {
      FirstMatchFromIsFirst(lib, v, lines, from + 1);
    }
  }

  /** FirstMatch finds the earliest matching line, and None means no line matches. */
  lemma FirstMatchIsFirst(lib: Lib, v: int, lines: seq<string>)
    ensures FirstMatch(lib, v, lines).None? <==>
      forall j :: 0 <= j < |lines| ==> !LineMatches(lib, v, lines[j])
    ensures FirstMatch(lib, v, lines).Some? ==>
      var k := FirstMatch(lib, v, lines).value;
      k < |lines| && LineMatches(lib, v, lines[k]) &&
      forall j :: 0 <= j < k ==> !LineMatches(lib, v, lines[j])
  {
    FirstMatchFromIsFirst(lib, v, lines, 0);
  }

  function MatchSshSpec(lib: Lib, moduli: Option<seq<string>>, bn: Option<int>): Outcome
  {
    if bn.None? || moduli.None? then NullInput
    else Outcome(0, [SshModuliLine(FirstMatch(lib, bn.value, moduli.value).Some?)])
  }

  /**
   * filter_match_ssh: scan the moduli file line by line and stop at the first
   * line whose last field equals the number. `read` counts the lines consumed.
   */
  method FilterMatchSsh(lib: Lib, moduli: Option<seq<string>>, bn: Option<int>)
    returns (o: Outcome, ghost read: nat)
    ensures o == MatchSshSpec(lib, moduli, bn)
    ensures bn.None? || moduli.None? ==> read == 0
    ensures bn.Some? && moduli.Some? ==>
      read == match FirstMatch(lib, bn.value, moduli.value)
              case Some(k) => k + 1
              case None => |moduli.value|
  {
    read := 0;
    if bn.None? {
      return NullInput, read;
    }
    if moduli.None? {
      return NullInput, read;
    }
    var lines := moduli.value;
    var hasModuli := false;
    var i := 0;
    while i < |lines|
      invariant 0 <= i <= |lines|
      invariant !hasModuli
      invariant FirstMatch(lib, bn.value, lines) == FirstMatchFrom(lib, bn.value, lines, i)
    {
      var line := lines[i];
      i := i + 1;
      var idx := LastIndexOf(line, ' ');
      if idx.None? {
        continue;
      }
      var key := line[idx.value + 1..];
      var bn2 := lib.hex2bn(key);
      if bn2.None? {
        continue;
      }
      if bn2.value == bn.value {
        hasModuli := true;
        break;
      }
    }
    read := i;
    return Outcome(0, [SshModuliLine(hasModuli)]), read;
  }

  /** "SSH moduli: Yes" exactly when some line of the file matches the number. */
  lemma SshReport(lib: Lib, lines: seq<string>, v: int)
    ensures MatchSshSpec(lib, Some(lines), Some(v)).ret == 0
    ensures MatchSshSpec(lib, Some(lines), Some(v)).lines ==
      [SshModuliLine(exists j :: 0 <= j < |lines| && LineMatches(lib, v, lines[j]))]
  {
    FirstMatchIsFirst(lib, v, lines);
  }

  // ---------------------------------------------------------------- dispatch

  /** What calling the filter `k` on `bn` does. */
  function FilterSpec(env: Env, k: FilterKind, bn: Option<int>): Outcome
  {
    match k
    case Bits => FilterBits(bn)
    case Bytes => FilterBytes(bn)
    case Prime => FilterPrime(env.lib, bn)
    case EcPoint => EcPointSpec(env.lib, bn)
    case Hash => FilterHash(bn)
    case SshModuli => MatchSshSpec(env.lib, env.moduli, bn)
    case Hex => FilterHex(env.lib, bn)
    case Dec => FilterDec(env.lib, bn)
    case Base64 => FilterB64(env.lib, bn)
    case Mpi => FilterMpi(env.lib, bn)
    case Le => env.le(bn)
  }

  /** Call the filter `k` on `bn`. */
  method Invoke(env: Env, k: FilterKind, bn: Option<int>) returns (o: Outcome)
    ensures o == FilterSpec(env, k, bn)
  {
    match k
    case EcPoint =>
      o := FilterEcPoint(env.lib, bn);
    case SshModuli =>
      ghost var read;
      o, read := FilterMatchSsh(env.lib, env.moduli, bn);
    case _ =>
      o := FilterSpec(env, k, bn);
  }

  /** Every defined filter returns -1 and prints nothing when the number is null. */
  lemma NullGuard(env: Env, k: FilterKind)
    requires k != Le
    ensures FilterSpec(env, k, None) == NullInput
  {
  }

  /** An error from BN_is_prime_ex (-1) is printed as "prime: Yes". */
  lemma PrimeErrorReadsYes(lib: Lib, v: int)
    requires lib.isPrime(v) == -1
    ensures FilterPrime(lib, Some(v)) == Outcome(0, [PrimeLine(true)])
  {
  }

  /**
   * For a number, hex and dec print their one line and return 0; base64 and
   * MPI do so exactly when the conversion wrote the announced number of
   * bytes, and otherwise return -1 having printed nothing.
   */
  lemma OutputFiltersReport(env: Env, v: int)
    ensures FilterSpec(env, Hex, Some(v)) == Outcome(0, [HexLine(env.lib.bn2hex(v))])
    ensures FilterSpec(env, Dec, Some(v)) == Outcome(0, [DecLine(env.lib.bn2dec(v))])
    ensures |env.lib.bn2bin(v)| == NumBytes(v) ==>
      FilterSpec(env, Base64, Some(v)) == Outcome(0, [Base64Line(env.lib.b64Encode(env.lib.bn2bin(v)))])
    ensures |env.lib.bn2bin(v)| != NumBytes(v) ==> FilterSpec(env, Base64, Some(v)) == Outcome(-1, [])
    ensures |env.lib.bn2mpi(v)| == env.lib.mpiSize(v) ==>
      FilterSpec(env, Mpi, Some(v)) == Outcome(0, [MpiLine(env.lib.b64Encode(env.lib.bn2mpi(v)))])
    ensures |env.lib.bn2mpi(v)| != env.lib.mpiSize(v) ==> FilterSpec(env, Mpi, Some(v)) == Outcome(-1, [])
  {
  }

  /** bits, bytes and prime print one line and return 0 for a number. */
  lemma SimpleFiltersReport(env: Env, v: int)
    ensures FilterSpec(env, Bits, Some(v)) == Outcome(0, [BitsLine(NumBits(v))])
    ensures FilterSpec(env, Bytes, Some(v)) == Outcome(0, [BytesLine(NumBytes(v))])
    ensures FilterSpec(env, Prime, Some(v)) == Outcome(0, [PrimeLine(env.lib.isPrime(v) != 0)])
  {
  }
}
