/**
 * The class `number` of number.h and number.cc: the number being classified,
 * which may be absent (a null BIGNUM pointer), and the registry of named
 * filters that can be run on it.
 */
module Number {
  import opened Wrappers
  import opened OpenSsl
  import opened Filters

  /** The registry a fresh `number` starts with. */
  const DefaultFilters: map<string, FilterKind> := map[
    "bits" := Bits,
    "bytes" := Bytes,
    "prime" := Prime,
    "ecpoint" := EcPoint,
    "hash" := Hash,
    "ssh-moduli" := SshModuli
  ]

  /** std::unordered_map::emplace: insert unless the key is already present. */
  function Emplace(m: map<string, FilterKind>, name: string, f: FilterKind): (m': map<string, FilterKind>)
    ensures m'.Keys == m.Keys + {name}
    ensures name in m ==> m'[name] == m[name]
    ensures name !in m ==> m'[name] == f
    ensures forall k :: k in m && k != name ==> m'[k] == m[k]
  {
    if name in m then m else m[name := f]
  }

  /** `order` lists every key of `keys` exactly once. */
  predicate Enumerates(order: seq<string>, keys: set<string>)
  {
    && (forall i, j :: 0 <= i < j < |order| ==> order[i] != order[j])
    && (forall k :: k in order ==> k in keys)
    && (forall k :: k in keys ==> k in order)
  }

  /** What running the filters `order` of `filters`, one after the other, prints. */
  function RunAllOutput(env: Env, filters: map<string, FilterKind>, bn: Option<int>, order: seq<string>): seq<Report>
    requires forall k :: k in order ==> k in filters
  {
    if order == [] then []
    else
      var last := order[|order| - 1];
      RunAllOutput(env, filters, bn, order[..|order| - 1]) + FilterSpec(env, filters[last], bn).lines
  }

  /** The value BIGNUM conversion of decoded base64 bytes yields: MPI or big-endian. */
  function FromBytes(lib: Lib, bytes: seq<byte>, mpi: bool): Option<int>
  {
    if mpi then lib.mpi2bn(bytes) else lib.bin2bn(bytes)
  }

  class Number {
    var bn: Option<int>
    var filters: map<string, FilterKind>

    /** A fresh number has no value and the six default filters. */
    constructor ()
      ensures bn == None
      ensures filters == DefaultFilters
    {
      bn := None;
      filters := DefaultFilters;
    }

    /** add_filter: register `f` under `name` unless `name` is taken; always returns 0. */
    method AddFilter(name: string, f: FilterKind) returns (r: int)
      modifies this
      ensures r == 0
      ensures bn == old(bn)
      ensures filters == Emplace(old(filters), name, f)
    {
      filters := Emplace(filters, name, f);
      r := 0;
    }

    /**
     * run_filter: an empty name runs every registered filter once, in the
     * registry's (unspecified) order, and returns 0; any other name runs that
     * one filter and returns its result, or returns -1 if it is not registered.
     * `order` is the sequence of names run and `out` what they printed.
     */
    method RunFilter(env: Env, name: string) returns (r: int, order: seq<string>, out: seq<Report>)
      ensures name == "" ==>
        && r == 0
        && Enumerates(order, filters.Keys)
        && out == RunAllOutput(env, filters, bn, order)
      ensures name != "" && name !in filters ==> r == -1 && order == [] && out == []
      ensures name != "" && name in filters ==>
        && order == [name]
        && r == FilterSpec(env, filters[name], bn).ret
        && out == FilterSpec(env, filters[name], bn).lines
    {
      if |name| == 0 {
        var remaining := filters.Keys;
        order, out := [], [];
        while remaining != {}
          invariant remaining <= filters.Keys
          invariant forall k :: k in order ==> k in filters && k !in remaining
          invariant forall k :: k in filters ==> k in order || k in remaining
          invariant forall i, j :: 0 <= i < j < |order| ==> order[i] != order[j]
          invariant out == RunAllOutput(env, filters, bn, order)
          decreases remaining
        {
          var k :| k in remaining;
          var o := Invoke(env, filters[k], bn);
          assert (order + [k])[..|order|] == order;
          order, out := order + [k], out + o.lines;
          remaining := remaining - {k};
        }
        return 0, order, out;
      }
      if name !in filters {
        return -1, [], [];
      }
      var o := Invoke(env, filters[name], bn);
      return o.ret, [name], o.lines;
    }

    /** import_hex: set the number from hex text; -1, number untouched, when BN_hex2bn fails. */
    method ImportHex(lib: Lib, s: string) returns (r: int)
      modifies this
      ensures filters == old(filters)
      ensures lib.hex2bn(s).None? ==> r == -1 && bn == old(bn)
      ensures lib.hex2bn(s).Some? ==> r == 0 && bn == lib.hex2bn(s)
    {
      var parsed := lib.hex2bn(s);
      if parsed.None? {
        return -1;
      }
      bn := parsed;
      return 0;
    }

    /** import_dec: set the number from decimal text; -1, number untouched, when BN_dec2bn fails. */
    method ImportDec(lib: Lib, s: string) returns (r: int)
      modifies this
      ensures filters == old(filters)
      ensures lib.dec2bn(s).None? ==> r == -1 && bn == old(bn)
      ensures lib.dec2bn(s).Some? ==> r == 0 && bn == lib.dec2bn(s)
    {
      var parsed := lib.dec2bn(s);
      if parsed.None? {
        return -1;
      }
      bn := parsed;
      return 0;
    }

    /**
     * import_b64: base64-decode, then convert as MPI or as big-endian binary.
     * An empty decoding returns -1 and leaves the number untouched; otherwise
     * the number is overwritten by the conversion, so a failed conversion
     * leaves it null and returns -1.
     */
    method ImportB64(lib: Lib, b64: string, mpi: bool := false) returns (r: int)
      modifies this
      ensures filters == old(filters)
      ensures |lib.b64Decode(b64)| == 0 ==> r == -1 && bn == old(bn)
      ensures |lib.b64Decode(b64)| != 0 ==>
        && bn == FromBytes(lib, lib.b64Decode(b64), mpi)
        && (r == -1 <==> bn.None?)
        && (r == 0 <==> bn.Some?)
    {
      var s := lib.b64Decode(b64);
      if |s| == 0 {
        return -1;
      }
      var f := lib.bin2bn;
      if mpi {
        f := lib.mpi2bn;
      }
      bn := f(s);
      if bn.None? {
        return -1;
      }
      return 0;
    }
  }

  /** import_b64 called without its second argument converts the bytes as big-endian binary. */
  method ImportB64DefaultIsBinary(lib: Lib, b64: string) returns (r: int, bn: Option<int>)
    ensures |lib.b64Decode(b64)| == 0 ==> r == -1 && bn == None
    ensures |lib.b64Decode(b64)| != 0 ==> bn == lib.bin2bn(lib.b64Decode(b64)) && (r == 0 <==> bn.Some?)
  {
    var num := new Number();
    r := num.ImportB64(lib, b64);
    bn := num.bn;
  }

  /** A fresh registry holds exactly the six default names. */
  lemma DefaultFilterNames()
    ensures DefaultFilters.Keys == {"bits", "bytes", "prime", "ecpoint", "hash", "ssh-moduli"}
  {
  }

  /** Registering a name that is already present keeps the registry as it is. */
  lemma EmplaceKeepsExisting(m: map<string, FilterKind>, name: string, f: FilterKind)
    requires name in m
    ensures Emplace(m, name, f) == m
  {
  }

  /** Registering a fresh name adds exactly that entry. */
  lemma EmplaceAddsFresh(m: map<string, FilterKind>, name: string, f: FilterKind)
    requires name !in m
    ensures Emplace(m, name, f) - {name} == m
    ensures name in Emplace(m, name, f) && Emplace(m, name, f)[name] == f
  {
  }

  /** Running all filters prints, in order, what each filter of `order` prints. */
  lemma {:induction false} RunAllOutputSplit(env: Env, filters: map<string, FilterKind>, bn: Option<int>,
                                         a: seq<string>, b: seq<string>)
    requires forall k :: k in a + b ==> k in filters
    ensures RunAllOutput(env, filters, bn, a + b) ==
      RunAllOutput(env, filters, bn, a) + RunAllOutput(env, filters, bn, b)
    decreases |b|
  {
    if b == [] {
      assert a + b == a;
    } else {
      var b' := b[..|b| - 1];
      assert (a + b)[..|a + b| - 1] == a + b';
      RunAllOutputSplit(env, filters, bn, a, b');
    }
  }

  /** With no number set, running every filter prints nothing but what filter_le may print. */
  lemma {:induction false} RunAllOnNull(env: Env, filters: map<string, FilterKind>, order: seq<string>)
    requires forall k :: k in order ==> k in filters && filters[k] != Le
    ensures RunAllOutput(env, filters, None, order) == []
  {
    if order != [] {
      RunAllOnNull(env, filters, order[..|order| - 1]);
      NullGuard(env, filters[order[|order| - 1]]);
    }
  }
}
