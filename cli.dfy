/**
 * The `main` of main.cc: the getopt loop that ORs option bits into `mode` and
 * keeps the last input argument, the fixed-priority choice of one import, the
 * conditional registration of the output filters, and the final run of every
 * registered filter.
 */
module Cli {
  import opened Wrappers
  import opened OpenSsl
  import opened Filters
  import opened Number

  /** One option as getopt hands it over: its character and, for x/d/b/m, its argument. */
  datatype Opt = Opt(flag: char, arg: string)

  const ModeInvalid: bv32 := 0
  const InModeHex: bv32 := 1
  const InModeDec: bv32 := 2
  const InModeB64: bv32 := 4
  const InModeMpi: bv32 := 8
  const OutModeHex: bv32 := 0x1000
  const OutModeDec: bv32 := 0x2000
  const OutModeB64: bv32 := 0x4000
  const OutModeMpi: bv32 := 0x8000
  const OutModeLe: bv32 := 0x10000

  /** The options of getopt's "x:d:b:m:XDBML"; anything else reaches usage(). */
  predicate Known(c: char)
  {
    c == 'x' || c == 'd' || c == 'b' || c == 'm' ||
    c == 'X' || c == 'D' || c == 'B' || c == 'M' || c == 'L'
  }

  /** The options that carry the number. */
  predicate IsInput(c: char)
  {
    c == 'x' || c == 'd' || c == 'b' || c == 'm'
  }

  /** The mode bit an option sets; none for an unknown option. */
  function FlagBit(c: char): bv32
  {
    match c
    case 'x' => InModeHex
    case 'd' => InModeDec
    case 'b' => InModeB64
    case 'm' => InModeMpi
    case 'X' => OutModeHex
    case 'D' => OutModeDec
    case 'B' => OutModeB64
    case 'M' => OutModeMpi
    case 'L' => OutModeLe
    case _ => 0
  }

  predicate AllKnown(opts: seq<Opt>)
  {
    forall i :: 0 <= i < |opts| ==> Known(opts[i].flag)
  }

  predicate HasFlag(opts: seq<Opt>, c: char)
  {
    exists i :: 0 <= i < |opts| && opts[i].flag == c
  }

  /** The mode after the options `opts`, ORed in one after the other. */
  function ModeOf(opts: seq<Opt>): bv32
  {
    if opts == [] then ModeInvalid
    else ModeOf(opts[..|opts| - 1]) | FlagBit(opts[|opts| - 1].flag)
  }

  /** The value of `n` after the options `opts`: the argument of the last input option. */
  function LastInputArg(opts: seq<Opt>): string
  {
    if opts == [] then ""
    else if IsInput(opts[|opts| - 1].flag) then opts[|opts| - 1].arg
    else LastInputArg(opts[..|opts| - 1])
  }

  /** One case of the getopt switch; `known` is false for the default case, which calls usage(). */
  method HandleOption(o: Opt, mode: bv32, n: string) returns (known: bool, mode': bv32, n': string)
    ensures known == Known(o.flag)
    ensures known ==> mode' == mode | FlagBit(o.flag)
    ensures known ==> n' == if IsInput(o.flag) then o.arg else n
  {
    known, mode', n' := true, mode, n;
    match o.flag {
      case 'x' =>
        n' := o.arg;
        mode' := mode | InModeHex;
      case 'd' =>
        n' := o.arg;
        mode' := mode | InModeDec;
      case 'b' =>
        n' := o.arg;
        mode' := mode | InModeB64;
      case 'm' =>
        n' := o.arg;
        mode' := mode | InModeMpi;
      case 'X' =>
        mode' := mode | OutModeHex;
      case 'D' =>
        mode' := mode | OutModeDec;
      case 'B' =>
        mode' := mode | OutModeB64;
      case 'M' =>
        mode' := mode | OutModeMpi;
      case 'L' =>
        mode' := mode | OutModeLe;
      case _ =>
        known := false;
    }
  }

  /**
   * The getopt loop. `ok` is false when an option reaches usage(), which exits
   * with status 1 at once.
   */
  method ParseOptions(opts: seq<Opt>) returns (ok: bool, mode: bv32, n: string)
    ensures ok <==> AllKnown(opts)
    ensures ok ==> mode == ModeOf(opts) && n == LastInputArg(opts)
  {
    mode, n := ModeInvalid, "";
    var i := 0;
    while i < |opts|
      invariant 0 <= i <= |opts|
      invariant AllKnown(opts[..i])
      invariant mode == ModeOf(opts[..i])
      invariant n == LastInputArg(opts[..i])
    {
      OneMoreOption(opts, i);
      var known;
      known, mode, n := HandleOption(opts[i], mode, n);
      if !known {
        return false, mode, n;
      }
      i := i + 1;
    }
    assert opts[..i] == opts;
    return true, mode, n;
  }

  /** How ModeOf and LastInputArg grow by one option. */
  lemma OneMoreOption(opts: seq<Opt>, i: nat)
    requires i < |opts|
    ensures ModeOf(opts[..i + 1]) == ModeOf(opts[..i]) | FlagBit(opts[i].flag)
    ensures LastInputArg(opts[..i + 1]) ==
      if IsInput(opts[i].flag) then opts[i].arg else LastInputArg(opts[..i])
    ensures AllKnown(opts[..i + 1]) <==> AllKnown(opts[..i]) && Known(opts[i].flag)
  {
    assert opts[..i + 1][..i] == opts[..i];
  }

  /** The one import `main` performs. */
  datatype ImportCall =
    | NoImport
    | HexImport(hex: string)
    | DecImport(dec: string)
    | B64Import(b64: string, mpi: bool)

  /** n.find("0x") == 0, then n.erase(0, 2): drop one leading "0x". */
  function StripHexPrefix(n: string): string
  {
    if |n| >= 2 && n[..2] == "0x" then n[2..] else n
  }

  /** The if/else-if chain: hex before dec before base64 before MPI. */
  function ChooseImport(mode: bv32, n: string): ImportCall
  {
    if mode & InModeHex != 0 then HexImport(StripHexPrefix(n))
    else if mode & InModeDec != 0 then DecImport(n)
    else if mode & InModeB64 != 0 then B64Import(n, false)
    else if mode & InModeMpi != 0 then B64Import(n, true)
    else NoImport
  }

  /** The number a fresh `number` holds after the import `call`. */
  function Imported(lib: Lib, call: ImportCall): Option<int>
  {
    match call
    case NoImport => None
    case HexImport(s) => lib.hex2bn(s)
    case DecImport(s) => lib.dec2bn(s)
    case B64Import(s, mpi) =>
      var bytes := lib.b64Decode(s);
      if |bytes| == 0 then None else FromBytes(lib, bytes, mpi)
  }

  /** One `if (mode & ...) add_filter(name, f)` of main: emplace when `on` holds. */
  function EmplaceIf(m: map<string, FilterKind>, on: bool, name: string, f: FilterKind): (m': map<string, FilterKind>)
    ensures m'.Keys == m.Keys + (if on then {name} else {})
    ensures forall k :: k in m ==> m'[k] == m[k]
    ensures on && name !in m ==> m'[name] == f
  {
    if on then Emplace(m, name, f) else m
  }

  /** The registry after the output filters the mode asks for are added to `m`. */
  function WithOutputs(m: map<string, FilterKind>, mode: bv32): map<string, FilterKind>
  {
    var m1 := EmplaceIf(m, mode & OutModeHex != 0, "hex", Hex);
    var m2 := EmplaceIf(m1, mode & OutModeDec != 0, "dec", Dec);
    var m3 := EmplaceIf(m2, mode & OutModeB64 != 0, "base64", Base64);
    var m4 := EmplaceIf(m3, mode & OutModeMpi != 0, "mpi", Mpi);
    EmplaceIf(m4, mode & OutModeLe != 0, "le", Le)
  }

  /** The if/else-if chain of imports, run on a number that has no value yet. */
  method ImportChosen(num: Number, lib: Lib, mode: bv32, n: string)
    requires num.bn == None
    modifies num
    ensures num.filters == old(num.filters)
    ensures num.bn == Imported(lib, ChooseImport(mode, n))
  {
    var ignored: int;
    var n := n;
    if mode & InModeHex != 0 {
      if |n| >= 2 && n[..2] == "0x" {
        n := n[2..];
      }
      ignored := num.ImportHex(lib, n);
    } else if mode & InModeDec != 0 {
      ignored := num.ImportDec(lib, n);
    } else if mode & InModeB64 != 0 {
      ignored := num.ImportB64(lib, n, false);
    } else if mode & InModeMpi != 0 {
      ignored := num.ImportB64(lib, n, true);
    }
  }

  /** The run of ifs that adds the output filters the mode asks for. */
  method RegisterOutputs(num: Number, mode: bv32)
    modifies num
    ensures num.bn == old(num.bn)
    ensures num.filters == WithOutputs(old(num.filters), mode)
  {
    var ignored: int;
    if mode & OutModeHex != 0 {
      ignored := num.AddFilter("hex", Hex);
    }
    if mode & OutModeDec != 0 {
      ignored := num.AddFilter("dec", Dec);
    }
    if mode & OutModeB64 != 0 {
      ignored := num.AddFilter("base64", Base64);
    }
    if mode & OutModeMpi != 0 {
      ignored := num.AddFilter("mpi", Mpi);
    }
    if mode & OutModeLe != 0 {
      ignored := num.AddFilter("le", Le);
    }
  }

  /**
   * main. On an unknown option usage() exits with 1 and nothing is reported.
   * Otherwise the chosen import runs (its failure is ignored), the requested
   * output filters are registered, every registered filter runs, and main
   * returns 0.
   */
  method RunMain(env: Env, opts: seq<Opt>) returns (status: int, order: seq<string>, out: seq<Report>)
    ensures !AllKnown(opts) ==> status == 1 && order == [] && out == []
    ensures AllKnown(opts) ==>
      var mode := ModeOf(opts);
      var registry := WithOutputs(DefaultFilters, mode);
      && status == 0
      && Enumerates(order, registry.Keys)
      && out == RunAllOutput(env, registry, Imported(env.lib, ChooseImport(mode, LastInputArg(opts))), order)
  {
    var num := new Number();
    var ok, mode, n := ParseOptions(opts);
    if !ok {
      return 1, [], [];
    }
    ImportChosen(num, env.lib, mode, n);
    RegisterOutputs(num, mode);
    var filter := "";
    var ignored;
    ignored, order, out := num.RunFilter(env, filter);
    return 0, order, out;
  }

  // ---------------------------------------------------------------- properties

  /** Distinct known options set disjoint nonzero bits, and an unknown one none. */
  lemma FlagBitsDisjoint(c: char, d: char)
    ensures Known(c) ==> FlagBit(c) != 0
    ensures !Known(c) ==> FlagBit(c) == 0
    ensures Known(c) && Known(d) && c != d ==> FlagBit(c) & FlagBit(d) == 0
  {
  }

  /** The bit of a known option is a single bit: a power of two. */
  lemma FlagBitSingle(c: char)
    requires Known(c)
    ensures FlagBit(c) & (FlagBit(c) - 1) == 0
  {
  }

  /** Bits are only ever added: every bit set after a prefix of the options is still set at the end. */
  lemma {:induction false} ModeOnlyAccumulates(opts: seq<Opt>, k: nat)
    requires k <= |opts|
    ensures ModeOf(opts[..k]) & ModeOf(opts) == ModeOf(opts[..k])
  {
    if k < |opts| {
      var init := opts[..|opts| - 1];
      assert init[..k] == opts[..k];
      ModeOnlyAccumulates(init, k);
    } else {
      assert opts[..k] == opts;
    }
  }

  /** The bit of a known option is set exactly when that option was given, wherever it stood. */
  lemma {:induction false} ModeBitIff(opts: seq<Opt>, c: char)
    requires Known(c)
    ensures ModeOf(opts) & FlagBit(c) != 0 <==> HasFlag(opts, c)
  {
    if opts != [] {
      var init, last := opts[..|opts| - 1], opts[|opts| - 1];
      ModeBitIff(init, c);
      FlagBitsDisjoint(last.flag, c);
      if HasFlag(opts, c) && last.flag != c {
        var i :| 0 <= i < |opts| && opts[i].flag == c;
        assert init[i].flag == c;
      }
      if HasFlag(init, c) {
        var i :| 0 <= i < |init| && init[i].flag == c;
        assert opts[i].flag == c;
      }
    }
  }

  /** `n` is the argument of the last input option, or "" when there is none. */
  lemma {:induction false} LastInputArgIsLast(opts: seq<Opt>)
    ensures (forall i :: 0 <= i < |opts| ==> !IsInput(opts[i].flag)) ==> LastInputArg(opts) == ""
    ensures forall k ::
      (0 <= k < |opts| && IsInput(opts[k].flag) && forall j :: k < j < |opts| ==> !IsInput(opts[j].flag))
      ==> LastInputArg(opts) == opts[k].arg
  {
    if opts != [] {
      var init := opts[..|opts| - 1];
      LastInputArgIsLast(init);
      assert forall i :: 0 <= i < |init| ==> init[i] == opts[i];
    }
  }

  /** The import follows the fixed priority hex, dec, base64, MPI over the options present, whatever their order. */
  lemma ImportPriority(opts: seq<Opt>, n: string)
    ensures ChooseImport(ModeOf(opts), n) ==
      if HasFlag(opts, 'x') then HexImport(StripHexPrefix(n))
      else if HasFlag(opts, 'd') then DecImport(n)
      else if HasFlag(opts, 'b') then B64Import(n, false)
      else if HasFlag(opts, 'm') then B64Import(n, true)
      else NoImport
  {
    assert FlagBit('x') == InModeHex && FlagBit('d') == InModeDec;
    assert FlagBit('b') == InModeB64 && FlagBit('m') == InModeMpi;
    ModeBitIff(opts, 'x');
    ModeBitIff(opts, 'd');
    ModeBitIff(opts, 'b');
    ModeBitIff(opts, 'm');
  }

  /** Reordering the options leaves the mode, hence the kind of import, unchanged. */
  lemma ModeIgnoresOrder(a: seq<Opt>, b: seq<Opt>)
    requires forall c :: HasFlag(a, c) <==> HasFlag(b, c)
    ensures ModeOf(a) == ModeOf(b)
  {
    forall c | Known(c)
      ensures ModeOf(a) & FlagBit(c) == ModeOf(b) & FlagBit(c)
    {
      ModeBitIff(a, c);
      ModeBitIff(b, c);
    }
    ModeHasOnlyFlagBits(a);
    ModeHasOnlyFlagBits(b);
    assert ModeOf(a) & InModeHex == ModeOf(b) & InModeHex by { assert Known('x'); }
    assert ModeOf(a) & InModeDec == ModeOf(b) & InModeDec by { assert Known('d'); }
    assert ModeOf(a) & InModeB64 == ModeOf(b) & InModeB64 by { assert Known('b'); }
    assert ModeOf(a) & InModeMpi == ModeOf(b) & InModeMpi by { assert Known('m'); }
    assert ModeOf(a) & OutModeHex == ModeOf(b) & OutModeHex by { assert Known('X'); }
    assert ModeOf(a) & OutModeDec == ModeOf(b) & OutModeDec by { assert Known('D'); }
    assert ModeOf(a) & OutModeB64 == ModeOf(b) & OutModeB64 by { assert Known('B'); }
    assert ModeOf(a) & OutModeMpi == ModeOf(b) & OutModeMpi by { assert Known('M'); }
    assert ModeOf(a) & OutModeLe == ModeOf(b) & OutModeLe by { assert Known('L'); }
  }

  /** The mode only ever holds the nine option bits. */
  lemma {:induction false} ModeHasOnlyFlagBits(opts: seq<Opt>)
    ensures ModeOf(opts) & !0x1F00F == 0
  {
    if opts != [] {
      ModeHasOnlyFlagBits(opts[..|opts| - 1]);
    }
  }

  /** "-x ff -d 10" imports "10", as hex. */
  lemma HexWinsOverLaterDec()
    ensures var opts := [Opt('x', "ff"), Opt('d', "10")];
      ChooseImport(ModeOf(opts), LastInputArg(opts)) == HexImport("10")
  {
    var opts := [Opt('x', "ff"), Opt('d', "10")];
    assert opts[..1] == [Opt('x', "ff")] && opts[..1][..0] == [];
    assert ModeOf(opts[..1]) == InModeHex;
    assert ModeOf(opts) == InModeHex | InModeDec;
    assert LastInputArg(opts) == "10";
    assert (InModeHex | InModeDec) & InModeHex != 0;
    assert StripHexPrefix("10") == "10" by { assert "10"[..2][0] == '1'; }
  }

  /** One leading "0x" is dropped, and only at the start. */
  lemma StripHexPrefixOnce(s: string)
    ensures StripHexPrefix("0x" + s) == s
    ensures !(|s| >= 2 && s[..2] == "0x") ==> StripHexPrefix(s) == s
  {
    assert ("0x" + s)[..2] == "0x";
    assert ("0x" + s)[2..] == s;
  }

  /** Without an input option nothing is imported and the number stays null. */
  lemma NoInputNoImport(lib: Lib, opts: seq<Opt>)
    requires forall i :: 0 <= i < |opts| ==> !IsInput(opts[i].flag)
    ensures ChooseImport(ModeOf(opts), LastInputArg(opts)) == NoImport
    ensures Imported(lib, ChooseImport(ModeOf(opts), LastInputArg(opts))) == None
  {
    ImportPriority(opts, LastInputArg(opts));
  }

  /** The output filters add one name per output bit that is set to any registry. */
  lemma WithOutputsKeys(m: map<string, FilterKind>, mode: bv32)
    ensures WithOutputs(m, mode).Keys == m.Keys
      + (if mode & OutModeHex != 0 then {"hex"} else {})
      + (if mode & OutModeDec != 0 then {"dec"} else {})
      + (if mode & OutModeB64 != 0 then {"base64"} else {})
      + (if mode & OutModeMpi != 0 then {"mpi"} else {})
      + (if mode & OutModeLe != 0 then {"le"} else {})
  {
  }

  /** The registry main builds: the defaults plus one name per output bit that is set. */
  lemma OutputRegistryKeys(mode: bv32)
    ensures WithOutputs(DefaultFilters, mode).Keys == DefaultFilters.Keys
      + (if mode & OutModeHex != 0 then {"hex"} else {})
      + (if mode & OutModeDec != 0 then {"dec"} else {})
      + (if mode & OutModeB64 != 0 then {"base64"} else {})
      + (if mode & OutModeMpi != 0 then {"mpi"} else {})
      + (if mode & OutModeLe != 0 then {"le"} else {})
  {
    WithOutputsKeys(DefaultFilters, mode);
  }

  /** Each output filter is registered, as itself, exactly when its mode bit is set. */
  lemma OutputRegistration(mode: bv32)
    ensures var r := WithOutputs(DefaultFilters, mode);
      && ("hex" in r <==> mode & OutModeHex != 0)
      && ("dec" in r <==> mode & OutModeDec != 0)
      && ("base64" in r <==> mode & OutModeB64 != 0)
      && ("mpi" in r <==> mode & OutModeMpi != 0)
      && ("le" in r <==> mode & OutModeLe != 0)
      && ("hex" in r ==> r["hex"] == Hex)
      && ("dec" in r ==> r["dec"] == Dec)
      && ("base64" in r ==> r["base64"] == Base64)
      && ("mpi" in r ==> r["mpi"] == Mpi)
      && ("le" in r ==> r["le"] == Le)
  {
    OutputRegistryKeys(mode);
  }

  /** Registering the output filters never replaces a default filter. */
  lemma OutputsKeepDefaults(mode: bv32)
    ensures forall k :: k in DefaultFilters ==> WithOutputs(DefaultFilters, mode)[k] == DefaultFilters[k]
  {
  }

  /** Without -L no name of main's registry maps to filter_le. */
  lemma RegistryWithoutLe(mode: bv32, k: string)
    requires mode & OutModeLe == 0
    requires k in WithOutputs(DefaultFilters, mode)
    ensures WithOutputs(DefaultFilters, mode)[k] != Le
  {
    if k in DefaultFilters {
      OutputsKeepDefaults(mode);
    } else {
      OutputRegistryKeys(mode);
      assert k == "hex" || k == "dec" || k == "base64" || k == "mpi";
      OutputRegistration(mode);
    }
  }

  /** When no number was imported and -L was not given, running every filter prints nothing. */
  lemma NoNumberNoReport(env: Env, mode: bv32, order: seq<string>)
    requires mode & OutModeLe == 0
    requires Enumerates(order, WithOutputs(DefaultFilters, mode).Keys)
    ensures RunAllOutput(env, WithOutputs(DefaultFilters, mode), None, order) == []
  {
    var r := WithOutputs(DefaultFilters, mode);
    forall k | k in order
      ensures k in r && r[k] != Le
    {
      RegistryWithoutLe(mode, k);
    }
    RunAllOnNull(env, r, order);
  }
}
