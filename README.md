# number: a Dafny model of the filter registry, the filters and `main`

`number` is a small command-line tool. It reads one big integer, given as hex,
decimal, base64 of big-endian binary, or base64 of an OpenSSL MPI. It then runs
a set of named "filters" over it. For a number that is set, each filter prints
one or more report lines (except ssh-moduli when `/etc/ssh/moduli` cannot be
opened, and base64 or MPI when the conversion comes up short): the bit and byte length, a primality verdict, the digest sizes the bit length
fits, the elliptic curves the number decodes as a point on, and whether the
number is one of the Diffie-Hellman moduli in `/etc/ssh/moduli`. Optional
output filters print the number again as hex, decimal, base64 or base64 MPI.

This project models the control and state logic around the OpenSSL calls:

- `wrappers.dfy` (`Wrappers`): `Option`, used wherever the source has a pointer that may be null.
- `openssl.dfy` (`OpenSsl`): the OpenSSL and base64 calls as fields of a record `Lib` of
  total functions. Every property below therefore holds for every library
  behaviour. BN_num_bits is the one call given a definition: the bit length of
  the magnitude. BN_num_bytes is defined from it, as bn.h does.
- `filters.dfy` (`Filters`): the filters of filters.cc. Printing is modelled as the list of
  `Report` lines a filter produces, next to its return value (`Outcome`).
  `FilterEcPoint` and `FilterMatchSsh` are loops proved against the
  specification functions `EcPointSpec` and `MatchSshSpec`. `FilterSpec` says
  what calling any filter does.
- `number.dfy` (`Number`): the class `number`. It has a `bn` field (the BIGNUM, `None` when null) and a
  `filters` map from names to filters. Its methods `AddFilter`, `RunFilter`,
  `ImportHex`, `ImportDec` and `ImportB64` update those fields as the C++ does.
- `cli.dfy` (`Cli`): `main`. This covers the getopt loop that ORs bits into a `bv32` mode and keeps
  the last input argument. It covers the if/else-if import chain (hex, then dec,
  then base64, then MPI), the conditional output registration, and the final
  run of all filters.

How the model lines up with the source:

- The registry uses `emplace`, which keeps the first entry: a second
  `add_filter` of the same name is ignored (`Emplace`).
- `filter_hash` keys its table on the bit length, so a 32-byte, 249-bit number
  gets "No" (`HashIsNotByByteLength`).
- `filter_ecpoint` tests only point decoding on nine curves. No filter compares
  curve parameters, and `filter_match`, declared in filters.h, has no definition.
- `filter_prime` prints "Yes" for any nonzero result of `BN_is_prime_ex`. That
  includes its error value -1 (`PrimeErrorReadsYes`).
- `import_b64` assigns the conversion result to `d_bn` before testing it. A
  failed conversion therefore leaves the number null, even if one was set
  before.
- `std::unordered_map` iteration order is unspecified. `RunFilter` picks the
  next name with a nondeterministic choice. It returns the order it used, and
  its contract holds for every order.

## Model

| member | source | states |
|---|---|---|
| `OpenSsl.NumBitsIff` | filters.cc:50 | the bit count printed is k exactly when 2^(k-1) <= \|x\| < 2^k (0 only for 0) |
| `OpenSsl.NumBitsPow2` | filters.cc:50 | 2^k has bit length k + 1 |
| `OpenSsl.NumBytesBounds` | filters.cc:60 | the byte count is 0 only for 0 and covers the bit count: 8·bytes − 7 <= bits <= 8·bytes |
| `Filters.HashLabel` | filters.cc:177-187 | the label is the table entry for a listed bit length and "No" exactly for an unlisted one |
| `Filters.HashByBitLength` | filters.cc:172-189 | filter_hash returns 0 and prints the label for the exact bit length 128/160/192/256/512, otherwise "No" |
| `Filters.Sha256IffBits` | filters.cc:185-187 | "SHA256" is printed exactly for a 256-bit number |
| `Filters.HashSha256Range` | filters.cc:185-187 | "SHA256" is printed exactly for 2^255 <= \|v\| < 2^256 |
| `Filters.Bits249IsNo` | filters.cc:185-187 | every 249-bit number has 32 bytes and is reported as "No" |
| `Filters.HashIsNotByByteLength` | filters.cc:185 | 2^248 has 32 bytes yet gets "No": the key is the bit length |
| `Filters.CurveOrderNames` | filters.cc:140-150 | the walk order lists exactly the nine table names, each once, so it has as many entries as the table |
| `Filters.CurveOrderAscending` | filters.cc:140-154 | the walk order is strictly ascending by name, the order std::map iterates in |
| `Filters.FilterEcPoint` | filters.cc:133-169 | the loop over the curve table produces exactly EcPointSpec: -1 and nothing for null, else one line per hit curve in walk order, or "No" |
| `Filters.EcPointLines` | filters.cc:154-163 | for non-null input the filter returns 0, a curve's line is printed exactly when its group builds and the number decodes as a point on it, and every line printed is such a curve line or "No" |
| `Filters.EcPointNoneIff` | filters.cc:165-166 | "ec-point: No" is printed, alone, exactly when no table curve is a hit |
| `Filters.EcPointLinesAscend` | filters.cc:154-162 | the curve lines come out in ascending name order |
| `Filters.EcPointSkipsUnavailable` | filters.cc:155-157 | a curve whose group cannot be built never gets a line |
| `Filters.LastIndexOf` | filters.cc:221 | rfind: None exactly when the character is absent, else the greatest index holding it |
| `Filters.LastField` | filters.cc:221-223 | None exactly for a line without a space, else the space-free text following a space that ends the line |
| `Filters.FirstMatchIsFirst` | filters.cc:216-232 | the scan stops at the earliest line whose last field parses as hex and equals the number; None exactly when no line does |
| `Filters.FilterMatchSsh` | filters.cc:199-236 | -1 without reading for null input or an unopenable file, else 0 and "Yes" exactly on a match; it reads lines only up to the first match |
| `Filters.SshReport` | filters.cc:228-235 | for an open file the filter returns 0 and prints "Yes" exactly when some line matches |
| `Filters.Invoke` | number.cc:49 | calling a registered filter does what FilterSpec says for that filter |
| `Filters.NullGuard` | filters.cc:47-48 | every defined filter returns -1 and prints nothing for a null number (same guard at lines 57, 67, 78, 89, 107, 125, 135, 174, 201) |
| `Filters.OutputFiltersReport` | filters.cc:65-120 | for a number, hex and dec return 0 and print one line; base64 and MPI return 0 with one line exactly when the conversion wrote the announced byte count (BN_num_bytes, the MPI sizing call), else -1 and nothing |
| `Filters.SimpleFiltersReport` | filters.cc:45-62 | bits and bytes (and prime, lines 123-130) return 0 and print one line for a number |
| `Filters.PrimeErrorReadsYes` | filters.cc:127-128 | an error result -1 of the primality test is printed as "Yes" |
| `Number.Emplace` | number.cc:40 | emplace adds the name; an existing entry keeps its filter, a new one gets f, other entries are unchanged |
| `Number.EmplaceKeepsExisting` | number.cc:38-42 | adding a name already present leaves the registry unchanged |
| `Number.EmplaceAddsFresh` | number.cc:38-42 | adding a fresh name adds exactly name→f and nothing else |
| `Number.DefaultFilterNames` | number.h:42-49 | a fresh registry holds exactly bits, bytes, prime, ecpoint, hash, ssh-moduli |
| `Number.Number.constructor` | number.h:40-55 | a fresh number has no value and the default registry |
| `Number.Number.AddFilter` | number.cc:38-42 | returns 0, leaves the number alone and emplaces into the registry |
| `Number.Number.RunFilter` | number.cc:45-58 | "" runs every registered filter exactly once and returns 0; an unknown name returns -1 and runs nothing; a known name returns exactly that filter's result |
| `Number.RunAllOutputSplit` | number.cc:47-51 | the output of running all filters is the concatenation of each filter's output, in the order run |
| `Number.RunAllOnNull` | number.cc:47-51 | with a null number the defined filters print nothing |
| `Number.Number.ImportHex` | number.cc:61-67 | -1 with the number untouched when the hex parse reports 0, else 0 with the parsed value stored |
| `Number.Number.ImportDec` | number.cc:70-76 | -1 with the number untouched when the decimal parse reports 0, else 0 with the parsed value stored |
| `Number.Number.ImportB64` | number.cc:79-94 | an empty decoding returns -1 with the number untouched; otherwise the number is overwritten by the MPI or big-endian conversion and -1 is returned exactly when that is null |
| `Number.ImportB64DefaultIsBinary` | number.h:69 | import_b64 without its second argument uses the big-endian conversion |
| `Cli.HandleOption` | main.cc:70-104 | one switch case: a known option ORs its bit in and, for x/d/b/m, replaces n; anything else is the usage() case |
| `Cli.ParseOptions` | main.cc:69-105 | the loop succeeds exactly when every option is known, ending with the OR of their bits and the last input argument |
| `Cli.FlagBitsDisjoint` | main.cc:53-64 | each option has its own nonzero bit, pairwise disjoint; unknown options have none |
| `Cli.FlagBitSingle` | main.cc:53-64 | the bit of each known option is a power of two |
| `Cli.ModeOnlyAccumulates` | main.cc:69-105 | every bit set after a prefix of the options is still set at the end |
| `Cli.ModeBitIff` | main.cc:69-105 | an option's bit is set exactly when the option occurs, wherever it stands |
| `Cli.ModeIgnoresOrder` | main.cc:69-105 | option lists with the same options give the same mode |
| `Cli.LastInputArgIsLast` | main.cc:71-86 | n is the argument of the last of -x/-d/-b/-m, or "" if none was given |
| `Cli.ImportPriority` | main.cc:108-118 | exactly one import is chosen, by presence: hex, else dec, else base64, else MPI, else none |
| `Cli.HexWinsOverLaterDec` | main.cc:71-111 | "-x ff -d 10" imports "10" as hex |
| `Cli.StripHexPrefixOnce` | main.cc:109-110 | one leading "0x" is removed, and only a leading one |
| `Cli.NoInputNoImport` | main.cc:108-118 | without an input option no import runs and the number stays null |
| `Cli.ImportChosen` | main.cc:108-118 | on a fresh number, the chain leaves exactly the value the chosen import yields, the registry unchanged |
| `Cli.EmplaceIf` | main.cc:120-121 | one conditional registration: the name is added exactly when the bit is set, existing entries keep their filter, a fresh name gets f |
| `Cli.WithOutputsKeys` | main.cc:120-129 | for any starting registry, the run of ifs adds exactly one name per output bit set |
| `Cli.RegisterOutputs` | main.cc:120-129 | the run of ifs emplaces hex, dec, base64, mpi, le for the bits that are set |
| `Cli.OutputRegistryKeys` | main.cc:120-129 | main's registry holds the defaults plus one name per output bit set |
| `Cli.OutputRegistration` | main.cc:120-129 | hex, dec, base64, mpi and le are each registered, as their own filter, exactly when their bit is set |
| `Cli.OutputsKeepDefaults` | main.cc:120-129 | a default filter is never replaced |
| `Cli.RegistryWithoutLe` | main.cc:129 | without -L no registered name maps to filter_le |
| `Cli.NoNumberNoReport` | main.cc:108-131 | when no number was imported and -L was not given, main prints no report line |
| `Cli.RunMain` | main.cc:50-133 | an unknown option ends with status 1 and no report; otherwise the import failure is ignored, every registered filter runs once and main returns 0 |

## Left out

- OpenSSL arithmetic: the BIGNUM representation, BN_hex2bn, BN_dec2bn, BN_bin2bn, BN_mpi2bn, BN_bn2hex, BN_bn2dec, BN_bn2bin and BN_bn2mpi. These are foreign code that is not shown, so they are `Lib` fields and any behaviour is allowed.
- BN_is_prime_ex is left out for the same reason. It is probabilistic, and is modelled only by the value it returns.
- EC_GROUP_new_by_curve_name and EC_POINT_bn2point are left out for the same reason. They are modelled as the predicates "group builds" and "decodes as a point".
- b64_encode and b64_decode: base64.h is not part of this model. They are `Lib` fields.
- `printf` is modelled as structured `Report` values. The report text's formatting is not modelled.
- `fopen`, `fgets` and `feof`: the moduli file is a sequence of lines, or `None` when it cannot be opened.
- The 8192-byte `fgets` buffer is not modelled. A line longer than the buffer arrives in several pieces in the source; the model treats it as one line.
- Filters.FilterB64, Filters.FilterMpi: do not model a failed `new (nothrow)` allocation (another -1 path). Memory exhaustion is not an input of the model.
- Number.Number.ImportHex, Number.Number.ImportDec: BN_hex2bn and BN_dec2bn can fail on allocation after zeroing an existing BIGNUM. The model leaves the number untouched on every failure.
- Memory ownership is not modelled: `free_ptr`, the `unique_ptr` deleters, `BN_free` in the destructor, and the earlier BIGNUM leaked on re-import.
- `filter_le` is registered by main.cc but defined in no shown file. Its behaviour is the `Env.le` parameter, and nothing is proved about it.
- `filter_match` is declared in filters.h and defined nowhere, so it is not modelled.
- filters.h holds only declarations.
- `add_filter` accepts any `std::function`. The model registers only the filter functions the source has (`FilterKind`).
- getopt itself is not modelled: argument splitting, missing arguments, and stopping at the first non-option. The model takes the option stream getopt returns. Any option outside "x:d:b:m:XDBML" ends the run with status 1.
- The usage text of `usage()` is not modelled.
- `run_filter` is only ever called with "" from `main`, so the named-filter path is reached only through `Number.Number.RunFilter` itself.
