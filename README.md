# LibCommandLineArguments in Dafny

A model of libcmdargs, a small C library that splits a program's command line
into *options* and *parameters*, and of the queries it answers on the result.

- `libcmdargs.dfy` (module `LibCmdArgs`): the shapes of `include/libcmdargs.h`.
  `CmdOpt(option, parameter)` is one option, with its raw name (dashes
  included) and the value it consumed, if any. `CmdArgs(options, parameters)`
  is the parse result. NULL is `None` of the `Option` type in `wrappers.dfy`.
- `parser.dfy` (module `Parser`, for `src/parser.c`): the scan. `Parse` is the
  imperative loop over an array of tokens, with the program name already
  removed. Its index moves one extra place when an option consumes its value.
  The options and parameters are two arrays. `Append` grows each one by
  allocating one more slot, copying the old entries and putting the new entry
  last. `Parse` is proved equal to `Split`, a specification in two parts:
  - `Classify` cuts the tokens into entries: an option with or without a
    value, or a parameter;
  - `Unzip` sorts the entries into the two lists.
  `Classify` is pinned down on its own terms:
  - it gives back every token once, in order (`ClassifyFlatten`);
  - it is well formed (`ClassifyWellFormed`);
  - it is the only well-formed entry stream that does both (`ClassifyUnique`).
- `checks.dfy` (module `Checks`, for `src/checks.c`): dash normalisation
  (`Unified`, with the loop `StrUnify`), name and parameter equality, and the
  three-way presence queries `IsOpt` and `IsParam`. Each query method is
  proved equal to a function (`OptPresence`, `ParamPresence`) whose contract
  states the answer outright.
- `getters.dfy` (module `Getters`, for `src/getters.c`): the value getter
  `GetOptParam`, proved equal to `OptParam`. It returns the stored value of
  the first option that matches. This module also holds the lemmas that
  combine a parse with a query.

## Model

| member | source | states |
|---|---|---|
| `Parser.OptionTokenEdgeCases` | src/parser.c:43-46 | only the first character decides: `"-"` alone is an option; `""` and `"x-"` are not |
| `Parser.NextEntry` | src/parser.c:142-145 | one step of the scan uses at least one token and never more than remain |
| `Parser.NextEntrySplits` | src/parser.c:90-95 | the entry made at the front is the leading one or two tokens, unchanged |
| `Parser.ClassifyFlatten` | src/parser.c:166-172 | every input token is used exactly once, in input order: as an option name, as an option value or as a parameter |
| `Parser.ClassifyWellFormed` | src/parser.c:90-102 | option names start with a dash; values and parameters do not; an option is left without a value only when it is last or the next token is an option |
| `Parser.ClassifyUnique` | src/parser.c:166-172 | any well-formed entry stream that gives back the tokens is the scan's own, so the scan is determined by those rules |
| `Parser.UnzipConcat` | src/parser.c:78-88 | entries made earlier come before later ones in both the option list and the parameter list, so each list keeps input order |
| `Parser.SplitCountsTokens` | src/parser.c:166-172 | options, plus options that took a value, plus parameters, equals the number of arguments after the program name |
| `Parser.SplitShaped` | src/parser.c:90-93 | in every parse result, stored option names start with a dash, and stored values and parameters never do |
| `Parser.SplitExamplesOptions` | src/parser.c:153-175 | `-a -b` gives two options without values; `-a x -b` gives `a`→`x` and then `b` without a value |
| `Parser.SplitExamplesParameters` | src/parser.c:153-175 | `foo bar` gives two parameters in order; `-a -b c d` gives `a` without a value, `b`→`c` and the parameter `d` |
| `Parser.Append` | src/parser.c:78-88 | the grown array is newly allocated and holds the old entries unchanged, then the new entry last; it is one entry longer |
| `Parser.ParseOption` | src/parser.c:76-103 | appends the option; it takes the next token as the value and reports true exactly when that token exists and is not an option, and otherwise stores no value |
| `Parser.ParseParam` | src/parser.c:114-129 | appends the token as a parameter and always reports that the next token was not consumed |
| `Parser.ParseArg` | src/parser.c:142-145 | appends the entry the scan makes at this index; reports true exactly when that entry used two tokens |
| `Parser.Parse` | src/parser.c:153-175 | no arguments give no result (NULL), never an empty result; otherwise the result is `Split` of the arguments |
| `Checks.Code` | src/checks.c:66-71 | Error is the only negative code, Present the only positive one, and every code lies between -1 and 1 |
| `Checks.Unified` | src/checks.c:27-42 | normalisation never lengthens a name, and its result never starts with a dash |
| `Checks.StrUnify` | src/checks.c:27-42 | the loop that steps past leading dashes returns the normalised name |
| `Checks.UnifiedDecomposes` | src/checks.c:29-39 | the input is a run of dashes followed by the result, so normalisation removes dashes only and returns a suffix of its input |
| `Checks.UnifiedKeepsUndashed` | src/checks.c:35-38 | a name that does not start with a dash is returned unchanged |
| `Checks.UnifiedIdempotent` | src/checks.c:27-42 | normalising twice gives the same as normalising once |
| `Checks.UnifiedIgnoresDashes` | src/checks.c:29-34 | any number of leading dashes is stripped, not just one or two |
| `Checks.OptsEqualIgnoresDashes` | src/checks.c:50-53 | adding leading dashes to the stored name or to the key never changes whether they match |
| `Checks.OptsEqualIffSameCore` | src/checks.c:50-53 | two names match if and only if their dash-free parts are the same text |
| `Checks.OptsEqualExamples` | src/checks.c:50-53 | `--x` matches `-x`, `x` matches `---x`; `-x` does not match `-y` or `X` |
| `Checks.ParamsEqualIsExact` | src/checks.c:61-64 | parameter equality is exact: `x` differs from `-x`, though the option `x` matches the key `-x` |
| `Checks.AnyOptMatches` | src/checks.c:79-85 | the search succeeds if and only if some stored option matches the key |
| `Checks.AnyParamMatches` | src/checks.c:103-109 | the search succeeds if and only if the key is one of the stored parameters |
| `Checks.OptPresence` | src/checks.c:72-88 | Error if and only if the result or key is missing or the key is empty; Present if and only if the call is valid and some stored option's normalised name equals the key's; otherwise NotPresent |
| `Checks.ParamPresence` | src/checks.c:96-112 | same error cases; Present if and only if the call is valid and some stored parameter equals the key exactly; otherwise NotPresent |
| `Checks.IsOpt` | src/checks.c:72-88 | the early-return loop gives the answer `OptPresence` states |
| `Checks.IsParam` | src/checks.c:96-112 | the early-return loop gives the answer `ParamPresence` states |
| `Getters.FirstValue` | src/getters.c:32-38 | a returned value is the stored value of an option that matches the key |
| `Getters.OptParam` | src/getters.c:25-41 | a missing result, a missing key or an empty key gives NULL; a returned value is the raw stored value of a matching option |
| `Getters.GetOptParam` | src/getters.c:25-41 | the early-return loop returns what `OptParam` states |
| `Getters.FirstMatchWins` | src/getters.c:34-36 | the result is the stored value of the first matching option, even when that value is absent |
| `Getters.NoMatchNoValue` | src/getters.c:40 | when no option matches, the result is NULL |
| `Getters.DuplicateExample` | src/getters.c:32-38 | `-a` without a value hides a later `--a x`; with two values, the first one is returned |
| `Getters.ValueImpliesPresent` | src/getters.c:32-38 | whenever the getter returns a value, `libcmdargs_isopt` on the same result and key answers Present |
| `Getters.ParsedValueIsNotOption` | src/getters.c:36 | a value returned from a parse result never starts with a dash |
| `Getters.ParsedGetterExample` | src/getters.c:25-41 | after parsing `-a x`, the keys `a` and `--a` give `x`, and the empty key gives NULL |
| `Getters.ParsedPresenceExample` | src/checks.c:72-88 | after parsing `--verbose`, the keys `-verbose`, `verbose` and `--verbose` are Present, and the empty key is an Error |

## Left out

- `src/free.c` and `_free` (src/parser.c:30-36) only release memory. Dafny's heap is managed, so this model has nothing to release.
- Byte-level allocation is not modelled. Strings are copied as values. So the model has none of these:
  - the name and value copies at src/parser.c:79 and src/parser.c:92 that leave no room for the terminating zero;
  - the sizing of the result block in `pack_args` (src/parser.c:58), which multiplies the structure size by the number of entries: zero-sized with no entries, exact with one, over-sized with two or more;
  - the unchecked `malloc` results.
- Normalisation in the C code calls `strcpy(string, (++string))` (src/checks.c:33). It reads and increments the same pointer in one argument list, with no order between the two, and the copy overlaps. That is undefined behaviour, and what comes back depends on the order the compiler picks:
  - if the first argument is read first, the string is shifted left *and* the pointer advances, so non-dash characters can be dropped (`-a` gives `""`, `-verbose` gives `erbose`) and the stored name is left changed in memory, so a later query can answer differently;
  - if the increment comes first, the copy is onto itself and memory stays as it was.
  Either way a key that starts with a dash is written to, even when it is a string literal. The model gives the intended result, the dash-free suffix, as a pure function, and captures none of these effects.
- The input is a sequence without the program name, so the `argc`/`argv[0]` offset and the `int`/`size_t` mix are not modelled. With `argc == 0`, the test `argc - 1 == 0` (src/parser.c:155) fails, the loop does not run, and `pack_args(NULL, 0, NULL, 0)` writes the four result fields through a zero-sized `malloc` block (src/parser.c:58-62), which is undefined behaviour. That case cannot be expressed here.
- Tokens are never NULL here. The NULL check inside `is_option` (src/parser.c:45) therefore has no counterpart.
- A list with no entries is an empty sequence, where the C code keeps a NULL pointer and a zero count.
- `Parser.Append` is one shared helper for the copy-then-append that `parse_option` and `parse_param` each write out inline. In C the new entry is written before the old ones are copied. Nothing reads the array in between, so the order makes no difference.
