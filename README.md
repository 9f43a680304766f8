# Flags and short-option parsing of lack-io/cli, in Dafny

This project models the flag core of the Go command-line library lack-io/cli and proves
properties of the model.

- **`int`, `uint` and `[]uint` flags.** Each takes a default value. Text found in an environment variable or a file can override it. `Apply` registers the flag under its name and aliases in a Go `flag.FlagSet`.
- **Context accessors.** `Context.Int`, `Context.Uint` and `Context.UintSlice` read a flag back. They use the first flag set along a context's lineage that defines the name.
- **`UintSlice`.** This is the accumulating `[]uint` value. Plain numbers are appended. A value carrying the serialisation marker replaces the whole slice with a JSON array.
- **`parseIter`.** This is the retrying parse loop. When the parse reports an undefined flag, it finds the argument that named it. It splits a bundled token such as `-it` into `-i -t` when every letter is a defined flag. Then it takes a fresh flag set and parses again.

## Modules

- **Supporting modules.** `Wrappers`, `Strings`, `Strconv` and `Json` model the parts of Go's standard library the core relies on:
  - `strings.Split`, `TrimSpace`, `TrimPrefix` and `Replace`;
  - `strconv.ParseInt`, `ParseUint` and `FormatInt`/`FormatUint` for base 10 and 64 bits, including which error (syntax or range) is reported;
  - `%q` quoting and `%#v` printing;
  - `encoding/json` on `[]uint`.
- **`GoFlag`.** The flag set is a class whose registry maps names to the storage a flag is bound to.
- **`Contexts`.** A context is given by its lineage of flag sets.
- **`Sources`.** The environment/file text is a parameter `source: Option<string>`.
- **Core modules.** `UintSlices`, `IntFlags`, `UintFlags`, `UintSliceFlags` and `Parse` follow the source files.

Code that updates state is imperative Dafny:
- the `UintSlice` and flag classes;
- `Apply` and its registration loops;
- `splitShortOptions`;
- `parseIter`.

Each method's contract ties it to a specification function. Those functions are `SetResult`, `ResolveInt`/`ResolveUint`, `EnvOutcome`, `SplitTokens` and `Outcome`. Lemmas prove what the program promises about them.

Three behaviours of `parseIter` are easy to misread:
- **`newFlagSet` failure.** `newSet, err := ip.newFlagSet()` (parse.go:76-78) assigns to the `err` already declared in the loop body. So when `newFlagSet` fails, `parseIter` returns the error of `newFlagSet`, not the parse error that triggered the retry (`Parse.NewFlagSetFailure`).
- **Shell completion.** The comment at parse.go:31-32 says shell completion continues parsing on failure. The code (parse.go:36-41) turns a result into success only when short-option handling is off or the parse succeeded. A failing parse with short-option handling on still follows the splitting path and can return an error (`Parse.ForeignErrorReturned`).
- **Flag set replacement.** The flag set is replaced in place (`*set = *newSet`, parse.go:80), not by a new object. It changes only when an argument was split and `newFlagSet` succeeded (`Parse.Retried`, `Parse.FinalFormal`).

## Model

| member | source | states |
|---|---|---|
| Parse.IsSplittable | parse.go:106-108 | a token is splittable exactly when it is longer than two characters, starts with `-` and its second character is not `-` |
| Parse.ShortFlagsExist | parse.go:85-92 | true exactly when every character after the first names a defined flag |
| Parse.SplitShortOptions | parse.go:84-104 | `[arg]` unless `arg` is splittable and every character after the dash is a defined flag; otherwise `len(arg)-1` tokens `-c`, one per character in order |
| Parse.SplitTokensShape | parse.go:94-103 | a split gives at least two tokens, none splittable, whose letters without dashes spell `arg[1:]`; a single token is `arg` itself |
| Parse.SpliceDecreases | parse.go:63-66 | replacing the matched argument by its split tokens lowers the number of splittable arguments by exactly one, so the retry loop terminates |
| Parse.FirstMatch | parse.go:51-56 | the first argument whose one-dash-trimmed form is the offending name, or none, and no earlier argument matches |
| Parse.SplitOffending | parse.go:49-73 | reports a split exactly when some argument matches and it splits; then only that argument is replaced by its tokens, otherwise the arguments are unchanged |
| Parse.Outcome | parse.go:33-82 | the result of the loop, pass by pass; any error is either `newFlagSet`'s error or what a parse against the original or the fresh flag set reported, and success means shell completion or a parse that succeeded |
| Parse.FinalFormal | parse.go:75-80 | the flags the set ends with: the fresh set's when the first pass split an argument and `newFlagSet` succeeded, the original ones otherwise |
| Parse.ParseIterWith | parse.go:33-82 | the loop returns what `Outcome` defines, and the flag set ends holding `FinalFormal` |
| Parse.ParseIter | parse.go:33-82 | `parseIter` with the prefix as written, "flag provided but not default: -"; the flag set is unchanged unless a split was retried with a fresh set, and is then that set |
| Parse.ParseIterCorrected | parse.go:33-82 | `parseIter` with Go's own unknown-flag prefix; the same result for the flag set |
| Parse.PlainParse | parse.go:35-41 | with short-option handling off or a successful parse, the parse result is returned, or success under shell completion; the flag set is not replaced |
| Parse.ForeignErrorReturned | parse.go:43-47 | an error whose text lacks the prefix is returned unchanged, even under shell completion, and the flag set is not replaced |
| Parse.AsWrittenNeverSplits | parse.go:44 | with the prefix as written, Go's "flag provided but not defined: -name" error is returned without any split or new flag set |
| Parse.NoMatchReturned | parse.go:51-73 | a recognised error whose name matches no argument is returned, and the flag set is not replaced |
| Parse.NoSplitReturned | parse.go:57-61 | when the first matching argument does not split, the error is returned and the flag set is not replaced |
| Parse.NewFlagSetFailure | parse.go:75-79 | after a split, a failing `newFlagSet` ends the loop with its own error, and the flag set is not replaced |
| Parse.RetryAfterSplit | parse.go:63-80 | after a split the result is that of parsing again against the fresh flag set, with only the matched argument replaced by its short options and all others in place; the flag set is replaced |
| Parse.CombinedShortOptions | parse.go:43-47 | `-it` over flags `i`, `t`: Go's prefix splits and succeeds, the written prefix fails |
| UintSlices.SetResult | flag_uint_slice.go:36-56 | a marked value never fails and overwrites with the decoded array; otherwise success exactly when the text is a base-10 `uint`, which is appended after the earlier elements; a refused value appends nothing |
| UintSlices.UintSlice.constructor | flag_uint_slice.go:31-34 | a copy of the defaults, not yet set |
| UintSlices.UintSlice.Set | flag_uint_slice.go:36-56 | the slice counts as set afterwards and its contents and error are those of `SetResult` |
| UintSlices.UintSlice.String | flag_uint_slice.go:58-61 | the Go syntax of the slice, starting with `[` |
| UintSlices.UintSlice.Serialize | flag_uint_slice.go:63-67 | the marker followed by a JSON array that decodes back to the slice |
| UintSlices.UintSlice.Value | flag_uint_slice.go:69-72 | the current elements, which are exactly what the serialised form decodes to |
| UintSlices.FirstSetDiscardsDefaults | flag_uint_slice.go:38-41 | the first `Set` starts from an empty slice whatever the defaults |
| UintSlices.SetAppendsNumber | flag_uint_slice.go:50-55 | a number is appended as the new last element, the others unchanged |
| UintSlices.SetRefusesNonNumber | flag_uint_slice.go:50-53 | an unmarked non-number is an error that appends nothing |
| UintSlices.SetSerialized | flag_uint_slice.go:43-48 | setting from the serialisation of `xs` leaves exactly `xs`, whatever was there |
| UintSlices.SerializeRoundTrip | flag_uint_slice.go:63-67 | a fresh slice set from `Serialize()` holds the serialised slice's elements |
| UintSlices.SetEachNumber | flag_uint_slice.go:50-55 | a run that starts with a number continues from the slice with that number appended |
| UintSlices.SetEachNumbers | flag_uint_slice.go:136-140 | setting a run of numbers succeeds and leaves the earlier elements followed by each value's number, in order (`Parsed`) |
| UintSlices.SetEachRefuses | flag_uint_slice.go:136-140 | one unmarked non-number makes the run fail |
| UintSliceFlags.FreshSetEach | flag_uint_slice.go:134-137 | a fresh unset slice and a set empty one give the same run of `Set`s |
| UintSliceFlags.EnvNumbers | flag_uint_slice.go:132-143 | text whose trimmed comma-separated pieces are all numbers yields those numbers in order, without error |
| UintSliceFlags.EnvRefuses | flag_uint_slice.go:136-140 | a piece that is neither marked nor a number makes the step fail |
| UintSliceFlags.EnvOne | flag_uint_slice.go:132-143 | the text "1" yields `[1]` |
| UintSliceFlags.LookupUintSlice | flag_uint_slice.go:165-175 | none exactly when the name is undefined, else the elements of the bound slice |
| UintSliceFlags.ContextUintSlice | flag_uint_slice.go:156-163 | none exactly when no flag set of the lineage defines the name, else the slice in the first one that does |
| UintSliceFlags.UintSliceFlag.Names | flag_uint_slice.go:104-107 | the name, then the aliases |
| UintSliceFlags.UintSliceFlag.TakesValue | flag_uint_slice.go:114-117 | always true |
| UintSliceFlags.UintSliceFlag.ApplySource | flag_uint_slice.go:132-144 | supplied text replaces the value with a fresh slice given every trimmed piece; the first refused piece returns an error naming the text, keeps the partial slice and leaves the flag unset |
| UintSliceFlags.BindFreshEach | flag_uint_slice.go:146-151 | the loop as written: the names are bound in order to distinct new empty slices, earlier definitions stay, and the last slice is returned as the flag's value |
| UintSliceFlags.UintSliceFlag.RegisterFresh | flag_uint_slice.go:146-151 | every name is bound to its own fresh empty slice, no two names share one, and the last name's slice becomes the value; earlier definitions stay |
| UintSliceFlags.UintSliceFlag.RegisterValue | flag_uint_slice.go:146-151 | with the intended guard, every name is bound to the flag's value, created empty only when missing |
| UintSliceFlags.UintSliceFlag.Apply | flag_uint_slice.go:130-154 | as written: on error nothing is registered and the value is the fresh, partly filled slice; otherwise the flag counts as set when text was supplied, every name reads back an empty slice, no two names share a slice, and only the last name is bound to the flag's value |
| UintSliceFlags.UintSliceFlag.ApplyCorrected | flag_uint_slice.go:130-154 | with the intended guard: on error nothing is registered and the value is the partly filled slice; otherwise every name reads back the flag's value, which is what the supplied text gave |
| UintSliceFlags.EnvValueLost | flag_uint_slice.go:146-151 | text "1" on a flag with defaults `[5]`: the flag is set, yet the name reads back `[]` |
| UintSliceFlags.EnvValueKept | flag_uint_slice.go:146-151 | the same under the corrected guard reads back `[1]` |
| IntFlags.ResolveInt | flag_int.go:77-87 | absent or empty text changes nothing; otherwise resolved exactly when the text is a base-10 `int64`, else an error quoting the text and naming the flag |
| IntFlags.ResolveIntFormatted | flag_int.go:79-86 | the numeral `FormatInt(n)` resolves to `n` |
| IntFlags.LookupInt | flag_int.go:110-120 | 0 for an undefined name; an int flag's value; a uint flag's value when it fits an `int64`, else 0; 0 for a slice flag |
| IntFlags.ParseIntOfValue | flag_int.go:113-117 | what `ParseInt` makes of each kind of stored value's text |
| IntFlags.ContextInt | flag_int.go:101-108 | 0 when no flag set of the lineage defines the name, else the lookup in the first one that does |
| IntFlags.DefineInts | flag_int.go:90-96 | every name is defined with the value, bound to the destination or to fresh storage; earlier definitions stay |
| IntFlags.IntFlag.Names | flag_int.go:49-52 | the name, then the aliases |
| IntFlags.IntFlag.TakesValue | flag_int.go:59-62 | always true |
| IntFlags.IntFlag.Apply | flag_int.go:75-99 | a conversion error is returned and changes nothing; otherwise the value and set-flag follow `ResolveInt` and every name reads back the value |
| UintFlags.ResolveUint | flag_uint.go:77-87 | as `ResolveInt` with base-10 `uint64` text; the message calls the value an `int`, as the program does |
| UintFlags.ResolveUintFormatted | flag_uint.go:79-86 | the numeral `FormatUint(n)` resolves to `n` |
| UintFlags.LookupUint | flag_uint.go:110-120 | 0 for an undefined name; a uint flag's value wrapped to `int64`; an int flag's value when not negative, else 0; 0 for a slice flag |
| UintFlags.ParseUintOfValue | flag_uint.go:113-117 | what `ParseUint` makes of each kind of stored value's text |
| UintFlags.ContextUint | flag_uint.go:101-108 | 0 when no flag set of the lineage defines the name, else the lookup in the first one that does |
| UintFlags.DefineUints | flag_uint.go:90-96 | every name is defined with the value, bound to the destination or to fresh storage; earlier definitions stay |
| UintFlags.UintFlag.Names | flag_uint.go:49-52 | the name, then the aliases |
| UintFlags.UintFlag.TakesValue | flag_uint.go:59-62 | always true |
| UintFlags.UintFlag.Apply | flag_uint.go:75-99 | a conversion error is returned and changes nothing; otherwise the value and set-flag follow `ResolveUint` and every name reads back the value as `int(value)` |
| Sources.ConversionMessageMentions | flag_int.go:82 | the conversion error contains the quoted text, the flag name and the cause |
| Sources.PlainTextQuoted | flag_int.go:82 | text without quotes, backslashes or control characters appears verbatim between double quotes in the conversion error |
| Contexts.LookupFlagSet | flag_int.go:103-107 | none exactly when no flag set of the lineage defines the name, else the first one that does |

`IsSet()` is the `hasBeenSet` field, read as the `IsSet` predicate of each flag class (flag_int.go:38-41, flag_uint.go:38-41, flag_uint_slice.go:93-96).

## Left out

- Float64 and duration flags are left out. They repeat the `Apply` skeleton of the integer flags around `strconv.ParseFloat` and `time.ParseDuration`.
- Reading environment variables and files (`flagFromEnvOrFile`) is left out. Its result is the `source` parameter, and its defining file is not part of this model.
- `lookupFlagSet` is not part of this model's sources either. `Contexts.LookupFlagSet` models it from its use: the context's own flag set first, then each ancestor's.
- Go's `flag.FlagSet` is modelled only as its registry of defined flags.
  - Its `Parse` is the `parse` parameter of `parseIter`: a function from the defined names and the arguments to an optional error text.
  - The values that `Parse` sets, usage strings, `Lookup` details and name validation are left out.
  - `FlagStringer`, usage, `GetUsage`, `GetValue`, `IsRequired` and `UintSlice.Get` format help text or return fields. They are left out.
- Parse.ParseIterWith: `newFlagSet` yields the same result on every retry, and the flag set's contents are replaced by the fresh set's registry.
- UintSliceFlags.UintSliceFlag.Apply: requires a value or supplied text. Go panics without either, because registering formats the nil slice.
- IntFlags.IntFlag.Apply, UintFlags.UintFlag.Apply, UintSliceFlags.UintSliceFlag.Apply: require distinct names not yet defined. Go panics on a redefinition.
- UintSliceFlags.LookupUintSlice, UintSliceFlags.ContextUintSlice: require that a defined name is bound to a `*UintSlice`. Go's type assertion at flag_uint_slice.go:168 panics otherwise.
- GoFlag.Value is closed over the three kinds modelled here: int, uint and uint slice storage. `lookupInt` and `lookupUint` on other `flag.Value`s whose text is numeric (a string flag holding "7", say) are not modelled.
- Go's `int` and `uint` are taken as 64 bits wide (`Int64`, `Uint64`), as on 64-bit platforms. 32-bit builds are not modelled.
- `Names()` is the name followed by the aliases. The trimming and filtering of `flagNames` (defined outside the modelled files) is not modelled.
- Characters are modelled as Unicode code points. Go's byte length `len(arg)` in `isSplittable` is counted in code points, so tokens are assumed ASCII.
- Go's distinction between a nil slice and an empty one is left out: `None` stands for nil in lookups, and both print and serialise alike here.
- `append(args[:i], ...)` in `parseIter` can overwrite the caller's backing array. The model works on sequence values and does not capture that aliasing.
- The `slPfx` marker is "sl:::<start time>:::" in the program. The model fixes the time part as `sl:::0:::`.
- Json.Decode accepts only the canonical encoding: `null`, `[]`, or comma-separated numerals without white space or leading zeros. That is everything `Serialize` writes. Other JSON the Go decoder accepts is refused here, and a refused array leaves the slice as `Set` started it. Go's partial-decode effects are not modelled.
- `%q` quoting escapes `"`, `\`, newline, carriage return and tab. Other control and non-printable characters are not escaped as Go does.

## Findings

| source | as written | input that shows it | evidently intended | confidence | as-written member | corrected member |
|---|---|---|---|---|---|---|
| parse.go:44 | the error text is tested for the prefix "flag provided but not default: -" | flags `i` and `t`, arguments `-it`: Go's flag package reports "flag provided but not defined: -it", the prefix does not match, and the error is returned without splitting | the prefix "flag provided but not defined: -", so that `-it` is split into `-i -t` and parses | not executed | Parse.ParseIter | Parse.ParseIterCorrected |
| flag_uint_slice.go:147-149 | each name gets a fresh empty slice when `f.Value != nil` | a flag with defaults `[5]` and environment text "1": it counts as set, but `Context.UintSlice` reads back `[]` | `f.Value == nil`, so every name is bound to the flag's value and reads back `[1]` | not executed | UintSliceFlags.UintSliceFlag.Apply | UintSliceFlags.UintSliceFlag.ApplyCorrected |

- `Parse.AsWrittenNeverSplits` and `Parse.CombinedShortOptions` show the first row. `Parse.CombinedShortOptions` also proves that the corrected prefix succeeds.
- `UintSliceFlags.EnvValueLost` and `UintSliceFlags.EnvValueKept` show the second row.
