# safeconversion in Dafny

A model of the two integer-safety operations of the Go package
`safeconversion`, with proofs of what they promise.

- `CastInt[From, To]` (int.go) converts a value between any two of Go's
  fixed-width integer types. It does the raw Go conversion `To(value)`. It
  then rejects the result with an out-of-range error if the sign changed, or
  if converting the result back to `From` does not give the input.
- `SafeParse[T]` (string.go) parses base-10 text into a `T`. It picks a bit
  size from `T` with a type switch. It calls `strconv.ParseInt(value, 10,
  bitSize)`, returns `T(0)` and the delegate's error on failure, and
  otherwise returns `T(n)` for the parsed `n`.

Files and modules:

- `int_types.dfy`, module `IntTypes`: the integer types as descriptors
  (width 8/16/32/64 and signedness), Go's predeclared types and defined
  types (`type X int32`), the error tags, Go's `(T, error)` pair as
  `Returned(value, err)`, and Go's integer conversion as `Wrap`. `Wrap` is
  the unique value of the target type congruent to the input modulo
  2^width. That is what "sign- or zero-extend, then truncate" means in
  "Conversions between numeric types" of the Go Programming Language
  Specification.
- `cast_engine.dfy`, module `CastEngine`: `CastInt` with its two checks, and
  the theorem that it succeeds exactly when the input is representable in
  the target type.
- `strconv.dfy`, module `Strconv`: the delegate `strconv.ParseInt` in base
  10, written after Go's ParseInt and ParseUint. Go's digit loop becomes a
  recursive function. It is proved equal to a specification without the
  loop. A decimal rendering `Format` round-trips through it.
- `decimal_parser.dfy`, module `DecimalParser`: the `numericType`
  constraint, the bit-size switch, `SafeParse`, and its properties.
- `test_cases.dfy`, module `PackageCases`: the concrete cases of the
  package's tests, derived from the model.

Integers are mathematical; a value of a type is an `int` in that type's
range. `int` and `uint` are 64 bits wide, as the package's tests assume.

Three points where the code behaves differently from what a reader might
expect:

- The delegate accepts a leading `+` as well as `-`.
- The 8- and 16-bit cases of the switch cannot be reached, because
  `numericType` admits only `int`, `int32`, `int64`, `uint32` and `uint64`.
- A defined type never matches a case of the switch (see Findings).

## Model

| member | source | states |
|---|---|---|
| `IntTypes.KindType` | int.go:8-10 | the types of the `Integer` constraint: `int`, `uint` and the 64-bit types are 64 bits wide, only the 8-bit types are 8 bits, and exactly the types without the `u` prefix are signed |
| `IntTypes.Wrap` | int.go:15 | the converted value lies in the target type's range and agrees with the input modulo 2^width |
| `IntTypes.WrapOfInRange` | int.go:15 | converting a value the target type can hold leaves it unchanged |
| `IntTypes.WrapUnique` | int.go:15 | every in-range value congruent to the input modulo 2^width is the conversion's result, so `Wrap` is exactly Go's conversion |
| `CastEngine.CastInt` | int.go:12-25 | a failure returns 0 and `OutOfRange`, never the truncated value; a success returns a value of `To` that converts back to the input |
| `CastEngine.ChecksPassIffInRange` | int.go:13-22 | the sign check and the round-trip check both pass if and only if the input lies in the target type's range |
| `CastEngine.CastIntExact` | int.go:12-25 | the cast succeeds if and only if the input is representable in `To`, and then returns the same value |
| `CastEngine.CastRoundTrip` | int.go:20-24 | casting a successful result back to `From` succeeds and gives the original input |
| `CastEngine.NegativeToUnsignedFails` | int.go:13-17 | a negative input cast to any unsigned type fails with 0 and `OutOfRange` |
| `CastEngine.MagnitudeRejected` | int.go:13-22 | an input above the target's maximum or below its minimum fails with 0 and `OutOfRange` |
| `CastEngine.IdentityCast` | int.go:15-24 | casting a type to itself always succeeds with the input |
| `CastEngine.WideningSucceeds` | int.go:13-24 | a cast to a type of the same signedness and at least the width, or from unsigned to a wider signed type, always succeeds with the input |
| `CastEngine.RoundTripCheckNeeded` | int.go:20-21 | `int` 300 and `uint16` 256 pass the sign check when converted to `int8`; only the round-trip check rejects them |
| `CastEngine.SignCheckNeeded` | int.go:16-17 | `uint8` 255 to `int8` and the largest `uint64` to `int64` pass the round-trip check; only the sign check rejects them |
| `CastEngine.SignKept` | int.go:16 | the sign check; specified together with the round-trip check by `ChecksPassIffInRange` |
| `CastEngine.RoundTrips` | int.go:20 | the round-trip check; specified together with the sign check by `ChecksPassIffInRange` |
| `CastEngine.CastTableCases` | int_test.go:12-23 | each case on those lines except 18 and 21 (stated in `RoundTripCheckNeeded`): the cast returns the expected value, or 0 and `OutOfRange` |
| `CastEngine.CastBoundaries` | int_test.go:26-44 | each case on those lines except 28 and 37 (stated in `SignCheckNeeded`): the extremes of each signed type into the unsigned type of its width and back, and the first value past a target's range |
| `Strconv.Accumulate` | string.go:28 | reading digits into an accumulator never decreases it, and the result is at least ten times the accumulator plus the first digit; the exact value is given by `AccumulateSnoc` and `AccumulateIsDecimalValue` |
| `Strconv.ScanDigits` | string.go:28 | the digit loop of the delegate's ParseUint; specified by `ScanDigitsMeetsSpec` and `ScanDigitsResumes` |
| `Strconv.ParseUint` | string.go:28 | the delegate's unsigned parser; specified by `ParseUintMeetsSpec` |
| `Strconv.ParseInt` | string.go:28 | the delegate `strconv.ParseInt(value, 10, bitSize)`; specified by `ParseIntMeetsSpec` and `ParseIntAccepts` |
| `Strconv.DigitRun` | string.go:28 | the longest all-digit prefix of the text |
| `Strconv.AccumulateSnoc` | string.go:28 | appending a digit multiplies the accumulated value by ten and adds the digit |
| `Strconv.AccumulateIsDecimalValue` | string.go:28 | the digit loop's left-to-right accumulation equals the positional value of the digits |
| `Strconv.ScanDigitsMeetsSpec` | string.go:28 | the digit loop returns a range error exactly when the value of the leading digits exceeds the width's unsigned maximum; otherwise a syntax error at the first non-digit, or the value |
| `Strconv.ScanDigitsResumes` | string.go:28 | the digit loop can be split at any point and resumed from the value accumulated so far |
| `Strconv.ParseUintMeetsSpec` | string.go:28 | the unsigned delegate rejects empty text, reports an overflowing digit run as a range error, and otherwise accepts exactly all-digit text with its value |
| `Strconv.ParseIntMeetsSpec` | string.go:28 | on every input the delegate equals `ParseIntSpec`: the value for well-formed text in the signed range, the clamped bound and a range error outside it, 0 and a syntax error for malformed text unless its leading digits overflow |
| `Strconv.ParseIntAccepts` | string.go:28 | the delegate succeeds if and only if the text is an optionally signed run of digits whose value is in the signed range of the bit size, and then returns that value |
| `Strconv.FormatNat` | string.go:28 | the decimal rendering of a natural number is a non-empty run of digits without leading zeros whose value is the number |
| `Strconv.Format` | string.go:28 | the decimal rendering of an integer is well-formed text whose value is the integer |
| `Strconv.FormatThenParse` | string.go:28 | parsing the rendering of any value in the signed range of the bit size gives that value back |
| `DecimalParser.IsNumericType` | string.go:10-12 | the `numericType` constraint: a type whose underlying type is `int`, `int32`, `int64`, `uint32` or `uint64`; used as the precondition of `SafeParse` |
| `DecimalParser.BitSize` | string.go:15-27 | the type switch gives a predeclared type its own width and every defined type 64 |
| `DecimalParser.SafeParse` | string.go:14-34 | on a delegate error, the result is 0 and the delegate's error; `OutOfRange` is never returned; a success is a value of `T` |
| `DecimalParser.NumericBitSizes` | string.go:10-27 | for a type the constraint admits the bit size is 32 or 64, and for a predeclared type it is the type's own width |
| `DecimalParser.SafeParseByWidth` | string.go:14-34 | the corrected parser (see Findings): on an error, 0 and a parse error; a success is a value of `T` |
| `DecimalParser.SafeParseIsByWidthOnPredeclared` | string.go:16-27 | for every predeclared type, `SafeParse` and the corrected parser agree |
| `DecimalParser.SafeParseByWidthExact` | string.go:28-33 | the corrected parser succeeds if and only if the text is well formed and its value is in the signed range of `T`'s width, and then returns that value converted to `T` |
| `DecimalParser.SafeParseExact` | string.go:16-33 | for predeclared types, `SafeParse` succeeds if and only if the text is well formed and its value is in the signed range of `T`'s width (also for unsigned `T`); the result is the value converted to `T` |
| `DecimalParser.SafeParseByWidthSigned` | string.go:14-33 | for every signed `T`, predeclared or defined, the corrected parser succeeds exactly on the texts whose value `T` can hold, and returns that value; otherwise it reports an error |
| `DecimalParser.SafeParseSigned` | string.go:28-33 | for a predeclared signed `T`, `SafeParse` succeeds exactly on the texts whose value `T` can hold, and returns that value |
| `DecimalParser.SafeParseRejectsMalformed` | string.go:28-31 | text that is not an optionally signed run of digits always fails, with 0 |
| `DecimalParser.SafeParseRoundTrip` | string.go:14-33 | for a signed `T`, predeclared or defined, and any value of `T`, parsing its decimal rendering returns the value |
| `DecimalParser.DefinedTypesParseAt64` | string.go:16-26 | for a defined type, `SafeParse` checks the 64-bit signed range whatever the type's width, and wraps the value into the type |
| `PackageCases.Int64Cases` | string_test.go:9-52 | `int64`: both extremes parse, one past either extreme is a range error; `uint64` rejects 2^63 |
| `PackageCases.Int32Cases` | string_test.go:54-97 | `int32`: both extremes parse, one past either extreme is a range error |
| `PackageCases.SmallCases` | string_test.go:15-19 | "123" parses as 123 for `int64` and `int32`, and a leading `+` is accepted; the `int32` case is at string_test.go:60-64, and "+7" is an extra case not in the tests |
| `PackageCases.NegativeIntoUnsigned` | string.go:21-33 | `SafeParse[uint32]("-1")` is 4294967295 and `SafeParse[uint64]("-1")` is the largest `uint64` |
| `PackageCases.MalformedCases` | string.go:28-31 | empty text, a lone sign, a non-digit, a misplaced or doubled sign, and a leading space are syntax errors with 0 |
| `PackageCases.OverflowBeforeBadCharacter` | string.go:28-31 | "2147483648x" is a syntax error for `int32`, while "4294967296x" is a range error |
| `PackageCases.DefinedInt32Wraps` | string.go:16-33 | for `type T int32`, `SafeParse` returns -2147483648 for "2147483648", while the corrected parser returns a range error |

## Left out

- The native `int` and `uint` are fixed at 64 bits. On a 32-bit platform they are 32 bits wide; the package's tests assume 64.
- Go generics are replaced by explicit type descriptors. The runtime switch on `any(T(0))` becomes the static function `DecimalParser.BitSize` over `GoType`.
- The parser takes base 10 and a width of 8, 16, 32 or 64 only. Other bases, `bitSize` 0 and the bit-size error are left out, because `SafeParse` never passes them. An underscore is not a digit, so in base 10 it is a syntax error, as in Go.
- Errors are tags (`OutOfRange`, `ParseSyntax`, `ParseRange`). Error messages, the fields of `strconv.NumError`, `errors.New` identity and `errors.Is` matching are left out.
- int.go:27-53 repeats string.go:8-34 and is modelled once. In int.go and string.go as they stand, the package would not compile: these declarations appear twice, and `ErrValueOutOfRange` (int.go:17, int.go:21) is never declared. The model uses one `OutOfRange` tag for the cast's error.
- `strconv` is not part of this model's source. `Strconv.ParseInt` follows the behaviour of Go's ParseInt and ParseUint. That includes one implementation detail: an overflowing run of leading digits is reported as a range error before a later bad character is seen.
- The fuzz and table-driven test harnesses are left out. Their cases appear as lemmas in `PackageCases`.

## Findings

| source | as written | input that shows it | evidently intended | confidence | as-written member | corrected member |
|---|---|---|---|---|---|---|
| string.go:16-27 | The type switch names only predeclared types. A type declared as `type T int32`, which `~int32` admits, matches no case, so it is parsed at 64 bits. The final `T(n)` then wraps. | `SafeParse[T]("2147483648")` with `type T int32` returns -2147483648 and no error | parse at the width of `T`'s underlying type and report a range error | not executed; follows from Go's rule that a type-switch case matches only an identical dynamic type | `PackageCases.DefinedInt32Wraps` | `DecimalParser.SafeParseByWidthSigned` |

For every predeclared type the corrected parser and `SafeParse` agree
(`DecimalParser.SafeParseIsByWidthOnPredeclared`). The general properties of
`SafeParse` are proved through the corrected parser.
`DecimalParser.DefinedTypesParseAt64` states the as-written behaviour for
every defined type. Both parsers keep one documented limitation: unsigned
targets are checked against the signed bound of their width.
