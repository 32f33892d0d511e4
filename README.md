# Boolean field converter of simplecsv

This project models the boolean converter of the simplecsv CSV library
(`BooleanConverter.java`). The converter turns a column's optional format
`"T,F"` and a `long` flag word into an immutable configuration. It writes a
Boolean that may be null as the configured true or false token. It reads a raw
token back as a Boolean that may be null. When a token is not recognised, it
either records an `INVALID_FORMAT` error in a `ParseError` owned by the caller,
or falls back to `false`.

Modules:

- `Wrappers` (`wrappers.dfy`): `Option` (a Java reference that may be null) and
  `Result` (a call that may throw).
- `JavaString` (`java_string.dfy`): the `java.lang.String` operations the
  converter calls.
  - `split(",", 2)`, as `SplitOnce`. It is defined through `IndexOf`, a
    first-occurrence search that the converter does not call itself.
  - `equalsIgnoreCase`, as `EqualsIgnoreCase`. It is built from the
    per-character test of `regionMatches`, with ASCII case mapping.
- `Processor` (`processor.dfy`): `ColumnInfo`, which here only holds the
  converter's configuration, and the `ParseError` class with its `errorType`
  and `linePos` fields and their setters.
- `BooleanConverter` (`boolean_converter.dfy`): the flag constants, `ConfigInfo`,
  and `Configure`, `IsNeedsQuotes`, `IsAlwaysTrimInput`, `JavaToString`,
  `IsEquals` and `StringToJava`.

The Java `long` flag word is a `bv64`, so negative flag values are included.
`FlagBit(flags, k)` reads bit `k` by shifting. It is an independent reading of
the masks `1 << 1`, `1 << 2` and `1 << 3` that `configure` tests.

`StringToJava` is a method that `modifies` the `ParseError`. Its contract ties
its result and the new error state to the pure function `Parse`. The lemmas
about reading tokens are stated about `Parse`.

The round trip needs the true and false tokens to differ under the column's
own comparison. `configure` does not check this. `CaseEqualTokensBreakRoundTrip`
shows that the format `"x,X"` is accepted, and that a written `false` then
reads back as `true`.

## Model

| member | source | states |
|---|---|---|
| `JavaString.IndexOf` | src/main/java/com/j256/simplecsv/converter/BooleanConverter.java:85 | the first-occurrence search through which `split` is defined: None iff the character is absent, otherwise an index holding it with no earlier occurrence |
| `JavaString.SplitOnce` | src/main/java/com/j256/simplecsv/converter/BooleanConverter.java:85-86 | `split(",", 2)` gives one part (the whole string) iff there is no comma, otherwise the comma-free text before the first comma and everything after it, which join back to the input |
| `JavaString.SplitOnceOfJoin` | src/main/java/com/j256/simplecsv/converter/BooleanConverter.java:85 | splitting `head + "," + tail` with a comma-free head returns exactly `[head, tail]` |
| `JavaString.ToUpperCase` | src/main/java/com/j256/simplecsv/converter/BooleanConverter.java:150 | ASCII lower-case letters map to their upper-case forms, every other character to itself |
| `JavaString.ToLowerCase` | src/main/java/com/j256/simplecsv/converter/BooleanConverter.java:150 | ASCII upper-case letters map to their lower-case forms, every other character to itself |
| `JavaString.CharEqualsIgnoreCase` | src/main/java/com/j256/simplecsv/converter/BooleanConverter.java:150 | equal characters match, and two characters match iff their lower-case forms are equal |
| `JavaString.RegionMatchesIgnoreCase` | src/main/java/com/j256/simplecsv/converter/BooleanConverter.java:150 | two equal strings of the same length match position by position |
| `JavaString.EqualsIgnoreCase` | src/main/java/com/j256/simplecsv/converter/BooleanConverter.java:150 | a case-insensitive match implies equal lengths, and every string matches itself |
| `JavaString.EqualsIgnoreCaseIsLowerEquality` | src/main/java/com/j256/simplecsv/converter/BooleanConverter.java:150 | `equalsIgnoreCase` holds iff the lengths agree and the lower-case forms agree at every position |
| `JavaString.CharEqualsIgnoreCaseIsLowerEquality` | src/main/java/com/j256/simplecsv/converter/BooleanConverter.java:150 | the per-character case-insensitive test holds iff the lower-case forms are equal |
| `JavaString.EqualsIgnoreCaseReflexive` | src/main/java/com/j256/simplecsv/converter/BooleanConverter.java:150 | every string equals itself up to case |
| `JavaString.EqualsIgnoreCaseSymmetric` | src/main/java/com/j256/simplecsv/converter/BooleanConverter.java:150 | the case-insensitive comparison is symmetric |
| `JavaString.EqualsIgnoreCaseTransitive` | src/main/java/com/j256/simplecsv/converter/BooleanConverter.java:150 | the case-insensitive comparison is transitive |
| `Processor.ParseError.SetErrorType` | src/main/java/com/j256/simplecsv/converter/BooleanConverter.java:138 | sets the error kind and leaves the position unchanged |
| `Processor.ParseError.SetLinePos` | src/main/java/com/j256/simplecsv/converter/BooleanConverter.java:139 | sets the position and leaves the error kind unchanged |
| `BooleanConverter.Configure` | src/main/java/com/j256/simplecsv/converter/BooleanConverter.java:78-102 | a null format always succeeds with "true"/"false"; a given format fails iff it has no comma, an empty true token or an empty false token; on success the format is the true token, a comma and the false token, with a comma-free true token; both tokens are non-empty; the three booleans are bits 1, 2 and 3 of the flags; a failure carries the IllegalArgumentException message |
| `BooleanConverter.ConfigureAccepts` | src/main/java/com/j256/simplecsv/converter/BooleanConverter.java:85-101 | any non-empty comma-free true token with any non-empty false token (commas allowed) is accepted and yields exactly those tokens |
| `BooleanConverter.Flags` | src/main/java/com/j256/simplecsv/converter/BooleanConverter.java:33-45 | a flag word built from the three choices has no bit set outside bits 1, 2 and 3 |
| `BooleanConverter.FlagsRoundTrip` | src/main/java/com/j256/simplecsv/converter/BooleanConverter.java:33-45 | a flag word built from three choices plus unrelated bits decodes to those three choices |
| `BooleanConverter.OtherFlagBitsIgnored` | src/main/java/com/j256/simplecsv/converter/BooleanConverter.java:98-100 | two flag words that agree on bits 1, 2 and 3 give the same configuration |
| `BooleanConverter.IsNeedsQuotes` | src/main/java/com/j256/simplecsv/converter/BooleanConverter.java:104-107 | a column is quoted exactly when its configuration says so |
| `BooleanConverter.NeedsQuotesFollowsFlag` | src/main/java/com/j256/simplecsv/converter/BooleanConverter.java:104-107 | `isNeedsQuotes` of a configured column is bit 3 of its flags |
| `BooleanConverter.IsAlwaysTrimInput` | src/main/java/com/j256/simplecsv/converter/BooleanConverter.java:109-112 | boolean input is never trimmed before parsing |
| `BooleanConverter.JavaToString` | src/main/java/com/j256/simplecsv/converter/BooleanConverter.java:114-125 | null is written as null and only null; true is written as the true token and false as the false token; a well-formed configuration never writes the empty string |
| `BooleanConverter.WrittenTokensRebuildFormat` | src/main/java/com/j256/simplecsv/converter/BooleanConverter.java:12-14 | for a column configured from a format, the token written for true, a comma and the token written for false spell that format again |
| `BooleanConverter.IsEquals` | src/main/java/com/j256/simplecsv/converter/BooleanConverter.java:146-152 | equal strings always match; a match means equal lengths; with CaseSensitive a match is exact equality; otherwise a match is position-wise equality of lower-case forms |
| `BooleanConverter.IsEqualsSymmetric` | src/main/java/com/j256/simplecsv/converter/BooleanConverter.java:146-152 | the token comparison is symmetric in both modes |
| `BooleanConverter.IsEqualsTransitive` | src/main/java/com/j256/simplecsv/converter/BooleanConverter.java:146-152 | the token comparison is transitive in both modes |
| `BooleanConverter.Parse` | src/main/java/com/j256/simplecsv/converter/BooleanConverter.java:127-144 | an error is recorded only in strict mode, for a non-empty token, and then the result is null; the result is null iff the token is empty or an error is recorded; the result is true iff the token is non-empty and matches the true token, so true wins over false; false comes only from a false-token match or from the lenient fallback |
| `BooleanConverter.EmptyTokenIsNull` | src/main/java/com/j256/simplecsv/converter/BooleanConverter.java:131-132 | an empty token reads as null with no error under every configuration |
| `BooleanConverter.FalseTokenReadsFalse` | src/main/java/com/j256/simplecsv/converter/BooleanConverter.java:135-136 | a token matching only the false token reads as false with no error |
| `BooleanConverter.UnmatchedToken` | src/main/java/com/j256/simplecsv/converter/BooleanConverter.java:137-143 | an unmatched non-empty token reads as null with an error in strict mode, and as false with no error otherwise |
| `BooleanConverter.CaseVariantOfTrueReadsTrue` | src/main/java/com/j256/simplecsv/converter/BooleanConverter.java:133-134 | without CaseSensitive, every ASCII case variant of the true token reads as true |
| `BooleanConverter.RoundTrip` | src/main/java/com/j256/simplecsv/converter/BooleanConverter.java:114-144 | for a well-formed configuration whose tokens differ under its comparison, reading what was written for `b` gives `b` with no error |
| `BooleanConverter.DefaultRoundTrip` | src/main/java/com/j256/simplecsv/converter/BooleanConverter.java:81-83 | the default tokens round-trip under every flag word |
| `BooleanConverter.CaseEqualTokensBreakRoundTrip` | src/main/java/com/j256/simplecsv/converter/BooleanConverter.java:85-96 | the format "x,X" is accepted, and a written false ("X") reads back as true |
| `BooleanConverter.DefaultExamples` | src/main/java/com/j256/simplecsv/converter/BooleanConverter.java:34-37 | with the defaults, "TRUE" reads as true and "maybe" reads as false with no error |
| `BooleanConverter.StrictExample` | src/main/java/com/j256/simplecsv/converter/BooleanConverter.java:27-33 | with ParseErrorOnInvalidValue, "maybe" reads as null with an error |
| `BooleanConverter.CaseSensitiveExample` | src/main/java/com/j256/simplecsv/converter/BooleanConverter.java:34-39 | with format "Y,N" and CaseSensitive, "y" matches neither token and falls back to false |
| `BooleanConverter.StringToJava` | src/main/java/com/j256/simplecsv/converter/BooleanConverter.java:127-144 | returns the value `Parse` decides; when `Parse` reports an invalid token, the error kind becomes INVALID_FORMAT and the position becomes `linePos`; otherwise both fields of the ParseError keep their old values |

## Left out

- The singleton instance and `getSingleton`: they create and share the converter object and carry no behaviour.
- The `fieldInfo` parameter of `configure` and the `line` and `lineNumber` parameters of `stringToJava`: the code never reads them.
- Java `null` for the token, the `ColumnInfo` or the `ParseError` passed to `stringToJava`: the model takes all three as always present. The code dereferences the token and the `ColumnInfo` without a check. It touches the `ParseError` only for an unmatched token in strict mode, so Java also accepts a null `ParseError` on every other path; the model does not capture that case.
- Java `null` for the `ColumnInfo` passed to `javaToString`: the model takes it as always present.
- `IsEquals`: case-insensitive comparison follows Java's `regionMatches` test, but with case mapping for ASCII letters only. Java's Unicode case tables are not modelled.
- `ColumnInfo`: only the configuration it holds is modelled. `ColumnInfo.java` is not part of this model.
- `ParseError`: only `errorType` and `linePos` are modelled. `ParseError.java` is not part of this model, so its construction, its other fields and the full list of error kinds are not modelled either.
- `InterfaceTest.java`: a test scaffold with no library logic.
- The CSV tokenizer, the line writer and the row processor: their sources are not part of this model.
