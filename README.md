# search: a verified model of the core

`search` is a small command-line tool that combines `find` and `grep`. It
walks one or more directory trees and, for each entry, checks these in order:

- its type: file, directory or either;
- its modification time against optional lower and upper bounds;
- its size against an optional minimum.

An entry that passes those checks is tested against the name patterns. If it
matches them, the tool either prints its pathname or, when content patterns
were given, prints every line of the file that satisfies all the content
patterns, as `pathname:line`.

Each pattern is a case-insensitive regular expression. A leading `!` inverts
it. The tool combines patterns in two ways:

- Name patterns are combined with OR: some pattern must agree with the
  pathname.
- Content patterns are combined with AND: every pattern must agree with the
  line.

An empty list accepts everything. Sizes are written as an integer followed by
at most one scale suffix:

- `K`, `M`, `G` and `T` are powers of 1000.
- `Ki`, `Mi`, `Gi` and `Ti` are powers of 1024.

The model has five modules:

- `Wrappers` (wrappers.dfy): `Option` and `Result`, which stand for Go's
  `(value, error)` pairs.
- `Regex` (regex.dfy): the regular-expression library, kept abstract as an
  `Engine`. The engine says which expressions compile and what a compiled
  expression matches.
- `Predicates` (predicates.dfy): patterns, reading a pattern flag, and the
  `Patterns` list. `Patterns` is a class that `Set` appends to in place, with
  the imperative `MatchPathname`, `MatchLine` and `MatchContents` loops.
  These are specified by the functional definitions `NameMatches`,
  `LineQualifies` and `Emission`.
- `Search` (search.dfy): the file-type test, the metadata guards and their
  order, and `Visit`, the decision the directory walk makes for one entry.
- `Size` (size.dfy): `ParseSize`, together with the parts of Go's standard
  library it relies on:
  - `strings.HasSuffix`;
  - `strings.TrimSpace`, with the Unicode white-space set;
  - `strconv.ParseInt`, for decimal numerals and the `int64` range.

Output to standard output is modelled as the sequence of lines a member
returns. A file is modelled as what opening it yields: `None` when the open
fails, and otherwise its lines.

## Model

| member | source | states |
|---|---|---|
| Regex.Compile | main.go:37-40 | stands for `regexp.Compile`: an expression the engine accepts compiles to itself, any other is a syntax error naming it |
| Regex.Match | main.go:65 | stands for `Regexp.Match`: whether the engine finds the compiled expression in the subject |
| Predicates.Agrees | main.go:65 | the polarity rule: an affirmative pattern agrees with a subject it matches, a negative one with a subject it does not match |
| Predicates.PatternOf | main.go:42 | the pattern `Set` appends: the polarity and the case-insensitive expression read from the flag value |
| Predicates.Format | main.go:71 | an emitted line: the pathname, a colon, then the line's text |
| Predicates.NameMatches | main.go:78-89 | the reference rule for name patterns: the empty list accepts every pathname, and otherwise some pattern must agree with it |
| Predicates.LineQualifies | main.go:62-69 | the reference rule for content patterns: every pattern must agree with the line |
| Predicates.Emission | main.go:58-75 | the reference output of a scan: `pathname:line` for each line that qualifies, in file order |
| Predicates.FromFlag | main.go:26-37 | only a `!` in the first position makes a pattern negative, and that one `!` is dropped; the expression is `(?i)` followed by the rest of the value |
| Predicates.FlagRoundTrip | main.go:26-37 | the flag value can be recovered from the polarity and expression it was read into |
| Predicates.FromFlagInjective | main.go:26-37 | two different flag values never give the same polarity and expression |
| Predicates.OnlyFirstBangStripped | main.go:27-34 | `!!x` gives a negative pattern for the expression `(?i)!x`, so only one `!` is consumed |
| Predicates.Patterns.constructor | main.go:113-115 | a pattern list starts empty, like Go's zero-valued slice, and so satisfies the list invariant for every engine |
| Predicates.Patterns.Set | main.go:26-44 | a compile failure is returned and leaves the list unchanged; otherwise the list grows by exactly the new pattern at its end; every stored expression keeps the `(?i)` prefix and compiles |
| Predicates.Patterns.MatchPathname | main.go:78-89 | the result is true iff the list is empty or some pattern agrees with the pathname (OR); the patterns are tried in order and the loop stops at the first one that agrees |
| Predicates.Patterns.MatchLine | main.go:62-69 | the result is true iff every pattern agrees with the line (AND); the loop stops at the first pattern that disagrees |
| Predicates.Patterns.MatchContents | main.go:46-76 | no patterns: true, and the file is not read; open failure: false and nothing printed; otherwise prints exactly `Emission` of all the lines and returns true iff some line qualified, which for a non-empty list is the same as printing something |
| Predicates.EmissionAppend | main.go:58-75 | the whole file is scanned in order with no early exit: the output for two parts of a file is the output for the first part followed by the output for the second |
| Predicates.EmissionMembers | main.go:64-73 | a line is printed iff it is `pathname:line` for some line that all the patterns agree with |
| Predicates.EmissionLength | main.go:70-73 | exactly one output line is printed per qualifying line of the file |
| Predicates.NameMatchesConcat | main.go:83-88 | for non-empty lists, the name test of a concatenation is the OR of the tests of its parts |
| Predicates.LineQualifiesConcat | main.go:62-69 | the line test of a concatenation is the AND of the tests of its parts |
| Predicates.OrderIrrelevant | main.go:62-69 | the order in which the flags were given never changes whether a name or a line is accepted |
| Predicates.NameIsDualOfLine | main.go:65 | for a non-empty list, the name test accepts exactly where the line test with all polarities flipped rejects |
| Predicates.OnlyAlphaLines | main.go:58-75 | content pattern `alpha` on the lines `alpha` and `beta` prints only `./a.txt:alpha` |
| Predicates.AlphaButNotBeta | main.go:58-75 | content patterns `alpha` and `!beta` on the lines `alpha` and `beta` print only `./a.txt:alpha` |
| Predicates.EmitsSingleLine | main.go:70-73 | a one-line file whose line qualifies prints that line |
| Predicates.EmitsFirstLineOnly | main.go:60-74 | a two-line file whose first line qualifies and whose second does not prints only the first line |
| Search.MatchFileType | main.go:91-99 | a directory passes iff `d` is among the type letters or there are no letters; any other entry passes iff `f` is among them or there are none |
| Search.Holds | main.go:182-201 | the four guard comparisons: the type test, modification time at or after the lower bound, at or before the upper bound, and size at least the minimum; an absent bound lets every entry through |
| Search.MetadataPasses | main.go:182-201 | an entry passes the metadata filters when all four guards hold |
| Search.FirstFailingOf | main.go:182-201 | returns no guard iff every guard in the list holds; otherwise returns the earliest guard in list order that fails |
| Search.FirstFailure | main.go:182-201 | the guard that stops an entry, trying type, after, before and size in that order |
| Search.FirstFailureUnfolded | main.go:182-201 | the guards are tried in this order: type, then after, then before, then size |
| Search.FirstFailureNone | main.go:182-201 | no guard stops the entry iff it passes all four |
| Search.UnsetFiltersPass | main.go:182-201 | each unset filter lets every entry through its own guard, and with none set every entry passes all the metadata guards |
| Search.ScanOutput | main.go:51-75 | what a scan prints: nothing when the file cannot be opened, otherwise the emitted lines |
| Search.Visit | main.go:182-210 | the first failing guard rejects the entry and nothing is printed; otherwise a name mismatch prints nothing; a match prints the pathname when there are no content patterns, and otherwise runs the full scan; nothing is ever printed for an entry that fails a guard or the name test |
| Search.KibibyteFloor | main.go:182-201 | with a minimum size of 1024, every smaller entry is rejected by a metadata guard, so `Visit` rejects it and prints nothing; when the type and time guards pass, the guard that rejects it is the size guard |
| Size.TrimLeft | size.go:36 | drops only white space from the front, and what is left does not start with white space |
| Size.TrimRight | size.go:36 | drops only white space from the back, and what is left does not end with white space |
| Size.TrimSpace | size.go:36 | Go's strings.TrimSpace: leading white space removed, then trailing white space |
| Size.TrimSpacePadded | size.go:36 | trimming a word that is surrounded by white space and neither starts nor ends with it gives back exactly that word |
| Size.DecimalRoundTrip | size.go:36 | the decimal form of a natural number is a well-formed numeral, and it reads back as that number |
| Size.DecimalCanonical | size.go:36 | a well-formed numeral is the decimal form of its value |
| Size.DecimalValuePositive | size.go:36 | a numeral that does not start with `0` has a positive value |
| Size.ParseInt | size.go:36-39 | every number it accepts fits in `int64` |
| Size.ParseIntOfParts | size.go:36-39 | an optional sign followed by a well-formed numeral reads as the numeral's value, negated after `-`, or is a range error when that does not fit in `int64` |
| Size.ParseIntSignedDecimal | size.go:36-39 | every `int64` written in decimal reads back as itself |
| Size.ParseIntCanonical | size.go:36-39 | an accepted numeral is the decimal form of its value, a `+` followed by it, or `-0` |
| Size.EndsWith | size.go:10-31 | Go's strings.HasSuffix: the suffix is no longer than the string and equals its last characters |
| Size.SelectScale | size.go:9-34 | at most one suffix is removed; a one-character suffix is a unit letter and a two-character suffix is a unit letter followed by `i`; when neither form ends the value, the scale is 1 |
| Size.SelectScaleFactor | size.go:9-34 | each unit letter multiplies by 1000 or 1024 raised to its rank: K 1, M 2, G 3, T 4 |
| Size.PowersOfUnits | size.go:12-33 | the powers are the literal products written in the code |
| Size.EndsWithLetters | size.go:10-31 | the suffix tests depend only on the last one or two characters |
| Size.NoSuffix | size.go:9-34 | a value ending in a digit or in white space has scale 1 |
| Size.ParseSizeScaled | size.go:8-41 | a decimal `int64` number with white space anywhere around it, followed by one suffix, reads as the number times that suffix's power of 1000 or 1024, when that product fits in `int64` (the overflowing case is `ParseSizeOfParts`) |
| Size.ParseSizeUnscaled | size.go:8-41 | a decimal number with white space around it and no suffix reads as itself, when it fits in `int64` |
| Size.ParseSizeOfParts | size.go:36-40 | once the scale and the number part are known, the size is their product, with the `int64` range checked (corrected) or wrapped (as written) |
| Size.SignedDecimalShape | size.go:36 | a decimal numeral is non-empty, ends with a digit, and neither starts nor ends with white space or a unit letter |
| Size.FortyTwoGibibytes | size_test.go:7-15 | `42Gi` reads as 42·1024³, both in the code as written and in the corrected reading |
| Size.FortyTwoGibibytesScale | size.go:19-21 | `42Gi` selects the `Gi` scale |
| Size.FortyTwoGibibytesNumber | size.go:19-21 | `42Gi` selects the `Gi` scale and its number part is `42` |
| Size.FortyTwo | size.go:36 | `42` reads as 42 |
| Size.OneKibibyte | size.go:31-40 | `1Ki` reads as 1024, both in the code as written and in the corrected reading |
| Size.OneKibibyteScale | size.go:31-33 | `1Ki` selects the `Ki` scale |
| Size.OneKibibyteNumber | size.go:31-33 | `1Ki` selects the `Ki` scale and its number part is `1` |
| Size.Wrap64 | size.go:40 | two's-complement wrap-around: the result is in `int64`, equals the input when the input already fits, and differs from it by a multiple of 2⁶⁴ |
| Size.WrapOnce | size.go:40 | a value just above the `int64` range wraps to itself minus 2⁶⁴ |
| Size.Remainder | size.go:9-36 | the number part of a size: the recognised suffix, if any, removed, then white space trimmed |
| Size.ParseSizeAsWritten | size.go:8-41 | the product exactly as the code computes it, wrapped into `int64`; every result is in range |
| Size.ParseSize | size.go:8-41 | the corrected reading: every result is in range, and a product that does not fit is a range error |
| Size.ParseSizeAgreesWhenInRange | size.go:40 | wherever the corrected reading succeeds, the code as written gives the same size |
| Size.OverflowingSizeWraps | size.go:40 | a terabyte count whose product lies between 2⁶³ and 2⁶⁴ reads, as written, as a negative size; the corrected reading reports a range error |
| Size.TenMillionTerabytesWraps | size.go:40 | `10000000T` reads, as written, as −8446744073709551616; the corrected reading reports a range error |

## Left out

- Command-line flag parsing, `-h`, the help text and `os.Exit` are not modelled. Each occurrence of `-n` or `-c` is one call of `Patterns.Set`. An invalid size is a `Failure` of `ParseSize`.
- `ParseDateTime` (datetime.go) is not part of this model. Times are plain integers compared with the same inclusive bounds the code uses.
- `filepath.Walk` is not modelled: root defaulting to `.`, the traversal order, and the printing of walk errors to standard error. `Search.Visit` models the callback for one entry.
- Diagnostics written to standard error are not modelled. An open failure in `MatchContents` appears only as the `None` file and a `false` result.
- `os.Open` and `bufio.Scanner` are not modelled. A file is its sequence of lines. The scanner's line-length limit, its handling of `\r\n` and a missing final newline are not modelled.
- Go strings are byte sequences, the model's strings are sequences of Unicode characters. For valid UTF-8 the tests used here (the first character `!`, the ASCII suffixes, `strings.TrimSpace`, `strings.Contains`) give the same results; flag values and file lines holding invalid UTF-8 cannot be represented.
- Go's regular-expression syntax and semantics are not modelled. `Regex.Engine` is a parameter, and `(?i)` is only text put in front of the expression.
- Predicates.Patterns.Set: requires a non-empty value. The code indexes `value[0]` and panics on the empty string, and the model does not describe the panic.
- Size.ParseInt: reads only decimal numerals with an optional sign and no leading zero. `strconv.ParseInt` with base 0 also accepts `0x`, `0o` and `0b` prefixes, octal with a leading `0`, and `_` separators; the model rejects all of these as syntax errors. So every size the model accepts agrees with Go, but some sizes Go accepts, such as `0x10K`, the model rejects. The kind of error can differ too: for a digit run that overflows before a bad character, such as `99999999999999999999x`, Go reports a range error where the model reports a syntax error; both are failures, so whether a size is accepted does not change.
- Size.ParseSize: returns only the error. The code returns the pair `(0, err)`, and its zero is not modelled.
- Predicates.Patterns.Valid is an invariant the constructor establishes and `Set` keeps; the matching methods do not need it, so none of them requires it.
- Search.Visit: does not count the calls to the engine. `MatchPathname` and `MatchLine` describe where their loops stop through ghost counters.
- The help text for `-s` says "larger than". The code keeps sizes equal to the bound (`info.Size() < size` rejects), and the model follows the code.
- The time bounds are modelled as inclusive, because `Before` and `After` are strict comparisons. A file modified exactly at a bound therefore passes.

## Findings

| source | as written | input that shows it | evidently intended | confidence | as-written member | corrected member |
|---|---|---|---|---|---|---|
| size.go:40 | `n * scale` is computed in `int64` and wraps around silently | `-s 10000000T` gives the size −8446744073709551616, so every file passes the size guard | a size that does not fit in `int64` is reported as an error, like an out-of-range number | not executed | Size.ParseSizeAsWritten, Size.TenMillionTerabytesWraps | Size.ParseSize |
