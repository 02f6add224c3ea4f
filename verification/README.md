# file-size-formatter, input-parsing layer, in Dafny

`file-size-formatter` is a command-line calculator. It takes one argument such
as `"24 mb"` and prints that size in bytes, kilobytes, megabytes and
gigabytes, using powers of 1000. This project models how the program reads its
input and proves properties of that model:

- the process arguments are checked, and the single argument is split on
  whitespace into exactly two tokens, the amount and then the unit (`main`);
- the unit is lowercased and matched against eight tokens. Each token selects
  one of the four variants of `enum FileSize`, and a failed amount parse is
  passed on as `None` (`FileSize::from_str`);
- the `FileSize` is turned into the `Sizes` record (`to_bytes`,
  `Sizes::from_filesize`, `Sizes::from_str`).

Modules, in the order the program uses them:

- `Wrappers`: `Option` and its `Map`, which is Rust's `Option::map`.
- `Float64`: the value of a double (`F64`), Rust's `u64`, the saturating
  `as u64` cast (`ToU64`), and `FloatOps`. `FloatOps` bundles the host float
  operations that the model takes as parameters: `parse::<f64>`, `*`, `/` and
  `u64 as f64`.
- `Text`: `to_lowercase` (`LowerChar`, `Lower`) and `split_whitespace`. The
  split appears twice: as the reference function `Words` and as the scanning
  method `SplitWhitespace`. `Words` undoes `Join`, which writes tokens
  separated by single spaces.
- `FileSizes`: `enum FileSize`, the token table `ParseUnit`, `FromStr` and
  `ToBytes`.
- `SizeTable`: `struct Sizes`, `FromFileSize` and `FromStr`.
- `Cli`: `main` as the function `Run`. `Run` returns `Aborted` (a failed
  `assert_eq!`), `InvalidInput` (the printed error message) or `Table`.

A double is modelled by the value it denotes: `Finite(r)` for a real `r`,
`Infinity(negative)`, or `NaN`. `Finite` accepts any real, not only the ones a
double can hold, so every property proved for `Finite` values also holds for
real doubles. Signed zero is not distinguished; both zeros cast to 0.

In Rust, `as u64` from a double (src/main.rs:24) saturates: negative values
and NaN become 0, and values above the range become `u64::MAX`. `ToU64`
models that behaviour.

## Model

| member | source | states |
|---|---|---|
| Float64.ToU64 | src/main.rs:24 | The `as u64` cast of a double. NaN and negative infinity give 0; positive infinity gives `u64::MAX`; any finite value below 1 gives 0. A non-negative finite value gives the largest `u64` not above it, so fractions are dropped, not rounded, and the result saturates at `u64::MAX`. |
| Float64.ToU64Monotone | src/main.rs:24 | For finite amounts, the cast never decreases as its argument grows. |
| Text.LowerChar | src/main.rs:23 | Lowercasing leaves no ASCII capital. Each capital A-Z becomes its own lowercase letter, and U+212A KELVIN SIGN becomes `k`. Every other character is unchanged. So a lowercase ASCII letter comes back from exactly three sources: itself, its capital, and, for `k` only, the Kelvin sign. |
| Text.Lower | src/main.rs:23 | `unit.to_lowercase()` keeps the length and lowercases each character on its own, by `LowerChar`. |
| Text.LowerIdempotent | src/main.rs:23 | Lowercasing twice gives the same string as lowercasing once. |
| Text.LowerOfLowercase | src/main.rs:23 | A string with no capital letter and no Kelvin sign is unchanged by lowercasing. |
| Text.Words | src/main.rs:85 | Every token the whitespace split yields is non-empty and contains no whitespace. |
| Text.WordsSkipsLeadingWhitespace | src/main.rs:85 | Leading whitespace does not change the split. |
| Text.WordsOfTokenThen | src/main.rs:85 | A token at the front, followed by the end or by whitespace, is the first word of the split. |
| Text.WordsOfJoin | src/main.rs:85 | Splitting tokens joined by single spaces gives back exactly those tokens, in order. |
| Text.WordsKeepAllText | src/main.rs:85 | The split drops only whitespace. Its tokens, written back to back, are exactly the non-whitespace characters of the input, in order. |
| Text.SplitWhitespace | src/main.rs:85 | The left-to-right scan that collects the split returns exactly the reference split `Words`, so every token is non-empty and free of whitespace. |
| Wrappers.Option.Map | src/main.rs:53 | `Option::map` gives `None` exactly when its argument is `None`, and otherwise `Some` of the function applied to the value. |
| FileSizes.ParseUnit | src/main.rs:23-28 | A lowercased unit token names a unit exactly when it is one of the eight accepted tokens. The unit it names is the one whose short or long spelling it is. |
| FileSizes.ParseUnitOfSpelling | src/main.rs:24-27 | Both spellings of each unit are read back as that unit: `b`/`bytes` as bytes, `kb`/`kilobytes` as kilobytes, `mb`/`megabytes` as megabytes, `gb`/`gigabytes` as gigabytes. |
| FileSizes.Tagged | src/main.rs:24-27 | The variant built for a unit belongs to that unit. Kilobytes, megabytes and gigabytes keep the parsed double unchanged. Bytes keep its `as u64` cast. |
| FileSizes.FromStr | src/main.rs:20-30 | `None` whenever the amount fails to parse, whatever the unit. `Some` exactly when the amount parses and the lowercased unit is one of the eight tokens. The variant matches the token's unit. The payload is the parsed amount unchanged, or its `u64` cast for bytes. |
| FileSizes.FromStrAcceptsEverySpelling | src/main.rs:21-27 | Any unit string whose lowercase form is a spelling of unit `u`, together with a parsable amount, yields `u`'s variant of that amount. This holds in any case. |
| FileSizes.FromStrIgnoresCase | src/main.rs:23 | A unit string and its lowercase form always give the same result. |
| FileSizes.FromStrKelvinSign | src/main.rs:23 | A unit written as KELVIN SIGN followed by `B` is read as kilobytes. |
| FileSizes.FromStrMixedCase | src/main.rs:23-26 | `MB` is read as megabytes and `Bytes` as bytes. |
| FileSizes.FromStrRefusesOtherUnits | src/main.rs:28 | `xx`, `KG`, `kbs`, `xyz` and the empty unit are refused, whatever the amount. |
| FileSizes.ToBytes | src/main.rs:11-13 | `to_bytes` returns a byte count unchanged. |
| FileSizes.ToBytesTruncates | src/main.rs:14-16 | Assume the host multiplication by 1000, 10^6 or 10^9 is exact on the amount. Then `to_bytes` of a non-negative kilobyte, megabyte or gigabyte amount is the amount times the unit's factor, truncated to a whole number, provided that number fits in a `u64`. |
| FileSizes.ToBytesOfNegative | src/main.rs:14-16 | Under an exact multiplication, a negative kilobyte, megabyte or gigabyte amount gives 0 bytes. |
| SizeTable.FromFileSize | src/main.rs:42-50 | The record's byte field is `to_bytes` of the size. For a byte count, that is the count itself. |
| SizeTable.FromFileSizeOnlyThroughBytes | src/main.rs:43-48 | Two sizes with the same byte count give the same record. Every other field is derived from the byte count alone, so a fraction of a byte in the input is lost. |
| SizeTable.FromFileSizeOfBytes | src/main.rs:42-50 | Converting a size to its byte count first and building the record from that gives the same record. |
| SizeTable.FromStr | src/main.rs:52-54 | `None` exactly when `FileSize::from_str` is `None`. When `Some`, the record is the one built from the parsed size, so its byte field is `to_bytes` of that size. |
| SizeTable.FromStrInBytes | src/main.rs:52-54 | A parsable amount with a unit that lowercases to `b` or `bytes` gives a record whose byte field is the amount's `u64` cast. |
| Cli.Run | src/main.rs:82-93 | The run aborts exactly when the argument count is wrong or the argument does not split into exactly two tokens. It reports invalid input exactly when the shape is right but the amount or unit is refused. Otherwise it prints the record built from the first token as the amount and the second as the unit. |
| Cli.TwoTokens | src/main.rs:85-86 | An argument written as two tokens separated by one space splits into those two tokens. |
| Cli.RunSeesOnlyTokens | src/main.rs:85-90 | Two arguments with the same tokens give the same outcome, however they are spaced. |
| Cli.RunAbortsOnArgumentCount | src/main.rs:82 | A wrong number of process arguments aborts the run. |
| Cli.RunAbortsOnThreeTokens | src/main.rs:86 | `"24 mb extra"` aborts the run, whatever the parser does. |
| Cli.RunAbortsOnOneToken | src/main.rs:86 | `"24"` aborts the run, whatever the parser does. |
| Cli.RunReportsUnknownUnit | src/main.rs:90-92 | `"5 xyz"` is reported as invalid input, not aborted, whatever the parser does. |
| Cli.RunReportsBadAmount | src/main.rs:90-92 | If `abc` does not parse, `"abc mb"` is reported as invalid input even though the unit is valid. |
| Cli.RunInBytes | src/main.rs:85-91 | A two-token argument whose unit lowercases to `b` or `bytes`, with an amount that parses to a non-negative value inside the `u64` range, gives a table whose byte field is the floor of that value. |
| Cli.RunInLargerUnit | src/main.rs:85-91 | A two-token argument in kilobytes, megabytes or gigabytes, under an exact multiplication, gives a table whose byte field is the floor of the amount times the unit's factor. |
| Cli.RunTwentyFourMegabytes | src/main.rs:85-91 | `"24 mb"` gives 24,000,000 bytes. |
| Cli.RunThousandBytes | src/main.rs:85-91 | `"1000 bytes"` gives 1000 bytes. |
| Cli.RunOneAndAHalfKilobytes | src/main.rs:85-91 | `"1.5 kb"` gives 1500 bytes. |

## Left out

- Parsing a double (`size.parse::<f64>()`, src/main.rs:21): the host's float grammar is not part of this model. It is the parameter `FloatOps.parse`, and only its `None` or `Some` result is used.
- Double multiplication, division and the `u64 as f64` conversion (src/main.rs:14-16, 46-48): these round in IEEE 754 ways that are not modelled. They are the parameters `FloatOps.mul`, `FloatOps.div` and `FloatOps.fromU64`. Statements about exact results take exactness as a precondition at the points used.
- FileSizes.ToBytes: its contract states only the `Bytes` arm. The other three arms go through the host multiplication, and `ToBytesTruncates` and `ToBytesOfNegative` describe them only when that multiplication is exact.
- SizeTable.FromFileSize: its contract does not state the kilobyte, megabyte and gigabyte fields as `bytes / 1000`, `/ 10^6` and `/ 10^9`. Those are host double divisions, stated only through `FromFileSizeOnlyThroughBytes`.
- Table rendering (`all_sizes`, src/main.rs:56-66): fixed-width padding and two-decimal float formatting.
- Process I/O (src/main.rs:80, 83, 91-92): reading `env::args`, echoing the input, and printing the table or the error message. The model returns an `Outcome` instead. The abort from `assert_eq!` (src/main.rs:82, 86) is the `Aborted` outcome.
- Text.LowerChar: models `to_lowercase` exactly for ASCII characters and for U+212A KELVIN SIGN, and leaves every other non-ASCII character unchanged. U+212A is the only non-ASCII character whose lowercase form is ASCII. Every other non-ASCII character lowercases to a string that contains a non-ASCII character; for example U+0130 gives `i` followed by U+0307. None of the eight ASCII tokens contains such a character, so the accept/refuse decision and the chosen variant are the same as Rust's.
- Commented-out code (src/main.rs:67-76, 87, 89).
