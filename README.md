# Market data fetcher: a Dafny model

This project models the decision logic of `scripts/fetch-market-data.js`. The
script runs once a day. For each of five configured market indices it fetches
a chart document from the Yahoo Finance chart endpoint and normalises it into
a quote. It then writes a Markdown report with one table row per quote and a
list of errors, and exits with status 1 when any symbol failed.

The model covers:

- **Quote normalisation (`Normalizer`).** The payload is a datatype. Every
  field that may be absent or `null` is an `Option`.
  - JavaScript truthiness is written out: `0`, `""`, `null` and an absent
    field are falsy.
  - `||` fallbacks are written out.
  - The previous close comes from a fallback chain that ends in a backward
    scan over the close series. The scan is a method with the source's
    descending loop and `break`. It is proved equal to a recursive reference
    definition, `LatestNonNull`.
  - A number that may be missing is a `Number` (`Undefined`, `Null`, `NaN` or
    `Num(real)`). This lets the model follow `undefined - x` and
    `null - x` exactly as JavaScript evaluates them.
- **The weekend flag and the sign choice (`PacificDate`, `Formatting`).**
  `formatNumber` is the parameter `fmt: real -> string`, applied to numbers.
  Its other behaviour is modelled: it returns `"NaN"` for `NaN` and throws a
  TypeError on `undefined` or `null`.
- **Report assembly (`MarketReport`).** The document is a sequence of
  `Line`s. Each line keeps its kind and the values interpolated into it.
  `BuildReport` appends line by line, as `main` does with `+=`. It is proved
  equal to the function `Report`, which carries the structural lemmas.
- **The run (`Orchestrator`).**
  - The fetch loop partitions the outcomes into `results` and `errors`.
  - The report is built from the two lists.
  - The exit status is derived from `errors`.
  - Each symbol's network reply is an input (`Response`), and so are the
    formatted date strings and the UTC instant.

Where the code and its design notes disagree, the model follows the code:

- A reply without `regularMarketPrice` is **not** rejected (line 126). The
  price is carried as `Undefined`. With a known previous close, the change
  and percent are then `NaN`.
- A chart result without `meta` raises a TypeError inside the `try`. It
  surfaces as "Parse error for S: Cannot read properties of undefined
  (reading 'regularMarketPrice')", the message in V8's wording. It is not an
  invalid-response error.
- The configuration holds five symbols: the four in the header comment plus
  `^VIX`.

The one place the model departs from the code is the order of "record the
quote" and "format the progress line" in the fetch loop. See Findings.

## Model

| member | source | states |
|---|---|---|
| `PacificDate.PacificDateInfo` | scripts/fetch-market-data.js:91-96 | the date record keeps the three formatted strings and is a weekend exactly when the short weekday code is `Sat` or `Sun` |
| `PacificDate.WeekendIsSaturdayAndSunday` | scripts/fetch-market-data.js:76-95 | of the seven `en-US` short weekday codes, exactly the first (`Sun`) and the last (`Sat`) give a weekend |
| `Normalizer.LatestNonNull` | scripts/fetch-market-data.js:136-141 | returns the greatest index below the bound whose close is not `null`: that entry is non-null and every entry between it and the bound is `null`; returns none only when all entries below the bound are `null` |
| `Normalizer.ScanBackward` | scripts/fetch-market-data.js:134-142 | the descending loop with `break`: a series shorter than two leaves the previous close unchanged; otherwise the result is the latest non-null entry before the last one (even if it is `0`), or the prior value when every visited entry is `null` |
| `Normalizer.ScanIgnoresLastEntry` | scripts/fetch-market-data.js:136 | the scan starts at `length-2`: replacing the last entry of the series never changes what the scan yields |
| `Normalizer.ScanExample` | scripts/fetch-market-data.js:129-141 | with both meta fields falsy, the series `[100, null, null, 98, null]` resolves the previous close to 98 |
| `Normalizer.ResolvePreviousClose` | scripts/fetch-market-data.js:129-143 | fallback order: a truthy `meta.previousClose` wins; otherwise a truthy `meta.chartPreviousClose`; only when both are falsy is the close series of `indicators.quote[0]` scanned. If the scan finds nothing, the falsy `chartPreviousClose` is kept |
| `Normalizer.Normalize` | scripts/fetch-market-data.js:120-166 | a missing or falsy `chart`, `chart.result` or `chart.result[0]` gives "Invalid response for S". A result without `meta` gives the TypeError parse error. Otherwise the call succeeds: symbol and price are copied unchanged; previous close is the resolved value if truthy, else 0. Change and percent are 0 when previous close is 0, else `price - previousClose` and `change / previousClose * 100`. Defaults are `UNKNOWN`, `""` and `USD` for falsy fields |
| `Normalizer.NormalizeQuote` | scripts/fetch-market-data.js:120-166 | the step-by-step normalisation, with its mutable previous close and change variables, computes exactly `Normalize` |
| `Normalizer.FetchOutcome` | scripts/fetch-market-data.js:112-171 | a transport error rejects with its own message; a body that is not JSON rejects with "Parse error for S: <detail>"; a parsed body settles as `Normalize` |
| `Normalizer.FetchQuote` | scripts/fetch-market-data.js:102-173 | the fetch of one symbol computes exactly `FetchOutcome` |
| `Normalizer.InvalidResponseWhateverFollows` | scripts/fetch-market-data.js:120-165 | no chart, no result list, an empty result list, or a `null` first entry all give "Invalid response for S", whatever later entries hold |
| `Normalizer.ChangeReconstructsPrice` | scripts/fetch-market-data.js:146-152 | with a numeric price and a nonzero previous close, change and percent are numbers, `change + previousClose == price` and `changePercent * previousClose == change * 100` |
| `Formatting.FormatError` | scripts/fetch-market-data.js:178-183 | `formatNumber` throws exactly on `undefined` and `null` |
| `Formatting.FormatNumber` | scripts/fetch-market-data.js:178-183 | fails exactly on `undefined` and `null`; formats a number with the digit-grouping function; formats `NaN` as `NaN` |
| `Formatting.ChangeSign` | scripts/fetch-market-data.js:190 | the sign prefix is `+` exactly when `change >= 0` holds in JavaScript, and empty otherwise |
| `Formatting.FormatChange` | scripts/fetch-market-data.js:188-192 | fails exactly when the change or the percent cannot be formatted; otherwise the arrow is up iff `change >= 0`, and both cells carry the same sign, the percent followed by `%` |
| `Formatting.SignFollowsChange` | scripts/fetch-market-data.js:189-190 | for a number the sign is `+` iff it is nonnegative; `NaN` gets no sign and the down glyph; the sign is `+` exactly when the glyph is up |
| `MarketReport.RowOf` | scripts/fetch-market-data.js:238-241 | a row exists exactly when price, change and percent can be formatted; it carries the result's name and market state, the formatted price, the signed change and percent, and the green status exactly when `change >= 0` |
| `MarketReport.Rows` | scripts/fetch-market-data.js:238-242 | the rows exist exactly when every result's row does; then there is one per result with the same index |
| `MarketReport.ErrorItems` | scripts/fetch-market-data.js:246-248 | one bullet per error, with its name, symbol and message, at the error's index |
| `MarketReport.Report` | scripts/fetch-market-data.js:226-253 | the document is produced exactly when every result's row can be formatted; otherwise the throw aborts `main` |
| `MarketReport.BuildReport` | scripts/fetch-market-data.js:226-253 | appending header, optional notice, table head, a row per result, the optional errors section and footer computes exactly `Report`, stopping at the first row that throws |
| `MarketReport.WeekendNoticeOnce` | scripts/fetch-market-data.js:226-236 | a report assembled from header, table rows, errors section and footer holds the weekend notice exactly once on a weekend and not at all otherwise |
| `MarketReport.OneRowPerResult` | scripts/fetch-market-data.js:238-242 | a produced report has exactly one table row per result, in the order of `results`, each the row of that result (name, formatted cells, sign and status as `RowOf` states) |
| `MarketReport.ErrorsHeadingIffErrors` | scripts/fetch-market-data.js:244-245 | in an assembled report the `## Errors` heading appears once when there are errors and not at all otherwise |
| `MarketReport.ReportParts` | scripts/fetch-market-data.js:226-253 | a produced report is the header, then one table row per result, then the errors section, then the footer |
| `MarketReport.TableRowsInOrder` | scripts/fetch-market-data.js:234-242 | the table rows of an assembled report are exactly the rows it was built from, in order: no other line is a table row |
| `MarketReport.ReportSections` | scripts/fetch-market-data.js:230-249 | a produced report carries the weekend notice once iff it is a weekend, the errors heading once iff there are errors, and exactly the error bullets of `errors` |
| `MarketReport.AppendRows` | scripts/fetch-market-data.js:238-242 | the row loop appends exactly the rows of all results, and stops with the throw when any row cannot be formatted |
| `MarketReport.RowsStep` | scripts/fetch-market-data.js:238-242 | one iteration of the row loop: an unformattable row makes the whole table fail; otherwise the rows so far grow by that row |
| `MarketReport.AppendErrorSection` | scripts/fetch-market-data.js:244-249 | the errors loop appends the heading and one bullet per error exactly when there are errors |
| `MarketReport.OneBulletPerError` | scripts/fetch-market-data.js:246-248 | the error bullets of an assembled report are exactly one per error, in order, each with its name, symbol and message |
| `MarketReport.LogLineAgreesWithRow` | scripts/fetch-market-data.js:189-191 | for a result whose row can be formatted, the progress line's `formatChange` succeeds and chooses the same glyph direction, signed change and signed percent as the table row at lines 239-241 |
| `Orchestrator.LogLineFailure` | scripts/fetch-market-data.js:218 | formatting the progress line throws exactly when the price, change or percent is `undefined` or `null` |
| `Orchestrator.Classify` | scripts/fetch-market-data.js:213-222 | (corrected order, see Findings) each symbol yields one entry: a rejected fetch is an error carrying its message, name and symbol; a quote is a result named after the symbol exactly when its progress line formats, and otherwise an error |
| `Orchestrator.Entries` | scripts/fetch-market-data.js:213-223 | (corrected order, see Findings) one entry per configured symbol, at the symbol's index, from that symbol's own reply |
| `Orchestrator.PartitionAppend` | scripts/fetch-market-data.js:213-223 | both lists keep configuration order: the lists of a concatenation of entries are the concatenations of their lists |
| `Orchestrator.PartitionPrefix` | scripts/fetch-market-data.js:213-223 | one iteration of the fetch loop appends the next entry to exactly one of the two lists |
| `Orchestrator.PartitionCounts` | scripts/fetch-market-data.js:213-223 | every entry lands in exactly one list: the lengths of `results` and `errors` add up to the number of entries |
| `Orchestrator.NoFailuresIffAllResolved` | scripts/fetch-market-data.js:270 | the error list is empty exactly when every entry is a result |
| `Orchestrator.ResultsAreFormattable` | scripts/fetch-market-data.js:217-218 | (corrected order, see Findings) every recorded result has a formattable price, change and percent |
| `Orchestrator.ExitCode` | scripts/fetch-market-data.js:270-272 | the exit status is at most 1, and it is 0 exactly when the error list is empty |
| `Orchestrator.FetchAll` | scripts/fetch-market-data.js:209-223 | (corrected order, see Findings) the fetch loop produces exactly the order-preserving `results` and `errors` of the entries, and their lengths add up to the number of configured symbols |
| `Orchestrator.RunMain` | scripts/fetch-market-data.js:197-273 | a run always produces its report from the two lists. The weekend notice appears once iff the weekday code is `Sat` or `Sun`. The exit status is 1 iff some symbol's entry is an error, and 0 iff all are results. The errors heading appears as many times as the exit status, and the bullets are exactly those of the errors |
| `Orchestrator.ClassifyAsWritten` | scripts/fetch-market-data.js:216-221 | as written, a rejected fetch yields just its error; a fetched quote yields first the result `{ name, ...quote }`, and then, exactly when its progress line throws, a second entry: the error with that TypeError |
| `Orchestrator.EntriesAsWritten` | scripts/fetch-market-data.js:213-223 | as written, the loop yields at least one entry per symbol, and exactly one per symbol only when no fetched quote's progress line throws |
| `Orchestrator.AsWrittenRecordsQuote` | scripts/fetch-market-data.js:216-217 | as written, every fetched quote is in `results`, whether or not its progress line then throws |
| `Orchestrator.AsWrittenOutcomeCount` | scripts/fetch-market-data.js:213-223 | as written, `results` and `errors` together hold at least one outcome per symbol, and exactly one per symbol only when no progress line throws |
| `Orchestrator.AsWrittenReportThrows` | scripts/fetch-market-data.js:216-241 | as written, a single fetched quote whose progress line throws makes the report throw on its row, for any configuration and any other replies, so `main` rejects before writing a file |
| `Orchestrator.MissingPriceRecordedTwice` | scripts/fetch-market-data.js:216-221 | as written, one symbol whose reply lacks a price yields one result and one error, and the report then throws on that row; with the progress line formatted first, the same run records one error and renders its report |

## Left out

- The HTTPS request, chunk accumulation and `JSON.parse` (lines 103-118, 167-171) are network I/O and a foreign parser. The model takes their outcome as a `Response`: a transport error with its message, an unparsable body with the parser's message, or a parsed document.
- Parsed documents of other shapes are not modelled, because the `Payload` datatypes fix the shape: a top-level `null` (a TypeError on `json.chart`), `meta: null` (the message would say `null`), and fields of the wrong JSON type (a string price, a non-array close series).
- File-system calls (directory creation, the two report files, the log file) and console output (lines 31-52, 198-207, 215, 218, 221, 255-268) are I/O. The model returns the document instead of writing it. The text of log lines is not modelled. Only whether formatting the line at 218 throws is modelled.
- `Intl.DateTimeFormat` and `new Date().toISOString()` (lines 58-89, 228) read the clock and use library formatting. The formatted strings are inputs.
- The `toLocaleString` digit grouping (lines 179-182) is the parameter `fmt`.
- Floating-point rounding: prices and changes are `real`.
- The `isNaN(previousClose)` test (line 149): a resolved previous close is always a number in the model, so the test is always false.
- The literal text of each report line (heading wording, table pipes, footer) and the emoji and arrow bytes (lines 189, 231, 240) are left out. A `Line` keeps only its kind and its interpolated values. `Trend` stands for the up/down glyph pair.
- The async/Promise structure, `process.exit`, and the top-level `catch` (lines 197, 271, 276-279) are runtime control. Failures after the report is built (writing files) are not modelled. A report that throws is the `None` of `Report`.
- RunMain: uses the corrected fetch loop (see Findings). So it does not reproduce the as-written double entry or the fatal error that follows it.

## Findings

| source | as written | input that shows it | evidently intended | confidence | as-written member | corrected member |
|---|---|---|---|---|---|---|
| scripts/fetch-market-data.js:216-221 | the quote is pushed into `results` (217) before the progress line formats its price (218). `formatNumber(undefined)` throws, and the `catch` then also pushes an error for the same symbol. The report later throws on that result's row (241), so `main` aborts with no report | a reply whose chart result has a `meta` block without `regularMarketPrice` | every configured symbol yields exactly one outcome, and the report is always written | medium; not executed | `Orchestrator.ClassifyAsWritten`, `Orchestrator.EntriesAsWritten`, `Orchestrator.AsWrittenReportThrows`, `Orchestrator.MissingPriceRecordedTwice` | `Orchestrator.Classify`, `Orchestrator.FetchAll` (with `Orchestrator.PartitionCounts`) |
