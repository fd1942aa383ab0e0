# Weather table: a Dafny model of the page's data path

The weather page (`js/app.js`) fetches a CSV payload, splits it into lines on
CR LF, drops the lines that are blank after trimming, shows the first line as
the header row, shows every later line as a data row split on commas, and
appends a summary row holding, per column, the mean of the cells that
`parseFloat` reads as a number. A response that is not ok, a transport failure,
or a payload without a single non-blank line takes the promise chain's catch
path.

This project models that path and proves what it computes:

- `wrappers.dfy`: `Option` and `Result`.
- `strings.dfy`: `String.prototype.split` with a non-empty separator and its
  inverse `Join`: joining the pieces of any split gives the text back
  (`JoinSplit`), and splitting a join gives the pieces back when no piece holds
  the separator's first character (`SplitJoin`; for the comma, exactly the
  comma-free pieces). Splitting on one character gives one more piece than
  the text has copies of it (`SplitCharCount`).
- `lines.dfy`: the whitespace set of `String.prototype.trim`, `Trim`, the
  order-preserving filter, and `Lines(data)`, the page's `lines` array.
- `number_parse.dfy`: a partial model of `parseFloat` (leading whitespace,
  sign, then a decimal literal with fraction and exponent), with the literal
  grammar stated on its own (`IsDecimalLiteral`) and the scanner proved to read
  exactly the longest prefix, after the leading whitespace and sign, that the
  grammar accepts.
- `averages.dfy`: the specification functions `ColumnCount`, `ColumnSum` and
  `Mean`, the row loop `AccumulateRows` over the sparse arrays `avgSum` and
  `avgCount` (maps whose missing keys are unset array slots) with its cell loop
  `TallyRow` and the slot update `TallyCell`, and the summary loop `SummaryRow`.
- `weather_table.dfy`: the whole chain, `LoadTable`, from what the fetch
  produced to either a failure or a `Table` of header, rows and summary.
- `scenarios.dfy`: concrete payloads worked through the model.

The numeric test of the row loop is a parameter `parse: string -> Option<real>`
(`None` where `parseFloat` gives NaN); `NumberParse.ParseFloat` is the instance
used by the concrete scenarios.

The model follows the code as written, including where it departs from what a
CSV reader would usually do:

- Only CR LF separates lines. A payload with bare LF line ends is a single
  line, so its header cells swallow the line feeds (`Scenarios.LineFeedPayload`).
- A payload with exactly one non-blank line is not an error: the page shows
  the header, no data rows and a summary row of zero cells.
- The summary row is as wide as the LAST data row (`cellCount` after the row
  loop), not as wide as the header, and a column mean counts every row that
  had a numeric cell at that index, whatever the row lengths.
- Rows are not padded or cut to the header width.

## Model

| member | source | states |
|---|---|---|
| Strings.IndexOf | js/app.js:24 | the result is the leftmost position at or after `from` where the separator occurs, and `None` exactly when it occurs nowhere from there |
| Strings.Split | js/app.js:47 | splitting gives at least one piece and no piece contains the separator |
| Strings.JoinSplit | js/app.js:28 | joining the pieces of a split with the separator gives the original text back |
| Strings.SplitJoin | js/app.js:47 | splitting the join of pieces that hold no copy of the separator's first character gives exactly those pieces back; for the comma, these are exactly the comma-free pieces |
| Strings.SplitCharCount | js/app.js:28 | splitting on a one-character separator gives one more piece than the text has occurrences of it |
| Strings.SplitWithoutSeparator | js/app.js:47 | text without the separator splits into the one-element list of itself |
| Strings.CountCharAppend | js/app.js:28 | occurrence counts add over concatenation |
| LineFilter.Trim | js/app.js:24 | the result is a contiguous piece of the input with only whitespace before and after it, and it neither starts nor ends with whitespace |
| LineFilter.TrimStart | js/app.js:24 | the result is a suffix of the input, does not start with whitespace, and only whitespace was removed |
| LineFilter.TrimEnd | js/app.js:24 | the result is a prefix of the input, does not end with whitespace, and only whitespace was removed |
| LineFilter.TrimEmptyIffBlank | js/app.js:24 | a line trims to the empty string if and only if every character of it is whitespace |
| LineFilter.Filter | js/app.js:24 | every element of the result is an element of the input that passes the test, and the result is no longer than the input |
| LineFilter.FilterAllKept | js/app.js:24 | filtering keeps the list unchanged when every element passes |
| LineFilter.KeptPositionsExactly | js/app.js:24 | the kept positions are in range, strictly increasing, and are exactly the positions whose element passes |
| LineFilter.FilterAtPositions | js/app.js:24 | the filtered list is the elements at the kept positions, in order |
| LineFilter.KeepNonBlankExactly | js/app.js:24 | the surviving lines are exactly the non-blank CR LF pieces of the payload, in their order |
| LineFilter.Lines | js/app.js:24 | every surviving line is non-blank and contains no CR LF |
| LineFilter.BareLineFeedIsOneLine | js/app.js:24 | a payload without CR LF gives no line when blank and the whole payload as one line otherwise |
| NumberParse.ParseFloat | js/app.js:54 | after the leading whitespace and one optional sign, the result is NaN exactly when no prefix of the rest is a decimal literal; otherwise the scanned prefix is a literal, no longer prefix is one, and the value is that prefix's, negated after a minus sign |
| NumberParse.DigitsPrefixValue | js/app.js:54 | a cell that starts with digits followed by a non-literal character reads as the value of those digits |
| NumberParse.NoNumberPrefix | js/app.js:54 | a cell whose first non-whitespace character can start neither a number nor `Infinity` reads as NaN |
| NumberParse.NegatedLiteral | js/app.js:54 | a leading minus sign negates the value of the literal after it |
| NumberParse.LongestLiteralPrefix | js/app.js:54 | the unsigned scan reads something exactly when the text starts with an unsigned decimal literal of the grammar; the prefix it measures is such a literal, no longer prefix is one, and the text after it does not change the reading |
| Averages.ColumnCount | js/app.js:54-62 | a column's count of numeric cells never exceeds the number of rows |
| Averages.ColumnSum | js/app.js:54-61 | the value `avgSum[c]` must hold: the sum of the parsed values of the numeric cells at column `c`; its properties are stated by `ColumnSumWithoutCount`, `ColumnAppend` and `MeanWithinBounds` |
| Averages.Mean | js/app.js:75-76 | a column has a mean exactly when some row has a numeric cell there, and the mean times the count is the sum |
| Averages.ColumnAppend | js/app.js:54-62 | the count and the sum over two batches of rows, one after the other, are the counts and the sums of the two batches added; one appended row is the special case |
| Averages.ColumnCountPositive | js/app.js:75 | a column's count is positive if and only if some row has a numeric cell at that index |
| Averages.ColumnSumWithoutCount | js/app.js:55-56 | a column with no numeric cell has sum zero |
| Averages.MeanWithinBounds | js/app.js:75-76 | when every numeric value of a column lies between two bounds, its mean does too |
| Averages.TallyCell | js/app.js:54-62 | a numeric cell creates the unset slots of its column at zero and then adds its value to the sum and one to the count; a cell that does not parse leaves both slot maps unchanged |
| Averages.TallyRow | js/app.js:51-66 | slots that tally the earlier rows tally those rows and this one after the cell loop, and `cellCount` is the row's length |
| Averages.TalliesStepCell | js/app.js:54-64 | handling one cell keeps the slots equal to the count and sum over the rows so far plus the row prefix, and sets slot `c` only once a numeric cell was seen there |
| Averages.AccumulateRows | js/app.js:45-68 | the rows are the comma splits of the lines after the first; a slot is set exactly when its column has a numeric cell, holding that column's count and sum; `cellCount` is the last row's length or 0 |
| Averages.SummaryRow | js/app.js:72-79 | the summary has `cellCount` cells; a cell is filled exactly when its count slot is set and positive, and then holds sum divided by count |
| WeatherTable.SummaryIsMean | js/app.js:72-79 | the summary cells read from tallied slots are the column means of the rows |
| WeatherTable.BuildTable | js/app.js:28-80 | the header is the split first line and joins back to it; each later line is one row that joins back to it; the summary is as wide as the last row and holds the column means |
| WeatherTable.LoadTable | js/app.js:10-89 | a transport failure, a response that is not ok, and a payload with no non-blank line each give their failure; any other response gives the table built from its surviving lines |
| Scenarios.AverageSkipsNonNumeric | js/app.js:54-76 | with rows A/10, B/20, C/x the second column's mean is 15 and the first column has no mean |
| Scenarios.CrLfPayload | js/app.js:24 | a CR LF payload with a trailing line break gives its three lines |
| Scenarios.LineFeedPayload | js/app.js:24-28 | a bare-LF payload is one line whose comma split crosses the line feeds |
| Scenarios.BlankPayload | js/app.js:24 | a payload of whitespace-only lines gives no line |

## Left out

- The fetch, `response.text()` and promise scheduling are not modelled; their outcome is the `Fetched` input of `LoadTable`.
- DOM construction and console logging are not modelled; the table is returned as sequences of header cells, rows and summary cells.
- Floating point is modelled by exact reals: rounding of sums and quotients and the conversion of a summary quotient to its text are not captured.
- NumberParse.ParseFloat: `Infinity` and `-Infinity` read as `None` here, where JavaScript gives infinite values; so the reset of a slot whose sum became NaN (from adding opposite infinities, the `isNaN(parseFloat(avgSum[c]))` test) is not modelled.
- Strings are sequences of Unicode scalar values, not UTF-16 code units; this matters only for characters outside the Basic Multilingual Plane.
- Strings.Split: splitting with an empty separator is not modelled; the page never does it.
- Averages.AccumulateRows: the numeric test is a parameter; its agreement with `parseFloat` holds only as far as `NumberParse.ParseFloat` models it.
