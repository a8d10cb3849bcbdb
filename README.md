# Grade calculator, modelled in Dafny

The system is a single-page grade calculator. A teacher keeps a table schema.
The first column is the student identifier and the others are grade columns;
grade columns can be added and any column renamed. The teacher pastes
space-separated data, one student per line, and parses it into records keyed
by the column keys. Given a student identifier, the page shows that student's
rank by average grade as a competition rank, together with the "top X%"
figure. The records can also be downloaded as CSV text.

The model has six modules:

- `Strings` (`strings.dfy`): the JavaScript string operations the page relies
  on.
  - `trim` with JavaScript's whitespace set.
  - `split` on a single character, including the one empty piece that
    splitting the empty text yields.
  - `join`.
  - Decimal numerals.
- `Schema` (`schema.dfy`): columns, the initial schema, and the two edits
  ("Add Column" and renaming). It also defines the schema invariant these
  edits keep: column i has key `col{i+1}`, column 0 is the identifier column,
  and there is at least one grade column.
- `Parser` (`parser.dfy`): "Parse Data". The trimmed text is split into
  lines, and each line into non-blank space-separated tokens. The
  per-column loop writing each token, or the empty text, under its column's
  key is the method `BuildRecord`. Its loop is proved to build exactly
  `RecordOf`, the function that the per-line `map` (`ParseRows`, used by
  `ParseData`) applies to every line, since a Dafny function cannot call a
  method.
- `Ranking` (`ranking.dfy`): "Calculate".
  - The searched record is the first whose identifier field equals the
    search text.
  - A record's average is its sum of grade values divided by the number of
    grade columns.
  - Its rank is one more than the number of records with a strictly greater
    average.
- `Csv` (`csv.dfy`): the text "Download CSV" saves.
- `App` (`app.dfy`): the component's state as the class `GradeCalculator`.
  - Its fields are `columns`, `rawData`, `parsedData`, `searchId` and
    `result`.
  - There is one method per handler. Each replaces the field the
    component's setter replaces and leaves the others as they were.
  - The ghost predicate `Valid` is preserved by every handler.

Two points of modelling:

- Ranking works on integer grade sums instead of averages. The two orders
  coincide, and this is proved: `AverageGreaterIffSumGreater`,
  `CountAboveBySum` and `RankIsFilterCount` show that the rank equals the
  page's count over averages.
- A key missing from a record reads as the empty text, as `undefined` does
  under `|| 0` and under `join`.

## Model

| member | source | states |
|---|---|---|
| Strings.Trim | src/App.tsx:40 | `trim`, defined as dropping leading then trailing whitespace; TrimBounds and TrimEmptyIff state what it keeps |
| Strings.Join | src/App.tsx:79-82 | `join` with a one-character separator, defined piece by piece; JoinSplit and SplitJoin tie it to Split as its inverse |
| Strings.TrimStartSpec | src/App.tsx:40 | `trim` drops a leading run of whitespace only, and what is left does not start with whitespace |
| Strings.TrimEndSpec | src/App.tsx:40 | `trim` drops a trailing run of whitespace only, and what is left does not end with whitespace |
| Strings.TrimBounds | src/App.tsx:40 | the trimmed text is a contiguous part of the input, with only whitespace cut on either side and neither end on whitespace |
| Strings.TrimEmptyIff | src/App.tsx:43 | a piece trims to the empty text exactly when every character of it is whitespace, which is the test of the token filter |
| Strings.TrimNoWhitespace | src/App.tsx:43 | a text with no whitespace trims to itself |
| Strings.Split | src/App.tsx:40 | `split` on one character gives at least one piece, and no piece holds the separator |
| Strings.JoinSplit | src/App.tsx:40 | joining the pieces of a split with the separator gives back the text |
| Strings.SplitCount | src/App.tsx:40 | a split has one more piece than the text has separators |
| Strings.SplitNoSeparator | src/App.tsx:40 | a text without the separator splits into itself alone |
| Strings.SplitAfterPiece | src/App.tsx:83 | splitting `a + sep + b`, where `a` has no separator, gives `a` followed by the pieces of `b` |
| Strings.SplitJoin | src/App.tsx:82 | splitting pieces joined by a separator they do not contain gives back the pieces |
| Strings.SplitPiecesFromText | src/App.tsx:43 | every character of a piece occurs in the split text |
| Strings.NatToString | src/App.tsx:26-27 | the decimal numeral of n is a non-empty digit string, with a leading '0' only for zero |
| Strings.DecimalValueOfNatToString | src/App.tsx:65 | reading a numeral back gives its number |
| Strings.NatToStringInjective | src/App.tsx:26 | different numbers have different numerals, so generated keys differ |
| Schema.ColumnId | src/App.tsx:26 | the key template `col${n}`; NatToStringInjective and WellFormedUniqueIds show distinct counts give distinct keys |
| Schema.GradeName | src/App.tsx:27 | the name template `Grade ${n}` |
| Schema.WellFormed | src/App.tsx:15-37 | the schema invariant: column i keyed `col{i+1}`, column 0 the identifier column, every other column a grade column, at least two columns; kept by every edit (ReachableWellFormed) |
| Schema.GradeColumns | src/App.tsx:27 | the grade-column filter keeps only grade columns, and no more of them than there are columns |
| Schema.GradeColumnsAppend | src/App.tsx:27 | the filter of a concatenation is the concatenation of the filters, so the result keeps the schema's order and repetitions |
| Schema.GradeColumnsOfOne | src/App.tsx:27 | a single column passes the filter exactly when its type is grade |
| Schema.GradeColumnsAround | src/App.tsx:27 | a grade column standing between two stretches of columns appears in the filtered result, between the two filtered stretches |
| Schema.GradeColumnsKeeps | src/App.tsx:64 | every grade column of any schema is kept, with the grade columns before it ahead of it and those after it behind it |
| Schema.InitialColumns | src/App.tsx:15-18 | the initial schema (`col1` "ID" as the identifier column, `col2` "Grade 1" as a grade column) satisfies the invariant |
| Schema.AddColumn | src/App.tsx:24-31 | adding a column gives a schema one longer that keeps the old columns in place and ends with a grade column keyed `col{n+1}` and named `Grade {g+1}`, where n is the column count and g the grade-column count |
| Schema.RenameColumn | src/App.tsx:33-37 | renaming keeps the length, every key and every type, gives the new name to the columns with the matching key, and leaves every other column unchanged |
| Schema.AddColumnGradeCount | src/App.tsx:27-30 | adding a column adds exactly one grade column |
| Schema.RenameGradeCount | src/App.tsx:33-37 | renaming never changes the number of grade columns |
| Schema.GradeColumnsAfterId | src/App.tsx:64 | a schema made of an identifier column followed only by grade columns filters to everything after the identifier column |
| Schema.WellFormedGradeColumns | src/App.tsx:64 | in a well-formed schema the grade columns are all columns but the first, so their count is at least one |
| Schema.WellFormedUniqueIds | src/App.tsx:26 | a well-formed schema has pairwise distinct keys, because distinct column counts give distinct `col{n}` keys |
| Schema.AddColumnWellFormed | src/App.tsx:24-31 | adding a column keeps the invariant, and the new column is named `Grade n` for the old column count n |
| Schema.RenameWellFormed | src/App.tsx:33-37 | renaming keeps the invariant |
| Schema.RenameTwice | src/App.tsx:33-37 | renaming the same key twice gives the result of the second rename |
| Schema.RenameTouchesOne | src/App.tsx:33-37 | in a well-formed schema a rename changes at most one column |
| Schema.ReachableWellFormed | src/App.tsx:24-37 | any sequence of edits keeps the invariant: column 0 stays the identifier column and there is at least one grade column |
| Schema.InitialReachableWellFormed | src/App.tsx:15-37 | every schema reachable from the initial one is well formed and has a grade column |
| Parser.NonBlank | src/App.tsx:43 | the filter keeps only pieces that are not blank after trimming, and no more of them than there are pieces |
| Parser.NonBlankFromParts | src/App.tsx:43 | every piece the filter keeps is one of its input pieces |
| Parser.NonBlankAppend | src/App.tsx:43 | the filter of a concatenation is the concatenation of the filters, so tokens keep their order and repetitions |
| Parser.NonBlankOfOne | src/App.tsx:43 | a single piece passes the filter exactly when it is not blank after trimming |
| Parser.NonBlankKeeps | src/App.tsx:43 | every non-blank piece survives the filter |
| Parser.NonBlankOfBlanks | src/App.tsx:43 | a list of blank pieces filters to nothing |
| Parser.NonBlankOfNonBlanks | src/App.tsx:43 | a list of non-blank pieces filters to itself |
| Parser.Tokens | src/App.tsx:43 | a line's tokens are non-empty and hold no space |
| Parser.TokenCharsFromLine | src/App.tsx:43 | every character of a token occurs in its line |
| Parser.BlankLineTokens | src/App.tsx:43 | a line of whitespace has no tokens |
| Parser.TokensOfWords | src/App.tsx:43 | words without spaces, joined by single spaces, tokenise back to the same words |
| Parser.Field | src/App.tsx:65-68 | a record's value under a key, with a missing key read as the empty text, as `undefined` reads under the grade default to 0 and under `join` (also :81) |
| Parser.Cell | src/App.tsx:46 | the token at a position, or the empty text past the last token (tokens are never empty, so the empty-text default applies only there) |
| Parser.RecordOf | src/App.tsx:44-47 | the record the per-column `forEach` writes, last write winning; RecordKeys and RecordField state its keys and fields, and BuildRecord is proved equal to it |
| Parser.RecordKeys | src/App.tsx:44-47 | a built record's keys are exactly the column keys |
| Parser.RecordField | src/App.tsx:45-46 | a column's key holds the token at its position, or the empty text past the last token, unless a later column has the same key |
| Parser.RecordValues | src/App.tsx:46 | every value in a record is the cell of some column position |
| Parser.EmptyRecord | src/App.tsx:46 | with no tokens every field is the empty text |
| Parser.BuildRecord | src/App.tsx:44-47 | the per-column loop builds the specified record; its keys are the column keys, and with distinct keys field i is token i or the empty text |
| Parser.Lines | src/App.tsx:40 | `rawData.trim().split('\n')`: at least one line, none holding a line break |
| Parser.ParseRows | src/App.tsx:40-49 | parsing gives one record per line of the trimmed text |
| Parser.ParseShape | src/App.tsx:40-49 | every parsed record has exactly the column keys, and field i is the line's i-th token or the empty text |
| Parser.ParseRowCount | src/App.tsx:40 | there is one record more than there are line breaks inside the trimmed text |
| Parser.ParseBlankText | src/App.tsx:40-49 | empty or all-whitespace text gives exactly one record, all of whose fields are empty |
| Parser.ParseBlankLine | src/App.tsx:41-48 | a blank line inside the text is kept as a record with all fields empty |
| Parser.ParsedValueOneLine | src/App.tsx:40-46 | no parsed value holds a line break |
| Ranking.RankResult.Percentage | src/App.tsx:74 | the "top X%" figure, rank / total * 100, lies in (0, 100]; it is 100 for the last rank and 100/total for rank 1 |
| Ranking.GradeValue | src/App.tsx:65 | the grade a field holds: never negative, and zero for empty or blank text (see Left out for the reading of other text) |
| Ranking.GradeSum | src/App.tsx:65 | the `reduce` over the grade columns, left to right; never negative |
| Ranking.Average | src/App.tsx:65 | the sum divided by the number of grade columns; AverageGreaterIffSumGreater shows that it orders records as their sums do |
| Ranking.GradeValueOfNumeral | src/App.tsx:65 | a grade field's number reads the empty text as 0 and a decimal numeral as its number |
| Ranking.CountAbove | src/App.tsx:67-70 | the filter's count of strictly greater averages is at most the number of records |
| Ranking.CountGreater | src/App.tsx:67-70 | the count the rank is built on: how many grade sums lie strictly above a sum, at most the number of records; CountAboveBySum shows it equals the page's count over averages |
| Ranking.FindStudent | src/App.tsx:57 | `find` returns the first record whose identifier field equals the search text, and none exactly when no record has it |
| Ranking.CountBelowLength | src/App.tsx:67-70 | fewer records than there are lie strictly above any one of them |
| Ranking.RankFor | src/App.tsx:56-75 | there is a result exactly when some record carries the searched identifier, and then 1 <= rank <= total == the number of records |
| Ranking.AverageGreaterIffSumGreater | src/App.tsx:65-69 | dividing by the same positive grade-column count keeps the order, so averages compare as sums do |
| Ranking.CountAboveBySum | src/App.tsx:67-70 | counting averages above a record's average counts the same records as counting sums above its sum |
| Ranking.CountIsCardinality | src/App.tsx:67-70 | the recursive count equals the size of the set of positions above |
| Ranking.CountAntitone | src/App.tsx:67-70 | a higher threshold never counts more records |
| Ranking.CountZero | src/App.tsx:67-70 | the count is zero exactly when no record lies above |
| Ranking.CountAppend | src/App.tsx:67-70 | counting over a concatenation adds the counts |
| Ranking.MatchLast | src/App.tsx:67-70 | the last element of a list sits somewhere in any reordering of it, and removing it from both leaves reorderings |
| Ranking.CountPermutation | src/App.tsx:67-70 | the count does not depend on the order of the records |
| Ranking.ScoresAppend | src/App.tsx:68 | the sums of concatenated records are the concatenated sums |
| Ranking.ScoresPermutation | src/App.tsx:68 | reordering the records reorders their sums |
| Ranking.RankIsFilterCount | src/App.tsx:65-70 | the rank is one plus the page's own count of records whose average is strictly greater |
| Ranking.AboveBySum | src/App.tsx:67-70 | the records with a greater average are exactly those with a greater grade sum |
| Ranking.RankCountsGreater | src/App.tsx:67-70 | the rank is one plus the size of the set of records with a strictly greater average |
| Ranking.RankOrder | src/App.tsx:65-70 | a record with an average at least another's never ranks behind it, and equal averages share a rank |
| Ranking.TopBySum | src/App.tsx:67-70 | no sum lies above a record's exactly when no average lies above its average |
| Ranking.RankOneIffTop | src/App.tsx:67-70 | rank 1 exactly when no record has a strictly greater average |
| Ranking.FindPermutation | src/App.tsx:57 | a reordering finds the identifier exactly when the original does, and finds one of the original's records |
| Ranking.KeyPermutation | src/App.tsx:57 | a key every record holds is still held by every record after a reordering |
| Ranking.RankPermutationFound | src/App.tsx:56-70 | two orders of the same records, each finding a record with the same grade sum, give the same result |
| Ranking.RankPermutation | src/App.tsx:56-70 | reordering the pasted lines does not change the result, provided the records with the searched identifier agree on their grades |
| Csv.Header | src/App.tsx:79 | the column names joined by commas |
| Csv.RowLine | src/App.tsx:80-81 | a record's fields in column order, missing ones empty, joined by commas; RowRoundTrip splits it back |
| Csv.CsvText | src/App.tsx:83 | the header, a line break, then the record lines joined by line breaks; CsvLines splits it back into those lines |
| Csv.JoinOneLine | src/App.tsx:79-81 | fields without line breaks, joined by commas, make one line |
| Csv.CsvLines | src/App.tsx:78-83 | split on line breaks, the file is the header followed by one line per record (1 + the record count), or the header and an empty line when there are no records |
| Csv.ParsedOneLine | src/App.tsx:40-46 | parsed records meet the one-line condition, so only column names can break a CSV line |
| Csv.RowRoundTrip | src/App.tsx:43-46 | a comma-free line with one token per column comes back from its CSV line as the same tokens |
| App.AddColumnIds | src/App.tsx:26-30 | adding a column adds exactly its key to the schema's keys |
| App.RenameColumnIds | src/App.tsx:33-37 | renaming keeps the schema's keys |
| App.ParsedRecordsFit | src/App.tsx:40-49 | every parsed record has exactly the schema's keys and no value with a line break |
| App.GradeCalculator.constructor | src/App.tsx:15-22 | the initial state: the two default columns, no text, no records, no search, no result, and the invariant holds |
| App.GradeCalculator.SetRawData | src/App.tsx:19 | typing in the data area replaces only the text |
| App.GradeCalculator.SetSearchId | src/App.tsx:21 | typing in the search box replaces only the search text |
| App.GradeCalculator.AddGradeColumn | src/App.tsx:24-31 | "Add Column" appends the next column, keeps the invariant, adds one grade column named `Grade n`, and changes nothing else |
| App.GradeCalculator.UpdateColumnName | src/App.tsx:33-37 | renaming replaces the schema with the renamed one, keeps the invariant and changes nothing else |
| App.GradeCalculator.ParseData | src/App.tsx:39-51 | "Parse Data" replaces the records with the parse of the current text under the current schema; each record has exactly the schema's keys |
| App.GradeCalculator.CalculateResults | src/App.tsx:53-76 | with an empty search nothing changes; otherwise the result becomes the searched record's rank, or no result when the identifier is absent; a rank lies in 1..the record count |
| App.GradeCalculator.DownloadCsv | src/App.tsx:78-83 | the saved text is the header line, a line break and the record lines; when no column name holds a line break it splits into the header and one line per record |

## Left out

- The rendered page (src/App.tsx:93-221) and its event wiring. Each handler is a method of `GradeCalculator`, and typing in an input is `SetRawData`, `SetSearchId` or `UpdateColumnName`.
- The browser download in src/App.tsx:85-90 (`Blob`, object URL, anchor click). `DownloadCsv` returns the text that would be saved.
- React's `useState` scheduling. Each setter is modelled as an immediate assignment to its field.
- vite.config.ts: build configuration, with no behaviour to model.
- Ranking.RankResult.Percentage: keeps rank / total * 100 exact; the rounding and text formatting of `toFixed(2)` are left out.
- Ranking.GradeValue: models `Number(x || 0)` only for what reaches it here. Trimmed decimal digit strings read as their value; any other text (signs, decimals, exponents, hexadecimal, `Infinity`) reads as 0, although JavaScript would give a number or NaN. Floating-point sums are not modelled.
- Ranking.RankFor: requires every record to hold the identifier column's key. With the key missing, `toString` on `undefined` would throw. `GradeCalculator.Valid` shows that the key is always present in reachable states, so the exception path is never taken.
- Ranking.RankPermutation: proves order independence only when the records carrying the searched identifier agree on their grade sums. With duplicate identifiers, `find` picks the first, so the order can matter.
- Text is `seq<char>` of code points; UTF-16 surrogate pairs are not distinguished.
