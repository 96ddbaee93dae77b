# A verified model of LibreDB Studio's algorithmic core

LibreDB Studio is a database workbench: a web front end with a launcher and a few scripts around it.
This project models the parts of it that compute something a user relies on, and proves what they
promise. Everything verifies with `dafny verify dfyconfig.toml`.

| files | what they model |
|---|---|
| `Text`, `Utf8` | the JavaScript string operations the components share; UTF-8 encoding and decoding with replacement (section 3 of RFC 3629) |
| `Literals` | quoting a value or a name for a SQL dialect, and reading it back as the engine does |
| `Csv`, `ImportSql`, `ImportTypes`, `ImportScript`, `Mapping` | the import dialog: CSV reading, statement generation, the column types chosen, the generated script read as one text, and the column mapping the dialog keeps |
| `Grouping`, `Calendar`, `Charts`, `RollUp`, `Histogram` | the charts: group-by, date buckets (section 21.4.1 of ECMA-262), aggregation, histogram bins |
| `Pivot`, `PivotSql`, `PivotText`, `PivotTotals` | the pivot table, the query it generates, and that query's text |
| `Launcher`, `Starting`, `LauncherRun` | the launcher's cache protocol over an abstract file system, exactly when a run starts the server, and the class that performs the steps |
| `Follower`, `Switching`, `Transcripts` | the reader that follows a growing transcript, the reader over several of them, and how it picks one |
| `CreateTable`, `CreateTableText`, `CreateTableEdits` | the create-table form, its edit steps, its DDL, reading that DDL back, and each edit as the DDL shows it |
| `Fixtures`, `FixtureWords` | the two fixture statement splitters, and the texts that open and close a trigger |
| `Readme`, `ReadmeReport`, `Identifier` | the README guard, what it reports, and the identifier given to generated types |

Code that works by changing things step by step is a method or a class here; each method is proved
against a function, and the theorems are about that function. A crash of the launcher is a run cut
off before any of its steps; an interleaving of writer and reader is a sequence of appends and polls.
Numbers are exact, and text is a sequence of characters or code points.

## Where the code does not keep its promise

These are results: each has a lemma with a concrete case, and, where one exists, the exact condition
under which the code does keep it.

- The pivot table counts a NULL value as 0 (`Number(null)`) and a missing label as the text "NULL",
  while the generated query ignores NULLs; the two agree exactly when the unseen values are harmless
  (`PivotSql.QueryAgreesIff`, `PivotSql.NullCountsAsZero`).
- A pivot key that is spelled like the row field, or a row field named like the single column
  ("count_value"), gives two output columns the name the query orders by, and an engine that wants that
  name to mean one column refuses it; that and a COUNT alone without a field is all there is to refuse
  (`PivotSql.AcceptedIff`).
- A file the application exports is not always read back: a cell defused as a formula keeps its
  apostrophe, and a blank row is skipped (`Csv.RoundTripIff`, `Csv.FormulaDoesNotSurvive`).
- A column named `__proto__` has no mapping entry until a step writes one, and until then the generated
  INSERT names it "[object Object]" (`Mapping.EveryHeaderHasAnEntry`, `Mapping.InsertUsesTypedName`).
- The launcher never replaces a cached SHA256SUMS file (bin/studio.js:242). If it lists neither the good
  archive nor the cached one, and the cached payload is not used, no number of runs starts the server
  (`Launcher.RecoversIff`).
- The launcher loses the payload's data directory when it stops between moving it and the final rename
  and then unpacks again: the second unpacking clears the only copy (`Launcher.NextUnpackLosesIff`,
  `Launcher.DataSurvivesIff`). A run in between that uses the cached payload starts without the data
  (`Launcher.CachedRunFindsNoData`).
- The transcript follower drifts: an ill-formed piece of one or two bytes moves its offset too far and
  can lose a line, and CRLF line ends make it handle lines again (`Follower.PassLandsIff`,
  `Follower.FollowsIff`, `Follower.BadByteLosesLine`, `Follower.CrLfRepeats`).
- The follower handles every line once only while it stays: coming back to a transcript starts it over,
  and a line completed in a transcript after the last pass over it is not handled when the reader turns
  away for good (`Switching.OnceEachIff`, `Follower.ReturnRepeats`, `Switching.SwitchLooksAway`).
- The create-table form writes one primary key clause per column checked as a key, so two of them as
  soon as two columns are checked (`CreateTableText.KeyClausesAre`, `CreateTableText.TwoKeysReachable`).
- The two fixture splitters differ exactly on files with a trigger that DuckDB's splitter cuts
  (`Fixtures.SplittersAgreeIff`).
- Whether a date from the year 10000 on is rolled up with its month or year depends on how the runtime
  reads the day key written for it, which is no four-digit calendar date: rolling up is right if and only
  if it is read back into the same bucket (`Charts.DayKeyRollsUpIff`, `RollUp.DayThenCoarserIff`,
  `RollUp.FiveDigitYearBreaksRollUp`).

## Model

| member | source | states |
|---|---|---|
| Literals.UnquoteLiteral | src/lib/sql/values.ts:182-215 | the scanning loop returns the value of the text if it is exactly one literal of the dialect's grammar, and nothing otherwise |
| Literals.QuotedValueIsOneToken | src/lib/sql/values.ts:131-142 | in every dialect the engine reads a quoted value as exactly that value and stops at its end, whatever follows |
| Literals.UnquoteUndoesQuote | src/lib/sql/values.ts:131-215 | unquoting undoes quoting for every value and dialect |
| Literals.StandardLiteralIsUnique | src/lib/sql/values.ts:182-215 | in the standard form a text denotes a value if and only if it is that value quoted |
| Literals.QuotedNameIsOneToken | src/lib/sql/identifier.ts:17-59 | a quoted name is read back whole in every dialect, even with its own closing mark inside |
| Csv.ParseLine | src/components/DataImportModal.tsx:61-86 | the quote-aware loop gives the fields of the line |
| Csv.AnyLine | src/components/DataImportModal.tsx:61-86 | every line, also with quotes unclosed or inside a field, is cut at exactly the delimiters with an even number of quotes before them, and each piece is read without its quotes, doubled ones inside quotes as one, and trimmed |
| Csv.SegmentsJoin | src/components/DataImportModal.tsx:61-86 | the pieces, joined by the delimiter, are the line |
| Csv.LineReadsBack | src/components/DataImportModal.tsx:61-86 | every field of a line written by the quoting rules is read back as its trimmed content, whatever delimiters and quotes it holds |
| Csv.RoundTripIff | src/components/DataImportModal.tsx:56-92 | a table written by either writer (every cell quoted, or the application's own export), with any delimiter and line ending, is read back unchanged if and only if it is empty or every row survives: cells trimmed and without line feeds, none defused as a formula, no blank row |
| Csv.SurvivingRowsRead | src/components/DataImportModal.tsx:56-92 | a file of surviving rows has one line per row and its cells are those rows, in order |
| Csv.RoundTripWithoutHeader | src/components/DataImportModal.tsx:88-91 | read without a header row, the same file gives numbered headers and keeps its first row as data |
| Csv.FormulaDoesNotSurvive | src/lib/export/csv.ts:81-93 | an exported formula cell is not read back as it was |
| Csv.ParsedCellsAreTrimmed | src/components/DataImportModal.tsx:56-92 | for every file, with or without a header row, every header and cell handed on is trimmed and free of line feeds |
| Csv.VisibleIffNotBlank | src/components/DataImportModal.tsx:57 | the reader skips exactly the blank rows of a written table |
| ImportSql.InsertLoop | src/components/DataImportModal.tsx:247-272 | the batch loop appends exactly one INSERT per run of at most 100 rows |
| ImportSql.GenerateImport | src/components/DataImportModal.tsx:205-275 | the refusals, the optional CREATE TABLE and the INSERTs, as specified |
| ImportSql.ImportInsertsEveryRow | src/components/DataImportModal.tsx:205-275 | lexing and evaluating the values of each generated statement inserts every parsed row once and in order, each cell one literal with the meaning its text has |
| ImportScript.ScriptInsertsEveryRow | src/components/DataImportModal.tsx:205-275 | read as one text, up to the unquoted names in front of each statement's values, the script is the CREATE TABLE for a new target and INSERTs of 1 to 100 rows that together insert every parsed row once and in order: no cell ends a statement or starts another |
| ImportSql.ImportDenotesEveryCell | src/components/DataImportModal.tsx:249-267 | each inserted literal denotes its cell (NULL, a boolean, the number written, or the string); within the first 100 rows it is of the column's type, past them it may be the quoted string |
| ImportSql.ImportShape | src/components/DataImportModal.tsx:235-272 | CREATE TABLE comes first exactly when the target is new, and every other statement inserts 1 to 100 rows into that table and the mapped columns |
| ImportSql.SampleFitsItsType | src/components/DataImportModal.tsx:118-136 | the inferred type fits every one of the first 100 rows |
| ImportTypes.DeclaredNarrowest | src/components/DataImportModal.tsx:118-243 | a new table's column is declared INTEGER exactly if its non-empty cells in the first 100 rows are all integers and there is one, NUMERIC if all numbers and not all integers, BOOLEAN if all truth values and not all numbers, TEXT exactly otherwise |
| ImportTypes.InsertedNarrowest | src/components/DataImportModal.tsx:249-267 | each inserted literal, from the file alone: NULL, the number in a column of numbers, the truth value in a column of truth values, and in every other case the text |
| ImportTypes.SampledNarrowest | src/components/DataImportModal.tsx:249-267 | within the first 100 rows every cell that is not NULL is a number in a column of numbers and a truth value in a column of truth values |
| ImportTypes.IntegerIff | src/components/DataImportModal.tsx:118 | an integer is digits with or without a minus sign |
| ImportTypes.NumericIff | src/components/DataImportModal.tsx:119 | a number is an integer, or an integer, a point and digits |
| ImportSql.BatchesCover | src/components/DataImportModal.tsx:245-248 | the batches are the rows in order, none of them empty and none above 100 |
| ImportSql.CellLexes | src/components/DataImportModal.tsx:250-267 | whatever a cell holds, its text is read as one token |
| Mapping.ImportDialog.HandleFileSelect | src/components/DataImportModal.tsx:342-355 | a loaded file replaces text, table and mapping with one entry per header; an empty one changes nothing |
| Mapping.ImportDialog.UpdateCsvPreview | src/components/DataImportModal.tsx:376-388 | re-reading the file under another interpretation adds entries for new headers and keeps the ones held |
| Mapping.ImportDialog.TypeTarget | src/components/DataImportModal.tsx:729-742 | typing a target name changes that header's entry only |
| Mapping.EntryIffWritten | src/components/DataImportModal.tsx:376-388 | after any run, a header has an entry if and only if loading or some step of the run wrote it |
| Mapping.EveryHeaderHasAnEntry | src/components/DataImportModal.tsx:376-388 | after any run every listed header has an entry, except that one named `__proto__` has it if and only if a step wrote it |
| Mapping.LastTypedNameIsHeld | src/components/DataImportModal.tsx:376-388 | the entry held for a header is the name typed last for it, or the header itself |
| Mapping.HeadersAreRead | src/components/DataImportModal.tsx:376-388 | after any run the switches are those chosen last and the listed headers are the file's under them |
| Mapping.InsertUsesTypedName | src/components/DataImportModal.tsx:244 | the generated INSERT names, for each listed header, the non-empty name typed last, else the header; a header `__proto__` that no step wrote becomes the text of an object |
| Mapping.ProtoHeaderHasNoEntry | src/components/DataImportModal.tsx:350-354 | right after loading, a header named `__proto__` has no entry |
| Grouping.GroupEntries | src/components/DataCharts.tsx:396-404 | the loop that fills a Map of arrays gives the keys in order of first appearance and for each key its items in order |
| Grouping.BucketsPartition | src/components/DataCharts.tsx:396-404 | every item is in the bucket of its key and in no other |
| Grouping.CoarserOrder | src/components/DataCharts.tsx:396-404 | grouping again by a coarser key lists the coarse keys in the same order as grouping directly |
| Grouping.RollUp | src/components/DataCharts.tsx:407-431 | folding the group folds of a coarse key gives the fold of all its items, for sum, minimum and maximum |
| Calendar.TomorrowIsNext | src/components/DataCharts.tsx:434-457 | the next calendar date has the next day number, across months, years and leap days |
| Calendar.DateRoundTrip | src/components/DataCharts.tsx:434-457 | every valid date is the date of its day number |
| Calendar.DayRoundTrip | src/components/DataCharts.tsx:434-457 | every day number is that of its date |
| Calendar.KeysAreExact | src/components/DataCharts.tsx:434-457 | two moments get the same key if and only if they are in the same hour, day, week, month or year |
| Calendar.FinerKeyDecidesCoarser | src/components/DataCharts.tsx:434-457 | equal hour keys imply equal day keys, and equal day keys equal week, month and year keys |
| Calendar.WeekStartsOnSunday | src/components/DataCharts.tsx:444-449 | the week key dates a Sunday 0 to 6 days before the date, and a week is exactly seven days |
| Calendar.WeekStartReachesDate | src/components/DataCharts.tsx:444-449 | walking forward day by day from the week's Sunday reaches the date after as many steps as its weekday |
| Calendar.WeekStartIs | src/components/DataCharts.tsx:444-449 | a date's week starts at the one date that is a whole number of weeks, walked along the calendar, from Sunday, 4 January 1970, and from which the date is reached in less than a week |
| Calendar.LabelsReadBack | src/components/DataCharts.tsx:434-457 | every label reads back, digit by digit, as its moment's hour, day, week start, month or year |
| Calendar.MonthsAreEven | src/components/DataCharts.tsx:434-457 | the days before each month follow the closed formula of the calendar |
| Charts.AggregateData | src/components/DataCharts.tsx:388-432 | the grouping and assignment loops give the declarative group-by |
| Charts.AssignMetrics | src/components/DataCharts.tsx:407-430 | the metric loop assigns each metric's aggregate over the group's rows, a later one over an earlier one |
| Charts.IsoDayLabels | src/components/DataCharts.tsx:434-457 | the labels of a bare calendar date are its own digits, at local midnight |
| Charts.DayKeyKeepsBucket | src/components/DataCharts.tsx:434-457 | for years of four digits, bucketing a day key gives the bucket of the date it came from; empty keys and keys that are no dates stay |
| Charts.DayKeyRollsUpIff | src/components/DataCharts.tsx:434-457 | for any text and runtime, bucketing its day key gives its own bucket if and only if the text is empty or no date, or the runtime reads the date's day key back into that bucket |
| Charts.LongYearRollsUpIff | src/components/DataCharts.tsx:434-457 | from the year 10000 on that is up to how the runtime reads text that is no ISO date, and this condition is exact |
| RollUp.DayThenCoarser | src/components/DataCharts.tsx:388-457 | aggregating by day and then by week, month or year equals aggregating directly (same groups, order and values, for sums, minima and maxima) on every table whose day keys the runtime reads back into the same bucket |
| RollUp.DayThenCoarserIff | src/components/DataCharts.tsx:388-457 | it holds for all tables with given key texts if and only if the runtime reads the day key of each of them back into the same bucket |
| RollUp.GroupsConserve | src/components/DataCharts.tsx:388-432 | the group sums add up to the column's sum, and the extremes of the groups are the column's |
| RollUp.CountsAddUp | src/components/DataCharts.tsx:388-432 | the groups partition the rows, and their counts add up to the number of rows |
| RollUp.GroupExtremes | src/components/DataCharts.tsx:388-432 | a group's minimum and maximum belong to the group and bound it |
| RollUp.GroupFigures | src/components/DataCharts.tsx:407-431 | every figure of every group is that of the aggregation listed last for its field: the total, the total divided by the number, the number, the bounding member, or the first value |
| RollUp.FiveDigitYearBreaksRollUp | src/components/DataCharts.tsx:434-457 | for every date from the year 10000 on, some runtimes make day first and then year another group than year directly, and some the same |
| Histogram.ComputeHistogramBins | src/components/DataCharts.tsx:364-385 | the bins tile the range from the least to the greatest value in equal widths, each counts exactly the values it holds, and the counts add up to the number of values |
| Histogram.CountValues | src/components/DataCharts.tsx:379-383 | the counting loop, which increments bins in place, leaves the edges alone and counts each value once |
| Histogram.PlaceInRange | src/components/DataCharts.tsx:380-381 | the computed index is in range and its bin's edges enclose the value |
| Histogram.ExactlyOneBin | src/components/DataCharts.tsx:364-385 | in a tiling every value of the range lies in exactly one bin |
| Pivot.BuildGroups | src/components/PivotTable.tsx:83-97 | the loop over the nested Maps and the Set gives the row keys in order, the values of each cell in row order, and the column keys |
| Pivot.ComputePivot | src/components/PivotTable.tsx:79-116 | the pivot table: sorted labels, one aggregated cell per row and column key |
| Pivot.SortedUnique | src/components/PivotTable.tsx:99-113 | a set of labels has one sorted list only, so any sort by the order gives it |
| PivotSql.GenerateQuery | src/components/PivotTable.tsx:142-172 | the select and group lists that are pushed form the specified query |
| PivotSql.CellAgreesIff | src/components/PivotTable.tsx:35-172 | a cell's value in the table and in the query agree if and only if the rows the engine does not see are harmless for the aggregate |
| PivotSql.AcceptedIff | src/components/PivotTable.tsx:142-172 | with one item per column key, an engine runs the generated query if and only if only COUNT is taken without a field and no column is headed like the row field; its headings are the row field and the column keys (or the aggregate's name and "_value"), and it orders by the row field |
| PivotSql.QueryAgreesIff | src/components/PivotTable.tsx:35-172 | evaluated with SQL NULL semantics, the generated query agrees with the table in its headings and in every cell if and only if: only COUNT is taken without a field, no column key is the placeholder, no column is headed like the row field, no missing row label meets the text "NULL", and the unseen values are harmless |
| PivotSql.NullFreeAgrees | src/components/PivotTable.tsx:35-172 | on data without NULLs the three shape conditions are exactly what is needed, for all five aggregates |
| PivotSql.AnswerIsPivot | src/components/PivotTable.tsx:79-172 | on data without NULLs, something is an engine's answer to the generated query (rows per group in the order of the ORDER BY value, headings read off the aliases) if and only if the engine runs the query and it is the pivot table: the same headings, rows, order and cells |
| PivotSql.NullCountsAsZero | src/components/PivotTable.tsx:36-43 | a row whose value is NULL beside one whose value is not 0 makes table and query disagree on an average |
| PivotText.QueryReadsBack | src/components/PivotTable.tsx:142-172 | whatever the field names, keys and aliases hold, the query's text reads back as that query in every dialect |
| PivotText.HeadingNamesAggregate | src/components/PivotTable.tsx:167-170 | without a column field the single column is headed by the aggregate's keyword in small letters and "_value" |
| PivotTotals.PivotConserves | src/components/PivotTable.tsx:35-116 | over all cells, for any column field, the counts add up to the number of rows and the unrounded sums to the field's total |
| PivotTotals.PivotIsChart | src/components/DataCharts.tsx:388-432 | without a column field, on plain rows, the pivot has the chart's groups and numbers, for every aggregate |
| Launcher.CrashSafety | bin/studio.js:129-262 | after any sequence of runs, retries, crashes and server writes, the release payload holds only the complete content of an archive whose digest is its checksum entry, and no final download name holds a truncated body |
| Launcher.RunSafe | bin/studio.js:374-404 | that holds before and after each single step of every run |
| Launcher.StartedIsVerified | bin/studio.js:374-409 | a server started from the release directory runs complete, verified content |
| Launcher.FailedRunKeepsPayload | bin/studio.js:184-262 | a run that fails in downloading, checking or unpacking leaves the old payload in place at every step |
| Starting.ReleaseStartsIff | bin/studio.js:184-262 | for every disk, a release run starts the server if and only if the cached payload is used, or the archive it holds or receives within three attempts has the digest its checksums list, its provenance is accepted, it unpacks and it has a server; the payload started is then that archive, complete |
| Starting.LocalStartsIff | bin/studio.js:374-409 | for every disk, a run of a local archive starts the server if and only if the archive is there, its digest is the pinned one if one is pinned, it unpacks and it has a server; the payload started is then that archive, complete |
| Starting.RefusedChangesNothing | bin/studio.js:377-393 | a missing local archive, or one whose pinned digest is another, changes nothing at any step and never starts |
| Starting.RejectedNeverStarts | bin/studio.js:260-262 | with rejected provenance a release run that does not use the cached payload never starts, and leaves the payload alone at every step |
| Starting.FailedLocalKeepsPayload | bin/studio.js:215-226 | a run of a local archive that fails leaves the local payload in place at every step |
| Starting.RunLeavesNoPartial | bin/studio.js:156-171 | a run that ends on its own, also one that fails, leaves no partial download |
| Launcher.LocalLeavesRelease | bin/studio.js:377-393 | a run of a local archive changes none of the release's files, at no step |
| Launcher.DataSurvivesIff | bin/lib/launcher-utils.mjs:316-322 | an unpacking run that stops early still has the payload's data in the payload if and only if it stopped before moving it or after the last rename |
| Launcher.NextUnpackLosesIff | bin/studio.js:215-226 | over two unpackings, the first cut off anywhere and the second complete: the data is still there if and only if the first stopped before moving it or after its last rename, or the archive ships the same; a server that ran in between and wrote its own data keeps that, unless there was no payload to start from |
| Launcher.CachedRunFindsNoData | bin/studio.js:395-409 | a release run in that window uses the cached payload, changes nothing, and starts the server without the data |
| Launcher.RecoversIff | bin/studio.js:234-262 | under favourable circumstances, whatever the cache went through, some later run starts the server if and only if the cached payload is used, or there is no cached checksum file or one that lists the good digest, or it lists the cached archive itself and that holds a server; and then the second run at the latest does |
| Launcher.RecoversInTwoRuns | bin/studio.js:234-262 | so with no checksum file, or one that lists the good digest, the second run at the latest starts the server |
| LauncherRun.Cache.DownloadOnce | bin/studio.js:129-174 | one attempt performs the steps of its plan and succeeds exactly when the whole body was served |
| LauncherRun.Cache.Download | bin/studio.js:184-200 | the retry loop performs the steps of up to three attempts and stops at a success or a definitive refusal |
| LauncherRun.Cache.PreservePayloadData | bin/lib/launcher-utils.mjs:316-322 | the old data directory replaces the unpacked one exactly when there is one |
| LauncherRun.Cache.Extract | bin/studio.js:215-226 | unpacking goes to the staging directory, and only a complete one is swapped in |
| LauncherRun.Cache.PreparePayload | bin/studio.js:234-262 | downloads what is missing, checks the digest and the provenance, and unpacks, step by step as planned |
| LauncherRun.Cache.Run | bin/studio.js:374-409 | a run starts the server exactly when its plan says so, and the disk is what the plan's steps make of it |
| Utf8.DecodeUndoesEncode | loop/scripts/trace.py:197-201 | decoding the UTF-8 encoding of any text of scalar values gives the text, without replacement |
| Utf8.WellFormedIffEncoded | loop/scripts/trace.py:197-201 | bytes decode without replacement if and only if they are the encoding of some text |
| Utf8.DecodeSplit | loop/scripts/trace.py:197-201 | bytes before and after an ASCII byte are decoded on their own, whether well-formed or not |
| Utf8.FirstIsLongest | loop/scripts/trace.py:196-201 | in terms of the encoding alone: the decoder finds a character exactly where its encoding stands, and elsewhere replaces the longest piece that begins the encoding of some character, one byte at least |
| Follower.LinesDecode | loop/scripts/trace.py:197-200 | the lines of the decoded text are the lines of the bytes, each decoded |
| Follower.PassLandsIff | loop/scripts/trace.py:196-201 | for any bytes, a pass leaves the offset where the unread text starts if and only if its CRLF pairs make up for its ill-formed pieces of less than three bytes |
| Follower.FollowsIff | loop/scripts/trace.py:181-214 | for every interleaving of appends and polls without carriage returns, the reader has at all times handled exactly the lines complete at the last poll if and only if every ill-formed piece among them is three bytes long |
| Follower.ExactlyOnce | loop/scripts/trace.py:181-214 | on a transcript that is well-formed up to its last complete line, for every interleaving, also one that cuts a character: the offset is on a line boundary, the lines handled are exactly the complete lines below it, in order and once, and a poll leaves none behind |
| Follower.CrLfRepeats | loop/scripts/trace.py:196-201 | after 3n lines ended by CRLF the next pass handles the last n of them again |
| Follower.BadByteLosesLine | loop/scripts/trace.py:196-201 | after an ill-formed byte a line appended at the end is never handled |
| Follower.CutCharacterKeepsPlace | loop/scripts/trace.py:196-201 | after a character cut to three of its four bytes the offset is right and the next line is handled |
| Follower.ReturnRepeats | loop/scripts/trace.py:185-191 | coming back to a transcript handles all its lines again |
| Switching.OnceEachIff | loop/scripts/trace.py:181-214 | over several transcripts, for every interleaving of appends and turns on contents without carriage returns whose ill-formed pieces are three bytes long: every complete line of every transcript followed is handled exactly once, at its place and in order, if and only if no turn goes back to a transcript of which a line was handled and none is left for good with a line completed after its last pass |
| Switching.LogIsSeen | loop/scripts/trace.py:181-214 | the lines of the log, without their places, are the lines the reader handled, after every run |
| Follower.Follower.Pass | loop/scripts/trace.py:196-211 | the inner loop handles the complete lines and adds up their re-encoded lengths |
| Follower.Follower.Poll | loop/scripts/trace.py:185-213 | one turn switches to the transcript found, starting it at 0, and passes over the current one |
| Transcripts.FindTranscript | loop/scripts/trace.py:90-114 | the loop finds the newest marked transcript with a time above zero, the first of equals, and none only if there is none |
| CreateTable.AlwaysOk | src/components/CreateTableModal.tsx:260-390 | after any sequence of edits, engine switches and creations there is a column, every type is one of the engine's or the sentinel, a sentinel column is a key on an engine with an auto-increment clause, and names are plain |
| CreateTable.RowsOk | src/components/CreateTableModal.tsx:118-248 | every dialect lists its key type, never the sentinel, and offers auto-increment only with constraints |
| CreateTable.GenerateColumns | src/components/CreateTableModal.tsx:323-364 | one pass over the columns collects their lines and the sequence statements |
| CreateTable.GenerateScript | src/components/CreateTableModal.tsx:317-368 | the script is the prelude and the CREATE TABLE, or nothing for a blank name |
| CreateTable.Editor.Render | src/components/CreateTableModal.tsx:286-290 | another engine resets the columns, the same one does not |
| CreateTable.Editor.Append | src/components/CreateTableModal.tsx:292-306 | a column of the engine's first type is added |
| CreateTable.Editor.Remove | src/components/CreateTableModal.tsx:308-311 | the column is removed unless it is the last one |
| CreateTable.Editor.SetPrimary | src/components/CreateTableModal.tsx:484-496 | checking makes the column not null, unchecking takes it off the sentinel |
| CreateTable.Editor.SetType | src/components/CreateTableModal.tsx:461-477 | only a type that is offered is taken |
| CreateTable.Editor.HandleCreate | src/components/CreateTableModal.tsx:370-390 | a complete form is handed on as its script and starts over, an incomplete one changes nothing |
| CreateTableText.RoundTrip | src/components/CreateTableModal.tsx:317-368 | for every reachable form with its names filled in, the script reads back as the table the form shows: per column its name, effective type (never the sentinel), one key clause exactly if it is a key and the engine has constraints, not null, unique and numbering, and the sequences created before are exactly those that columns default from |
| CreateTableText.KeyClausesAre | src/components/CreateTableModal.tsx:323-368 | the script of every reachable form with its names filled in holds one key clause per column checked as a key if the engine has constraints and none otherwise, so more than one if and only if two columns are checked |
| CreateTableText.TwoKeysReachable | src/components/CreateTableModal.tsx:484-496 | four edits reach a form with its names filled in whose script reads back with two key clauses |
| CreateTableEdits.EditShows | src/components/CreateTableModal.tsx:313-515 | after any run, an edit of a column shows in the script exactly there: the column says what was entered and keeps the rest, and every other column says what it said before |
| CreateTableEdits.DefaultShows | src/components/CreateTableModal.tsx:260-290 | a form just opened and named has one column "id", a key where there are constraints, not null, numbered where the engine can |
| CreateTableEdits.AddedShows | src/components/CreateTableModal.tsx:292-306 | an added and named column is of the engine's first type and nothing else |
| CreateTableEdits.RemovedShows | src/components/CreateTableModal.tsx:308-311 | a removed column is gone from the script and the others stay in order; the last one is not removed |
| Fixtures.ReadSqlite | docker/sqlite-init/build-fixture.ts:66-94 | the line loop with the trigger rule yields the statements of the text, and refuses a text without one |
| Fixtures.ReadDuckdb | docker/duckdb-init/build-fixture.ts:87-117 | the line loop and the substitution, with its three refusals |
| Fixtures.DuckdbAnswersIff | docker/duckdb-init/build-fixture.ts:87-117 | the reader answers if and only if the target is not blank, is not the placeholder itself, and some statement names the placeholder |
| Fixtures.SubstituteFirst | docker/duckdb-init/build-fixture.ts:87-117 | the first occurrence of the placeholder is replaced and what follows is replaced on |
| Fixtures.SplittersAgreeIff | docker/sqlite-init/build-fixture.ts:66-94 | the two splitters find the same statements if and only if every statement DuckDB's finds that opens a trigger also ends in END |
| Fixtures.FileReadsBack | docker/sqlite-init/build-fixture.ts:71-89 | a file of readable statements, each ended by a semicolon and a line feed, with comment lines anywhere between the lines, yields those statements in order, trigger bodies included |
| Fixtures.AloneIff | docker/sqlite-init/build-fixture.ts:71-89 | a statement printed alone is read back if and only if it is readable: trimmed, no line of it a comment, inner lines without a final semicolon unless a trigger body is open there, and not an unclosed trigger |
| FixtureWords.OpensIff | docker/sqlite-init/build-fixture.ts:82 | a statement opens a trigger if and only if it is blanks, CREATE, blanks, optionally TEMP or TEMPORARY and blanks, and the whole word TRIGGER, in any case |
| FixtureWords.ClosesIff | docker/sqlite-init/build-fixture.ts:82 | it closes one if and only if its last word is END |
| Readme.ParseTables | scripts/readme-check.mjs:86-105 | the loop over lines with its flushes gives the tables of the text |
| Readme.TablesRecovered | scripts/readme-check.mjs:72-105 | any rendered tables with trimmed, pipe-free cells and a data row are recovered, in order, whatever prose separates them |
| Readme.CommandSpans | scripts/readme-check.mjs:132-144 | the loop collects the code spans of the second column in document order |
| Readme.CheckReadmes | scripts/readme-check.mjs:179-230 | the violations of the original, then those of each translation, in order |
| Readme.SilentIff | scripts/readme-check.mjs:179-230 | there is no violation if and only if the original has both tables and its warning, and every translation has both tables, the warning, the banner, the same set of engines, and only install commands of the original |
| ReadmeReport.ViolationIff | scripts/readme-check.mjs:179-230 | exactly which violations are reported, of the original and of each translation, with what they name |
| ReadmeReport.EnginesReported | scripts/readme-check.mjs:214-222 | the engines named as missing are those the translation lacks, and as extra those the original lacks, each as often as it is there |
| ReadmeReport.SpansRecovered | scripts/readme-check.mjs:132-144 | the code spans of a cell are recovered in order, whatever text stands around them |
| ReadmeReport.BoldIff | scripts/readme-check.mjs:118-121 | a cell is a bold name if and only if it is that name between two pairs of stars, on one line |
| Identifier.IdentifierIs | src/components/CodeGenerator.tsx:64-72 | for every ASCII name: a letter followed by letters and digits, the fallback if and only if the name has none, and otherwise all its letters and digits up to case, but for one trailing "s" and a "T" before a digit |
| Identifier.PascalKeeps | src/components/CodeGenerator.tsx:32-34 | before the plural is cut, the identifier is the name's letters and digits in order, up to case |

## Left out

- ImportScript.ScriptInsertsEveryRow: table and column names are written unquoted, so the text of each statement up to VALUES is compared, not lexed.
- ImportSql.ImportInsertsEveryRow: reads the VALUES text of each statement on its own.
- ImportSql.GenerateImport: how an existing target's path is spelled is given, because the engine's capabilities decide it.
- Mapping.InsertUsesTypedName: an entry is looked up in an object, whose other inherited property names are not modelled; loading gives each such header its own entry.
- RollUp.DayThenCoarser: how the runtime reads text that is no ISO date is a given function, and local time has no gaps.
- PivotSql.QueryAgreesIff: values that are not NULL are taken to be numbers, as the aggregates of an engine require; engine-specific ordering of NULL labels is not modelled.
- PivotSql.AcceptedIff: the engine is one that refuses an ORDER BY name two different output columns share, as PostgreSQL does; one that takes the first of them (SQLite) orders by the row field.
- PivotSql.AnswerIsPivot: where an engine puts a NULL label is its own choice, so the rows are without NULLs.
- PivotTotals.PivotIsChart: compares the numbers; the chart spells them with the runtime's formatting.
- Pivot.SortedUnique: `localeCompare` is a given total order, so distinct labels that compare equal are not modelled.
- Follower.ExactlyOnce: a poll sees the file as it is at one moment, as a reader at the end of an append-only file does; truncation of the transcript is not modelled.
- Identifier.IdentifierIs: the Unicode letter and digit classes are modelled for ASCII names only.
- CreateTable.AlwaysOk: `toLowerCase` is taken as done before the text reaches the form.
- Rounding and formatting of numbers (`toFixed`, `String`), floating-point error, and locale text.
- The export of the pivot (`exportPivot`) and the JSON import (`parseJSON`): layout only.
- Launcher.CrashSafety: a step of the file system is done or not done; a move onto an entry that is there is taken to do nothing.
- The launcher's network, hashing, provenance check and unpacker are given outcomes; two launchers at once, and damage to the disk from outside, are not modelled. `--archive-sha256` without `--archive` is refused before any step.
- The contents of violation messages, toasts and log lines.
- Parsing and printing of a transcript line after it was found (`render`, `event_time`), and the end of the script when a line parses to something that is no object. The script's text encoding is taken to be UTF-8.
- All rendering, dialogs, clipboard and file pickers, the SQL type mappers and language templates.
