# Energy-production queries over Athena, modelled in Dafny

This project models the query pipeline of an AWS serverless service that reports energy production of wind and solar parks:

- `format_query_string` builds one SQL text. It cross-joins one table per park, aliased `p0`, `p1`, ….
- `Athena.query` submits that text.
- `Athena._Query` caches the execution status, polls it until it is final, and fetches the result pages one continuation token at a time.
- `parse_query_result_metadata` and `parse_query_result_row` turn each pivoted result row back into a map from park id to readings.
- `get_athena_query` strings the first steps together.
- `get_energy_production` adds the readings up per energy type, looking each park up with `retrieve_park`.

Modules, leaves first:

- `Wrappers`: `Option`, `Result` and the three Python exceptions the code can raise (`KeyError`, `IndexError`, `ValueError`).
- `Text`: decimal rendering, zero padding and `str.join`.
- `CivilTime`: the part of `datetime` the code uses:
  - `utcfromtimestamp`, through a proleptic Gregorian calendar;
  - `strftime` with `%Y-%m-%d %H:%M:%S` and `%Y-%m-%dT%H:%M:%SZ`;
  - `strptime` with `%Y-%m-%d %H:%M:%S.%f`.
- `Decimal`: `float(text)` for plain decimal notation, as exact reals.
- `QueryBuilder`: `format_query_string`, with the query shown item by item.
- `ResultParser`: the header parser, and the row parser written as a fold over the cells (`Step`, `ParsePrefix`) together with a method that runs the same loop.
- `Pagination`: the reshaping half of `format_paginated_query_results`:
  - a fold over pages (`PageStep`, `FoldPages`);
  - methods `ReshapePage`, `ReshapeRows` and `ExtendResults` for its loops.
- `AthenaQuery`: a scripted query engine (`Client`) standing in for boto3, plus:
  - the `Athena` class (`Athena`): the client and the configuration it read, and `query` as `Submit`;
  - the `_Query` class (`Query`), whose `status` field the methods update;
  - `get_athena_query`, as written and as intended.
- `EnergyProduction`: `get_energy_production`, with the park table as a map parameter.
- `ParserExamples`, `EnergyExamples`: the repository's test cases worked through the model.

Behaviour of the code that the model keeps as written, where a reader might expect otherwise:

- **Pages.** The first row of *every* page is skipped, not only the first page's (layers/utils/athena.py line 54). The engine puts the header row on the first page only, so on a result of several pages the first data row of each later page is dropped.
- **Header.** It is re-parsed from each page's metadata while it is still empty (lines 50-52), rather than fetched once.
- **Failed queries.** A query whose final status is in the failed set is not rejected, because the check at line 165 compares the whole status dictionary with label strings (see Findings).
- **Energy values.** Negative values are accepted, as `float` accepts them.
- **Missing values.** A counted park with a reading that lacks `energy_value` raises `KeyError`.
- **Query layout.** Each of `FROM`, `WHERE` and `ORDER BY` is preceded by a newline and 16 spaces, and the `FROM` list is joined by `","`. This is what the triple-quoted f-string produces. The expected text in tests/layers/utils/test_athena.py line 77 is a single line with `", "`.
- **Second row test.** The test at tests/layers/utils/test_athena.py lines 53-74 passes the row as a dictionary. The code iterates over a list of cells, so the example is modelled on the list of cells it evidently stands for.
- **Aggregator tests.** The readings in these tests have no timestamps, so the examples use the empty string.

## Model

| member | source | states |
|---|---|---|
| Text.NatToStringRoundTrip | layers/utils/athena.py:146-152 | the decimal text of a position index `i` reads back as `i` |
| Text.NatToStringInjective | layers/utils/athena.py:146-152 | two indices give the same text exactly when they are equal |
| Text.FixedRoundTrip | layers/utils/athena.py:144-145 | a zero-padded field of width `w` reads back as its number whenever the number has at most `w` digits |
| Text.DigitsRoundTrip | layers/utils/athena.py:112 | a fixed-width digit field read and re-padded to its width is unchanged |
| Text.JoinOfJoins | layers/utils/athena.py:148-151 | joining per-park groups that were themselves joined with the same separator is joining all their items |
| CivilTime.UtcFromTimestamp | layers/utils/athena.py:144-145 | `utcfromtimestamp` succeeds exactly when the day `seconds / 86400` (floored) falls in years 1..9999, and otherwise raises ValueError; the result is a valid date-time whose date is that day's civil date and whose hour, minute and second add up to the remaining seconds of the day |
| CivilTime.CivilFromDaysEpoch | layers/utils/athena.py:144-145 | day 0 is 1970-01-01 |
| CivilTime.CivilFromDaysNext | layers/utils/athena.py:144-145 | one day count later is the next calendar day (the next day of the month, the first of the next month, or 1 January of the next year), before and after the epoch; with the epoch lemma this fixes the date of every day count |
| CivilTime.DecomposeOfBlocks | layers/utils/athena.py:144-145 | the split into 400-year eras, centuries, 4-year blocks and years is the unique valid one for its day count |
| CivilTime.CivilFromDaysValid | layers/utils/athena.py:144-145 | every day count before or after the epoch lands on a real day: month 1..12, day within its month, leap years included |
| CivilTime.UtcFromTimestampExample | tests/layers/utils/test_athena.py:80-81 | 1647131882 s and 1647135482 s are 2022-03-13 00:38:02 and 01:38:02 UTC |
| CivilTime.StrftimeFields | layers/utils/athena.py:144-145 | the `%Y-%m-%d %H:%M:%S` text holds each field zero-padded at its fixed position, with the separators between |
| CivilTime.Strptime | layers/utils/athena.py:112 | parsing succeeds exactly on the `YYYY-MM-DD HH:MM:SS.f` layout (1 to 6 fraction digits) with a valid date and time; the result is valid |
| CivilTime.StrptimeOfStrftime | layers/utils/athena.py:112 | parsing a rendered date-time followed by any fraction gives that date-time back |
| CivilTime.StrftimeOfStrptime | layers/utils/athena.py:112 | re-rendering a parsed text reproduces its first 19 characters |
| CivilTime.IsoFormatOfStrftime | layers/utils/athena.py:112 | the ISO rendering is the spaced rendering with 'T' for the space and a trailing 'Z' |
| Decimal.ParseFloat | layers/utils/athena.py:115 | `float` succeeds exactly on an optionally signed decimal numeral; anything else is a ValueError |
| Decimal.SplitAtDot | layers/utils/athena.py:115 | the text splits at its first '.' into two digit runs, not both empty, exactly when it is an unsigned numeral |
| Decimal.ParseFloatOfParts | layers/utils/athena.py:115 | `w.t` reads as whole part `w` plus fraction digits `t` over 10^\|t\| |
| Decimal.ParseFloatOfNat | layers/utils/athena.py:115 | the decimal text of a natural number reads as that number |
| Decimal.ParseFloatZeroFraction | layers/utils/athena.py:115 | a whole number written with any run of zero fraction digits reads as that number |
| Decimal.ParseFloatNegative | layers/utils/athena.py:115 | a leading '-' negates the value |
| QueryBuilder.RenderTimeBound | layers/utils/athena.py:144-145 | a millisecond bound renders as 19 characters exactly when the second it falls in is representable; otherwise ValueError |
| QueryBuilder.FormatQueryString | layers/utils/athena.py:143-156 | the query is built exactly when both bounds render; otherwise ValueError, before any text is built |
| QueryBuilder.FormatQueryStringLayout | layers/utils/athena.py:146-156 | the text is: SELECT, the projection items joined by ", "; FROM, the aliased tables joined by ","; WHERE, the comparisons joined by " AND "; ORDER BY, the timestamp columns and ASC |
| QueryBuilder.SelectItemsShape | layers/utils/athena.py:148 | 3·N projection items, per park `i` in order: `'{id}' AS park_id`, `p{i}.timestamp AS timestamp{i}`, `p{i}.energy_value AS energy_value{i}` |
| QueryBuilder.ComparisonsShape | layers/utils/athena.py:149-151 | 2·N comparisons, per park `i`: timestamp of `p{i}` at least the start bound, then at most the end bound |
| QueryBuilder.ColumnNamesShape | layers/utils/athena.py:148 | the result has 3·N columns `park_id`, `timestamp{i}`, `energy_value{i}` per park in order; `park_id` occurs N times |
| QueryBuilder.SelectClauseItems | layers/utils/athena.py:148 | the per-park SELECT groups joined are the projection items joined |
| QueryBuilder.WhereClauseComparisons | layers/utils/athena.py:149-151 | the per-park WHERE groups joined are the comparisons joined |
| QueryBuilder.SelectItemsNamedByColumns | layers/utils/athena.py:148 | the projection item at each position ends with ` AS ` and the result column name at that position, so the parser's column names are the SELECT list's aliases |
| QueryBuilder.AliasesDistinct | layers/utils/athena.py:146-152 | aliases `p{i}` and ORDER BY columns `timestamp{i}` of different parks differ |
| QueryBuilder.RenderTimeBoundExample | tests/layers/utils/test_athena.py:77-83 | the test's bounds render as '2022-03-13 00:38:02' and '2022-03-13 01:38:02' |
| ResultParser.ParseColumns | layers/utils/athena.py:135 | one column per ColumnInfo entry, in order, with its Name and Type; KeyError exactly when an entry lacks one |
| ResultParser.ParseQueryResultMetadata | layers/utils/athena.py:121-135 | as above for `metadata['ColumnInfo']`; KeyError when that key is missing |
| ResultParser.ParseQueryResultMetadataExample | tests/layers/utils/test_athena.py:22-34 | the two-column example gives `[col1 varchar, col2 int]` |
| ResultParser.CellValue | layers/utils/athena.py:108-115 | a cell's `VarCharValue` is its text; a NULL cell raises KeyError |
| ResultParser.ConvertTimestamp | layers/utils/athena.py:112 | conversion succeeds exactly when `strptime` does, giving 20 characters; otherwise ValueError |
| ResultParser.ConvertTimestampLayout | layers/utils/athena.py:112 | the converted text is the date, 'T', the whole seconds and 'Z' of the input |
| ResultParser.ParseQueryResultRow | layers/utils/athena.py:100-118 | the loop over the cells computes the fold `ParseRow` |
| ResultParser.ReadCell | layers/utils/athena.py:105-116 | one loop turn is one `Step` of the fold: the park_id, timestamp, energy_value or ignored branch |
| ResultParser.FailureSticks | layers/utils/athena.py:104-116 | once a cell raises, later cells change nothing and the row raises that error |
| ResultParser.PrefixKeys | layers/utils/athena.py:107-110 | after any prefix that parses, the keys are exactly the park_id texts seen, and the current park is one of them (or "" before any) |
| ResultParser.ParseRowKeys | layers/utils/athena.py:107-110 | a parsed row's keys are exactly the texts of its park_id cells; the row is no longer than the header |
| ResultParser.CellsBeforeSuccess | layers/utils/athena.py:105-108 | in a row that parses, every cell has a column and every park_id cell holds text |
| ResultParser.ReadingBeforeParkIdFails | layers/utils/athena.py:102-116 | a timestamp or energy cell before any park_id cell makes the row raise, and KeyError when that cell is well formed |
| ResultParser.EnergyBeforeTimestampFails | layers/utils/athena.py:109-116 | an energy cell right after a new park's id raises, and IndexError when well formed |
| ResultParser.IgnoredColumn | layers/utils/athena.py:107-116 | the content of a cell whose column matches none of the three names does not affect the result |
| ResultParser.StepTimestamp | layers/utils/athena.py:111-113 | a timestamp cell appends exactly one reading (converted timestamp, no value) to the current park and changes nothing else |
| ResultParser.StepEnergy | layers/utils/athena.py:114-116 | an energy cell sets the value of the current park's last reading only |
| ResultParser.ParsePivotedRow | layers/utils/athena.py:100-118 | a row of well-formed samples under the builder's pivoted header parses to each park with its readings, in column order |
| ResultParser.BuiltQueryHeader | layers/utils/athena.py:148 | a header carrying the builder's column names is a pivoted header |
| ParserExamples.ParseRowExample | tests/layers/utils/test_athena.py:36-51 | `park1, 2022-05-01 00:00:00.000, 100` parses to park1 with one reading at 2022-05-01T00:00:00Z of 100.0 |
| ParserExamples.TwoReadingsOfOnePark | layers/utils/athena.py:104-116 | one park_id cell followed by two timestamp/energy pairs gives that park both readings in order |
| ParserExamples.ParseRowTwoReadings | tests/layers/utils/test_athena.py:53-74 | the two-reading example row parses to park1 with readings 10.0 at 20:18:02 and 20.0 at 20:18:05 |
| Pagination.SentMaxResults | layers/utils/athena.py:42-43 | MaxResults is sent exactly when `max_results` is truthy (present and non-zero), and then unchanged |
| Pagination.LastPage | layers/utils/athena.py:45-48 | the loop stops at the first page without a continuation token |
| Pagination.MergeLookup | layers/utils/athena.py:56-59 | a park is in the merge iff it is in either side; its readings are the earlier ones followed by the row's |
| Pagination.MergeIdentity | layers/utils/athena.py:56-59 | merging with the empty map changes nothing, on either side |
| Pagination.MergeAssociative | layers/utils/athena.py:54-59 | merging is associative |
| Pagination.MergeRowsAppend | layers/utils/athena.py:54-59 | what the rows add does not depend on the results before them |
| Pagination.MergeRowsParsed | layers/utils/athena.py:54-55 | the row loop succeeds only when every row parses |
| Pagination.MergeRowsFailureSticks | layers/utils/athena.py:54-55 | the first row that raises makes the whole loop raise its error |
| Pagination.MergeRowsOrder | layers/utils/athena.py:54-59 | each park's readings are its earlier list followed by each row's readings for it, in row order |
| Pagination.PageOrder | layers/utils/athena.py:45-59 | each page appends, per park, its rows' readings after those of the pages before |
| Pagination.FirstHeaderKept | layers/utils/athena.py:50-52 | a non-empty header from the first page is the header used for every page |
| Pagination.EmptyHeaderRetried | layers/utils/athena.py:50-52 | while the header is empty it is parsed again from the next page's metadata |
| Pagination.FoldPagesCongruent | layers/utils/athena.py:45-59 | pages that agree on metadata and data rows give the same result, whatever their tokens |
| Pagination.FirstRowIgnored | layers/utils/athena.py:53-54 | replacing the first row of any page changes nothing |
| Pagination.ExtendResults | layers/utils/athena.py:56-59 | the loop over `formatted_row.items()` computes the merge, in any key order |
| Pagination.ReshapeRows | layers/utils/athena.py:54-59 | the row loop of one page computes `MergeRows` |
| Pagination.ReshapePage | layers/utils/athena.py:50-59 | one page's header step and row loop compute `PageStep` |
| Pagination.FoldRunIsFold | layers/utils/athena.py:45-59 | folding a run of the page script by position is folding that slice |
| Pagination.ReshapeNext | layers/utils/athena.py:46-59 | reshaping the next page onto the state so far extends the fold by one page |
| AthenaQuery.RecordOf | layers/utils/athena.py:28-30 | the cached value is the state; the reason is StateChangeReason, or '' when absent |
| AthenaQuery.Query.constructor | layers/utils/athena.py:12-16 | a new handle keeps id, client and configuration and has an empty status |
| AthenaQuery.Query.GetQueryStatus | layers/utils/athena.py:26-30 | exactly one get_query_execution call with the query id, returning the next answer as state and reason |
| AthenaQuery.Query.Status | layers/utils/athena.py:18-24 | a final cached status is returned with no call; otherwise one call whose answer overwrites value and reason |
| AthenaQuery.FirstFinal | layers/utils/athena.py:71 | the first status answer in the final set, from a given position |
| AthenaQuery.Query.PollForStatus | layers/utils/athena.py:70-77 | returns a final status, the first final answer; one status call per answer up to it, one sleep per non-final answer, no call if already final |
| AthenaQuery.RequestsShape | layers/utils/athena.py:39-49 | one request per page fetched: each carries the query id and the same MaxResults; the first has no token, and every later one has the token of the page before it |
| AthenaQuery.RequestsCarryTokens | layers/utils/athena.py:45-49 | no request after the first goes out without a token, so no page is requested again after the last one |
| AthenaQuery.Query.FetchPage | layers/utils/athena.py:46-59 | one get_query_results call with the previous token, and one more step of the page fold |
| AthenaQuery.Query.FormatPaginatedQueryResults | layers/utils/athena.py:32-60 | the method makes exactly the requests above, up to the last page or to the page that raises, and returns the fold of the pages fetched |
| AthenaQuery.Athena.constructor | layers/utils/athena.py:79-84 | the object keeps the engine client and the configuration it read |
| AthenaQuery.Athena.Submit | layers/utils/athena.py:89-97 | one start_query_execution with the text and the given database; a fresh handle with the engine's id, the `Athena` object's own configuration and an empty status |
| AthenaQuery.SubmitAndPoll | layers/utils/athena.py:160-165 | builds the text (ValueError submits nothing), submits it once against the argument's database, polls to the first status final for the `Athena` object's configuration |
| AthenaQuery.FailedAsWrittenNever | layers/utils/athena.py:165 | the failure check as written never holds |
| AthenaQuery.FailedIntendedIff | layers/utils/athena.py:165 | the intended check holds exactly for a status value in the failed list |
| AthenaQuery.FailedQueryKept | layers/utils/athena.py:165-167 | a FAILED query with FAILED configured as failed passes the check as written |
| AthenaQuery.GetAthenaQuery | layers/utils/athena.py:159-169 | as written: a handle holding the first final status is returned whatever that status is |
| AthenaQuery.GetAthenaQueryIntended | layers/utils/athena.py:159-169 | as intended: no handle exactly when the final status is in the argument's failed list |
| EnergyProduction.EnergyValue | lambdaFunctions/API/aggregateEnergyProduction/aggregateEnergyProduction.py:28 | `d["energy_value"]` is the reading's value, KeyError exactly when it has none |
| EnergyProduction.SumValues | lambdaFunctions/API/aggregateEnergyProduction/aggregateEnergyProduction.py:28-30 | the sum succeeds exactly when every reading has a value; otherwise KeyError |
| EnergyProduction.SumValuesTotal | lambdaFunctions/API/aggregateEnergyProduction/aggregateEnergyProduction.py:28-30 | a successful sum is the total of the values |
| EnergyProduction.AddPark | lambdaFunctions/API/aggregateEnergyProduction/aggregateEnergyProduction.py:26-30 | a "Wind" park adds its sum to the wind total, a "Solar" park to the solar total, any other type nothing; KeyError exactly for a counted park with a missing value |
| EnergyProduction.Report | lambdaFunctions/API/aggregateEnergyProduction/aggregateEnergyProduction.py:32-38 | the answer has "wind" or "solar" exactly when that total is positive, with that production in MWh, and no other key |
| EnergyProduction.ProductionReportUnique | lambdaFunctions/API/aggregateEnergyProduction/aggregateEnergyProduction.py:32-38 | the two totals determine the answer |
| EnergyProduction.GetEnergyProduction | lambdaFunctions/API/aggregateEnergyProduction/aggregateEnergyProduction.py:21-38 | KeyError exactly when a counted park has a reading without value; otherwise the answer for the per-type totals over all parks; each park looked up at most once, every park exactly once on success |
| EnergyProduction.EnumerationTotal | lambdaFunctions/API/aggregateEnergyProduction/aggregateEnergyProduction.py:24-30 | the order in which the parks are visited does not change the total |
| EnergyProduction.TypeTotalPermutation | lambdaFunctions/API/aggregateEnergyProduction/aggregateEnergyProduction.py:24-30 | any two orders of the same parks give the same total |
| EnergyProduction.DroppedPark | lambdaFunctions/API/aggregateEnergyProduction/aggregateEnergyProduction.py:26-30 | adding a park whose type is neither exactly "Wind" nor "Solar" changes neither total and causes no raise |
| EnergyExamples.LowerCaseWindDropped | lambdaFunctions/API/aggregateEnergyProduction/aggregateEnergyProduction.py:27 | a park typed "wind" in lower case is dropped |
| EnergyExamples.UnknownParkDropped | layers/utils/utils.py:20-24 | a park the table does not know gets the empty record and is dropped |
| EnergyExamples.WindAndSolarTotals | tests/lambdaFunctions/API/aggregateEnergyProduction/test_aggregateEnergyProduction.py:14-17 | the first test's data has wind total 300 and solar total 300, no value missing |
| EnergyExamples.WindAndSolarExample | tests/lambdaFunctions/API/aggregateEnergyProduction/test_aggregateEnergyProduction.py:12-20 | its answer is exactly solar 300 MWh and wind 300 MWh |
| EnergyExamples.EmptyExample | tests/lambdaFunctions/API/aggregateEnergyProduction/test_aggregateEnergyProduction.py:23-27 | no parks give the empty answer, with any park table |
| EnergyExamples.ZeroReadingTotals | tests/lambdaFunctions/API/aggregateEnergyProduction/test_aggregateEnergyProduction.py:31-34 | the third test's data has wind total 100 and solar total 300 |
| EnergyExamples.ZeroReadingExample | tests/lambdaFunctions/API/aggregateEnergyProduction/test_aggregateEnergyProduction.py:30-37 | its answer is exactly solar 300 MWh and wind 100 MWh |

## Left out

- boto3, SSM and S3 are not modelled (`Athena.__init__`, `_get_query_result_location`, `get_athena_configuration`). The engine is a scripted `Client` with a log of calls. A configuration is a `Configuration` value holding the database, the final and failed label lists and the poll interval. The `Athena` object holds the one it read, which its handles use for the final labels and the poll interval. `get_athena_query` takes a second one as its argument, for the database and the failed labels.
- Athena.query does not model the S3 output location or the SSE_S3 encryption option sent with the query, because they do not affect any result.
- The DynamoDB query inside `retrieve_park` is not modelled. The park table is a map parameter, and `RetrievePark` gives the stored record or the empty one.
- `get_all_query_results` is not modelled. It calls a method, `get_paginated_query_results`, that the class does not define, so it can only raise.
- The Lambda handlers, `load_event_params` and `aws_response` are not modelled; they are request and response plumbing.
- `print` and `time.sleep` are not modelled. The sleeps are counted instead: `PollForStatus` returns how many it takes.
- Response envelope keys are not modelled. A page is a value with its token, metadata and rows, and a status answer is a value with its state and optional reason. So a `KeyError` from a response missing any of these is not modelled: `ResultSet`, `Rows`, `ResultSetMetadata`, `Data` of a row, `QueryExecution`, `Status` or `State`.
- FormatPaginatedQueryResults (AthenaQuery.Query.FormatPaginatedQueryResults): the default `max_results=100` is not modelled. The method always takes `max_results` as an argument, as both handlers pass it.
- Floating point is not modelled. Energy values and sums are exact reals, so binary rounding of `float` and of `sum` is not captured.
- ParseFloat (Decimal.ParseFloat): accepts only plain decimal notation with an optional sign. Python's `float` also accepts these, and the model rejects them: exponents, `inf`, `nan`, underscores and surrounding whitespace. The engine may render a DOUBLE below 10^-3 or from 10^7 upward in E-notation (`1.0E-4`). Such an energy value parses in the source and raises ValueError in the model.
- Strptime (CivilTime.Strptime): requires fixed-width fields (four-digit year, two-digit month, day, hour, minute, second). Python's `strptime` also accepts one-digit fields, which Athena never emits.
- UtcFromTimestamp (CivilTime.UtcFromTimestamp): raises ValueError for every year outside 1..9999. Depending on the platform, Python may raise OverflowError or OSError for such timestamps instead; only the kind of error differs.
- RenderTimeBound (QueryBuilder.RenderTimeBound): floors the milliseconds to whole seconds. The float division `ms / 1000` and microsecond rounding are not modelled; for millisecond inputs within years 1..9999 they do not change the rendered second.
- GetEnergyProduction (EnergyProduction.GetEnergyProduction): visits the parks in any order, not dict insertion order, and states the lookups as a multiset.
- PollForStatus (AthenaQuery.Query.PollForStatus): requires a final status answer somewhere ahead in the script. With none, the source waits forever.
- FormatPaginatedQueryResults (AthenaQuery.Query.FormatPaginatedQueryResults): requires a page without a continuation token ahead in the script. With none, the source loops forever.
- Status (AthenaQuery.Query.Status): returns a copy of the cached record. The source returns the `_status` dictionary itself, which a caller could mutate; that aliasing is not modelled.

## Findings

| source | as written | input that shows it | evidently intended | confidence | as-written member | corrected member |
|---|---|---|---|---|---|---|
| layers/utils/athena.py:165 | the failure check tests whether the status dictionary returned by `poll_for_status` is an element of the list of failed labels, which holds only strings, so it is never true | a query whose final status is FAILED, with failed labels FAILED and CANCELLED: the handle is still returned and the caller goes on to paginate | test the status `value` against the failed labels and return nothing for a failed query | not executed | AthenaQuery.GetAthenaQuery, AthenaQuery.FailedQueryKept | AthenaQuery.GetAthenaQueryIntended |
