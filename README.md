# Sensor readings service, modelled in Dafny

A small HTTP service stores temperature and humidity readings per device in a
single table, `readings(device_uuid, type, value, date_created)`, and answers
aggregate queries over filtered subsets of it. This project models the logic
behind it:

- the two field validators of a submitted reading (`utils.py`);
- the filter clauses appended to every read query (`utils.py`);
- the submission path, which validates both fields and either refuses the
  submission or appends exactly one row (`app.py`);
- the aggregate endpoints: MIN, MAX, the truncated AVG, median, mode and
  first and third quartiles (`app.py`);
- the per-device summaries endpoint, which groups the rows of a read per
  device and emits one entry of statistics per device (`app.py`).

The table is a `seq<Reading>`. The store object of the submission path is a
class holding that sequence. Its `PostReading` method appends to it, and
`Get` is the filtered read.

The WHERE clause the endpoints build as SQL text is given its meaning
directly, as the predicate `Readings.Matches`. This is its meaning when the
start and end parameters are integer literals and the device and type text
contain no double quote and name no column (see "Left out"). Then:
- the device must equal the one in the path;
- `start <= date_created <= end`, inclusive at both ends;
- the type must equal the one asked for, when the type parameter is non-empty.

`Readings.Select` is the read itself. `Utils.BuildSqlFromGet` is the text
builder, and `Utils.ClausesMatchFilter` ties each constraint of a filter to
exactly one clause of the text.

The aggregates are stated the way the endpoints compute them, in exact
integer arithmetic:
- `int()` truncates toward zero (`Stats.TruncDiv`);
- the summary's mean uses Python's floor division;
- `statistics.quantiles` uses its default `n=4`, `method='exclusive'`,
  including the clamping that makes two values extrapolate (`Stats.Quantile`);
- `statistics.mode` returns the first encountered of the most frequent values.

Where the service's written description and its code differ, the model
follows the code:
- `validate_value_field` accepts `True` and `False`, because Python's `bool`
  is an `int`. They are stored as 1 and 0 (`Utils.ValidateValueField`).
- Ties in mode go to the value encountered first (`Stats.Mode`), as
  `statistics.mode` does from Python 3.8 on.
- The mean endpoint answers null both when no row is selected and when the
  average is 0, because it tests the average for truthiness before
  converting it (`Stats.Mean`, `Scenario.MeanZeroAndModeTie`).
- The summary lists devices in the order their rows are met. The query adds
  `ORDER BY device_uuid`, so when the engine returns rows sorted by device,
  the entries are in ascending device order (`Summary.DevicesAscending`).
- The read queries interpolate the parameters into the SQL text rather than
  binding them.

Modules, one file each:
- `common.dfy`: `Common`, the Option and Result wrappers and generic multiset lemmas.
- `readings.dfy`: `Readings`, the rows, filters, `Matches` and `Select`.
- `utils.dfy`: `Utils`, the validators and the clause builder.
- `store.dfy`: `Store`, the submission path.
- `stats.dfy`: `Stats`, the aggregates.
- `summary.dfy`: `Summary`, the summaries loop.
- `scenario.dfy`: `Scenario`, the aggregates over the repository's reference values.
- `table_scenario.dfy`: `TableScenario`, the reference table set up by the
  repository's tests, and what the reads, the summary and the submissions
  make of it.

## Model

| member | source | states |
|---|---|---|
| Utils.Lower | utils.py:13 | lower-casing keeps the length of the text |
| Utils.LowerChars | utils.py:13 | lower-casing maps each character on its own, position by position |
| Utils.ValidateTypeField | utils.py:12-15 | accepted exactly when the input is a string whose lower-case form is `temperature` or `humidity`; the payload is that lower-case form; every other input is refused with the fixed type message |
| Utils.LowerMatchesWord | utils.py:13 | a string lower-cases to a lower-case word exactly when it spells that word in any mix of cases |
| Utils.TypeFieldAcceptsCaseVariants | utils.py:12-14 | the accepted strings are exactly the spellings of `temperature` and `humidity` in any mix of cases (both directions) |
| Utils.LowerIdempotent | utils.py:13-14 | lower-casing a second time changes nothing |
| Utils.ValidateTypeIdempotent | utils.py:13-14 | re-validating a cleaned type succeeds and returns the same answer |
| Utils.TypeFieldAcceptsMixedCase | utils.py:13-14 | `Temperature` and `HUMIDITY` are accepted and cleaned to `temperature` and `humidity` |
| Utils.LowerOfTemperature | utils.py:13-14 | `temperature` is its own lower-case form, so it is stored as sent |
| Utils.TypeFieldRejectsOthers | utils.py:15 | `flavor` and a number are refused with the fixed type message |
| Utils.ValidateValueField | utils.py:25-28 | accepted exactly for an int in [0, 100] (returned unchanged) or a bool (1 or 0); everything else is refused with the fixed value message |
| Utils.ValueFieldExamples | tests/test_sensor_routes.py:212-230 | 0 and 100 are accepted; 200, -10 and the string "50" are refused with the value message |
| Utils.Clauses | utils.py:39-46 | the start clause, when present, comes first and the type clause, when present, comes last; no truthy parameter gives no clause |
| Utils.BuildSqlFromGet | utils.py:31-46 | the query is the selection followed by one clause per present, non-empty parameter, in the order start, end, type; so the selection is always its prefix |
| Utils.NoClausesIff | utils.py:39-46 | the query equals the selection exactly when start, end and type are all absent or empty |
| Utils.ClausesMatchFilter | utils.py:40-45 | a filter's lower bound, upper bound and non-empty type each render to a truthy parameter, and an absent one to none; in the text, the start clause leads, the end clause follows it, the type clause ends it, and a filter with no constraint gives no clause |
| Readings.Matches | utils.py:40-45 | with no constraint every row matches; a window whose end is before its start matches nothing; a type other than `temperature` or `humidity` matches no well-formed row; a matching row has the requested device |
| Readings.Select | app.py:65-69 | a read returns every matching row of the table with its multiplicity and no other row |
| Readings.SelectAppend | app.py:57-58 | appending a row extends every read by exactly that row when it matches, and by nothing otherwise |
| Readings.WindowInclusive | utils.py:41-43 | a reading stamped exactly at the start or the end of a window is selected |
| Readings.ValuesOrderIndependent | app.py:231-232 | rows returned in another order carry the same values |
| Store.Submission | app.py:36-54 | the outcome is a row exactly when both validators accept; the row has the path's uuid, the lower-cased type, the value and the given date or else `now`; a refusal carries the failing messages newline-joined, type first |
| Store.ReadingStore.PostReading | app.py:36-63 | an accepted submission appends exactly that row and answers 201 `success`; a refused one leaves the table as it was and answers 400 with the messages; rows stay well-formed |
| Common.JoinLines | app.py:51 | one message is answered as is; two are joined by one newline, the first leading |
| Store.ReadingStore.Get | app.py:65-72 | a read holds every matching row of the table with its multiplicity, and no other row |
| Store.ReadYourWrite | app.py:57-60 | an accepted reading comes back as the last row of the next read of its device and type |
| Store.StoredMeansAgree | app.py:179-183 | over a table of validated rows, the mean endpoint on any non-empty read agrees with the floor mean whenever it answers, and the floor mean is 0 when it does not |
| Stats.Max | app.py:89-94 | null when no row is selected; otherwise a selected value that no selected value exceeds |
| Stats.Min | app.py:111-116 | null when no row is selected; otherwise a selected value that no selected value is below |
| Stats.MaxOrderIndependent | app.py:89-94 | the maximum depends only on which values are selected |
| Stats.TruncDiv | app.py:183 | Python's `int()` of an exact quotient: the quotient rounded toward zero, for either sign |
| Stats.Mean | app.py:179-183 | null exactly when no row is selected or the values sum to 0; otherwise the average truncated toward zero |
| Stats.FloorMean | app.py:248 | the summary's `sum // len`: the greatest integer whose multiple by the count does not exceed the sum |
| Stats.MeanAgreesWithFloorMean | app.py:183 | on values that are never negative, the mean endpoint and the summary's mean agree whenever the endpoint answers, and the floor mean is 0 when it does not |
| Stats.SumOrderIndependent | app.py:248 | the sum depends only on which values are summed |
| Stats.Sort | app.py:160 | Python's `sorted`: an ascending permutation of the values |
| Stats.AscendingPermutationUnique | app.py:160 | two ascending arrangements of the same values are equal, so the sorted order is unique |
| Stats.SortOrderIndependent | app.py:160 | sorting forgets the order of its input |
| Stats.Median | app.py:160 | null when no row is selected; otherwise between the two middle sorted values, and equal to the middle one for an odd count |
| Stats.Middle | app.py:160 | the middle of a sorted list lies between its two middle values; it is the middle value for an odd length and the average of the two middle values truncated toward zero for an even one |
| Stats.MedianOfEvenCount | app.py:160 | for an even count the median is the average of the two middle sorted values, truncated toward zero |
| Stats.MedianWithinRange | app.py:160 | the median lies between the least and the greatest value |
| Stats.MedianOrderIndependent | app.py:160 | the median depends only on which values are selected |
| Stats.Mode | app.py:137 | null when no row is selected; otherwise a selected value no other value outnumbers, and the first met among the most frequent |
| Stats.ModeOfLeadingMostCommon | app.py:137 | when the first value is among the most frequent, it is the mode |
| Stats.Quartiles | app.py:205-208 | both quartiles are null exactly when fewer than two values are selected |
| Stats.Quantile | app.py:205 | from three sorted values on, a cut point lies between the least and the greatest value; with two values it extrapolates with weight 3i - 4 |
| Stats.QuantileValue | app.py:205 | a cut point is the sum of its two neighbours weighted 4 - delta and delta at the clamped position, divided by 4 and truncated toward zero |
| Stats.CutWithin | app.py:205 | from three values on, the interpolation weight of every cut point lies in [0, 4] |
| Stats.InterpolateBetween | app.py:205 | a cut point interpolated with a weight in [0, 4] lies between its two neighbours |
| Stats.QuantilesOfAtLeastThree | app.py:205 | from three sorted values on, the first cut point is not above the third and both lie between the ends |
| Stats.QuartilesWithinRange | app.py:205-208 | from three values on, min <= quartile 1 <= quartile 3 <= max |
| Stats.QuartilesOfTwoExtrapolate | app.py:205-208 | with two values a <= b the quartiles are (5a - b)/4 and (5b - a)/4 truncated, at or outside [a, b] |
| Stats.QuartilesOrderIndependent | app.py:205 | the quartiles depend only on which values are selected |
| Summary.Devices | app.py:233-238 | the dictionary's keys: distinct, every row's device is among them, and each belongs to some row |
| Summary.DevicesInFirstSeenOrder | app.py:233-238 | the keys are in insertion order: the devices of any prefix of the rows are a prefix of the devices of all of them |
| Summary.Group | app.py:233-238 | a device collects at most one value per row |
| Summary.GroupMembers | app.py:233-238 | a device's values are exactly the values of its rows: each value comes from a row of the device and every such row contributes its value |
| Summary.GroupingStep | app.py:234-238 | one iteration of the grouping loop keeps the keys equal to the devices met so far, in first-met order, and each entry equal to its device's values so far |
| Summary.GroupByDevice | app.py:233-238 | the loop builds a dictionary whose keys are exactly the devices met, in first-met order, and whose entry for a device is the values of its rows in row order |
| Summary.GroupOfSeen | app.py:235-238 | every device met has at least one value, so its entry's statistics are defined |
| Summary.GroupOfUnseen | app.py:235-238 | a device not yet met has no values collected |
| Summary.SummaryOf | app.py:241-251 | an entry carries the device and its count; its maximum is a value no value exceeds; min <= median <= max; the mean is the floor of the average; the quartiles are null exactly for a single value, and from three values on min <= quartile 1 <= quartile 3 <= max |
| Summary.Summarize | app.py:239-252 | one entry per device in first-met order, each with the count, maximum, median, floor mean and quartiles of that device's values |
| Summary.GroupIsDeviceSelection | app.py:233-238 | a device's collected values are the value column of the rows a read of that device selects |
| Summary.CountsAddUp | app.py:245 | the entries' counts add up to the number of rows read |
| Summary.DevicesAscending | app.py:230 | rows sorted by device give entries in strictly ascending device order |
| Summary.DeviceGroupIsDeviceRead | app.py:228-238 | whatever order the engine returns the rows in, a device's values are a permutation of what the same filter narrowed to that device selects |
| Summary.SummaryAgreesWithDeviceEndpoints | app.py:241-250 | each entry's count, max, median and quartiles equal what the per-device read and endpoints answer under the same filter, and its mean is the floor mean of those values |
| Scenario.MinMaxOfDeviceReadings | tests/test_sensor_routes.py:110-126 | readings 22, 50, 100, 73 have minimum 22 and maximum 100 |
| Scenario.MedianOfDeviceReadings | tests/test_sensor_routes.py:128-135 | their median is 61 |
| Scenario.MeanOfDeviceReadings | tests/test_sensor_routes.py:137-144 | their mean is 61 |
| Scenario.ModeOfDeviceReadings | tests/test_sensor_routes.py:146-153 | their mode is 22 |
| Scenario.QuartilesOfDeviceReadings | tests/test_sensor_routes.py:155-164 | their quartiles are 29 and 93 |
| Scenario.MedianOfTemperatureReadings | tests/test_sensor_routes.py:175-183 | 22, 50, 100 have median 50 |
| Scenario.MeanOfTemperatureReadings | tests/test_sensor_routes.py:175-183 | 22, 50, 100 have mean 57 |
| Scenario.QuartilesOfTemperatureReadings | tests/test_sensor_routes.py:175-183 | 22, 50, 100 have quartiles 22 and 100 |
| Scenario.AggregatesOfTwoReadings | tests/test_sensor_routes.py:184-192 | 22, 30 have median 26 and quartiles 20 and 32 |
| Scenario.AggregatesOfFewReadings | tests/test_sensor_routes.py:166-170 | one value has no quartiles; no values have no min, max, mean, median or mode |
| Scenario.MeanZeroAndModeTie | app.py:183 | two zero readings give a null mean; 50, 22, 50, 22 have mode 50 |
| TableScenario.ReadOfTestDevice | tests/test_sensor_routes.py:46-55 | the test device's read returns its four rows, with values 22, 50, 100, 73 |
| TableScenario.TypedReadsOfTestDevice | tests/test_sensor_routes.py:79-95 | its temperature read returns 22, 50, 100 and its humidity read returns 73 |
| TableScenario.WindowReadOfTestDevice | tests/test_sensor_routes.py:97-108 | the window [t - 75, t + 25] selects the two readings 50 and 100 |
| TableScenario.TemperatureReadOfOtherDevice | tests/test_sensor_routes.py:36-39 | the second device's temperature read returns 22 and 30 |
| TableScenario.SummaryOfThreeReadings | tests/test_sensor_routes.py:175-183 | the entry of the group 22, 50, 100 is count 3, max 100, median 50, mean 57, quartiles 22 and 100 |
| TableScenario.SummaryOfTwoReadings | tests/test_sensor_routes.py:184-192 | the entry of the group 22, 30 is count 2, max 30, median 26, mean 26, quartiles 20 and 32 |
| TableScenario.SummaryOfOneReading | tests/test_sensor_routes.py:197-210 | the entry of the single reading 73 has null quartiles |
| TableScenario.DevicesOfTemperatureRead | tests/test_sensor_routes.py:172-195 | the temperature summary over the test table has entries for exactly the two devices |
| TableScenario.SummaryOfTemperatureRead | tests/test_sensor_routes.py:172-195 | and those entries are the two expected ones, whatever order the engine returns the rows in |
| TableScenario.RefusedSubmission | tests/test_sensor_routes.py:212-221 | a temperature of 200 is refused with the value message alone |
| TableScenario.AcceptedSubmission | tests/test_sensor_routes.py:57-67 | a temperature of 100 without a date is stored with the request time |
| TableScenario.PostScenario | tests/test_sensor_routes.py:57-77 | against the test table, 200 is refused with 400, 100 is accepted with 201, and the device then has five rows |

## Left out

- Flask routing, request parsing, `json.loads` and `jsonify` are framework glue. A malformed JSON body or one that is not an object is not modelled. A decoded body is given as a `PostBody`.
- The SQLite connection, table creation and the connection decorator (`handle_database_connection`) are I/O. The table is an in-memory sequence.
- Executing SQL text is not modelled. `Readings.Matches` states what the WHERE clause means, and `Utils.ClausesMatchFilter` relates the text to it.
- Query safety is not modelled. Interpolating the device uuid and the parameters into the SQL text allows injection. Stating what that text does would need a SQL semantics.
- Floating point is not modelled. `AVG` is a double, the one nearest the exact average; truncating it gives the exact quotient truncated toward zero as long as the sum of the values stays below 2^53, which values in [0, 100] guarantee for any realistic row count. The median's division by 2 and the quantiles' division by 4 are exact at these magnitudes. All three are modelled as integer numerators truncated toward zero.
- `time.time()` is the parameter `now`. `print(sql)` is dropped.
- Utils.Lower: lower-cases ASCII letters only, not the full Unicode `str.lower`.
- Store.Submission: a `date_created` that is present but not an integer (a string, a float, null) is not modelled; the date is an optional integer.
- Store.Submission: a `date_created` outside SQLite's 64-bit INTEGER range makes the insert fail; the model accepts any integer date, and `PostReading` appends it.
- Readings.Matches: it is the WHERE clause's meaning only when `start` and `end` are integer literals and the device and type text contain no double quote and name no column. Other text changes the query: `start=abc` is an error, `start=1.5` compares as a real, and `type=type` is read as the column `type`, so it selects every row.
- Readings.Select: the per-device reads have no ORDER BY, so the engine promises no row order; the model takes it to be table (insertion) order. The first-met tie-break of the mode endpoint over a read (`Scenario.ModeOfDeviceReadings` through `TableScenario.ReadOfTestDevice`) and the "last row" of `Store.ReadYourWrite` rest on that choice. The summary's results are proved for any order the engine returns.
- Summary.DevicesAscending: the engine's `ORDER BY device_uuid` is taken as the precondition `SortedByDevice` on the rows it returns, with SQLite's binary collation as `LexLeq`. The engine's sorting is not modelled.
- The min, max and mean endpoints compute their aggregate in the engine. The model computes it from the selected values.
