# Energy measurement aggregation and reports — a Dafny model

This project models the logic of a small NestJS/Prisma service that stores
per-device energy measurements and answers two kinds of questions about
them:

* the **measurement front-end** (`MeasurementsService`): a per-device series
  at a chosen resolution (RAW, HOUR, DAY, anything else meaning DAY), where
  the hourly and daily series come from a grouped range query whose bucket
  timestamps are rewritten from `2020-01-01T00:00:00.000Z` to
  `2020-01-01 00:00:00.000`; and the bulk import of a JSON array of records,
  which resolves a device id from two legacy keys and inserts record by
  record, stopping at the first failure;
* the **report analytics** (`ReportsService`): the device/month index, the
  hourly active-power passthrough, the consumption patterns (total, mean,
  peak and low hours) and the daily analysis (power over 24, energy kept).

SQL runs in the database. Here a query result is an input, and the meaning of
the two grouped range queries is given by a reference function
(`BucketQuery.GroupedSums`). Energy and power are `real`, so the arithmetic is
exact.

Files and modules:

| file | module | models |
|---|---|---|
| wrappers.dfy | `Wrappers` | `Option` and `Result` |
| collections.dfy | `Collections` | `IndexOf`, the first-occurrence position used to state the `includes` test and where `replace` inserts the replacement, and the `includes`-then-`push` de-duplication |
| iso_text.dfy | `IsoText` | `replace('T', ' ').replace('Z', '')` on ISO timestamps |
| bucket_query.dfy | `BucketQuery` | the meaning of the hourly/daily SUM query: range filter, `date_trunc`, grouping, ascending order |
| measurements.dfy | `MeasurementsService` | the resolution dispatch and the row post-processing |
| measurement_import.dfy | `MeasurementImport` | key resolution, timestamp wrapping and the import loop |
| reports.dfy | `ReportsService` | the four reports |

Behaviour of the code worth knowing when reading the model:

* The reports return `null` only when the query result is absent
  (`if (!result)`). An empty row array is truthy, so it yields a report. For
  consumption patterns that report has total 0, an undefined mean (NaN in the
  code, `None` here) and two empty lists. For the device/month index it has
  two empty lists.
* The import keeps every field of a record except the alias the device id
  came from.
* A present but falsy `id-dispositivo` (null, `""`, `0`, `false`) shadows
  `uid`, because lodash `get` only falls back when the key is absent. The
  record then gets no `deviceId` at all.
* The active-power interface declares a field `activePower`, but the query
  names the column `activePowerPerHour`. The row type follows the query.

## Model

| member | source | states |
|---|---|---|
| `MeasurementsService.GetMeasurementsByDevice` | src/measurements/measurements.service.ts:181-197 | HOUR gives the hour series, RAW gives the device's full record list (every stored copy) and nothing else, DAY and every other value give the day series, always with the same device and dates |
| `MeasurementsService.UnrecognisedIsDay` | src/measurements/measurements.service.ts:187-195 | an unrecognised resolution yields exactly the DAY response |
| `MeasurementsService.RawIgnoresRange` | src/measurements/measurements.service.ts:192-193 | the RAW response is the same for any two date ranges |
| `MeasurementsService.DeviceHistory` | src/measurements/measurements.service.ts:73-82 | the records returned are exactly the stored records of that device, each as many times as it is stored, and no record of another device |
| `MeasurementsService.GetMeasurementsByDay` | src/measurements/measurements.service.ts:199-223 | one row per bucket of the grouped day query, in its order; each label is the bucket's rewritten ISO string; each energy is the sum of that day's in-range samples of the device |
| `MeasurementsService.GetMeasurementsByHour` | src/measurements/measurements.service.ts:225-254 | the same for hour buckets |
| `MeasurementsService.LabelDays` | src/measurements/measurements.service.ts:216-221 | the post-processing keeps row count, order and every `accumulatedEnergy`, and rewrites only the date |
| `MeasurementsService.LabelHours` | src/measurements/measurements.service.ts:246-251 | the same for the `hour` field |
| `MeasurementsService.OutOfRangeSampleIgnored` | src/measurements/measurements.service.ts:206-209 | a sample outside `[startDate, endDate]` changes no bucket total and no row of the grouped query |
| `MeasurementsService.DayLabelsWellFormed` | src/measurements/measurements.service.ts:216-222 | when `toISOString` renders every day bucket that occurs canonically and distinct such buckets distinctly, every day label is 23 characters with no 'T' or 'Z' and no two rows share a label |
| `MeasurementsService.HourLabelsWellFormed` | src/measurements/measurements.service.ts:246-253 | the same for hour labels, under the same hypotheses on the hour buckets that occur |
| `IsoText.ReplaceFirst` | src/measurements/measurements.service.ts:219-220 | `replace` with a one-character string pattern and a replacement without `$`: the text up to the first occurrence, the replacement, then the rest; the string itself when the character does not occur |
| `IsoText.ReplaceFirstAtIndexOf` | src/measurements/measurements.service.ts:219-220 | a string-pattern `replace` with a replacement holding no `$` splices the replacement in at the first occurrence that `IndexOf` finds, and leaves the string unchanged when the character is absent |
| `IsoText.ReplaceFirstAt` | src/measurements/measurements.service.ts:219-220 | when the first occurrence of the character is at position i, the result is the text before i, the replacement, and the text after i |
| `IsoText.ReplaceFirstAbsent` | src/measurements/measurements.service.ts:219-220 | when the character does not occur, `replace` returns the string unchanged |
| `IsoText.ReplaceFirstLength` | src/measurements/measurements.service.ts:219-220 | the length changes by the replacement's length minus one exactly when the character occurs |
| `IsoText.ReplaceFirstCounts` | src/measurements/measurements.service.ts:219-220 | for every character, the replacement trades exactly one occurrence of the searched character for the replacement's characters, and changes nothing when it is absent |
| `IsoText.BucketLabel` | src/measurements/measurements.service.ts:217-220 | the label is one character shorter when the input has a 'Z'; it holds one 'T' fewer than the input (none if there was none) and one 'Z' fewer (none if there was none) |
| `IsoText.BucketLabelDropsSeparators` | src/measurements/measurements.service.ts:217-220 | an input with exactly one 'T' and one 'Z' gives a label with neither |
| `IsoText.CanonicalLabel` | src/measurements/measurements.service.ts:217-220 | for `YYYY-MM-DDTHH:MM:SS.mmmZ` the label is the date part, a space and the time part: 23 characters, no 'T', no 'Z' |
| `IsoText.CanonicalLabelInjective` | src/measurements/measurements.service.ts:216-221 | distinct canonical timestamps keep distinct labels |
| `IsoText.LabelExample` | src/measurements/measurements.service.ts:217-220 | `2020-01-01T00:00:00.000Z` becomes `2020-01-01 00:00:00.000` |
| `BucketQuery.Selected` | src/measurements/measurements.service.ts:206-209 | the WHERE clause: the sample belongs to the device and its timestamp lies in `[startDate, endDate]`, both ends inclusive |
| `BucketQuery.BucketTotal` | src/measurements/measurements.service.ts:200-203 | the `SUM("activeEnergy")` of one bucket: the energies of the selected samples whose truncated timestamp is that bucket, added in store order, 0 for a bucket with none |
| `BucketQuery.Truncate` | src/measurements/measurements.service.ts:202 | the bucket start is at or before the instant, and the instant lies within one bucket width of it |
| `BucketQuery.TruncateUnique` | src/measurements/measurements.service.ts:232 | the bucket start is the one multiple of the width whose bucket holds the instant |
| `BucketQuery.AddSample` | src/measurements/measurements.service.ts:210-213 | grouping one more sample keeps the buckets strictly ascending and adds its bucket |
| `BucketQuery.AddSampleEnergy` | src/measurements/measurements.service.ts:203 | grouping one more sample adds its energy to its own bucket and to no other |
| `BucketQuery.GroupedSums` | src/measurements/measurements.service.ts:200-214 | the result is strictly ascending; its buckets are exactly the truncations of the selected samples; each bucket's energy is the SUM over its selected samples |
| `BucketQuery.GroupedSumsMeaning` | src/measurements/measurements.service.ts:230-244 | each row's bucket is the truncation of a selected sample and its energy is that bucket's sum; every selected sample has its bucket's row; no zero-filled rows |
| `MeasurementImport.Truthy` | src/measurements/measurements.service.ts:152-159 | JavaScript truthiness of a parsed JSON value: a non-empty string, a non-zero number, `true`, any object or array, and a `Date`; `null`, `""`, `0` and `false` are falsy |
| `MeasurementImport.Get` | src/measurements/measurements.service.ts:146-150 | lodash `get` on a key without dots: the stored value when the key is present, whatever it is, and the default only when it is absent |
| `MeasurementImport.ResolveDeviceId` | src/measurements/measurements.service.ts:146-150 | `get(m, 'id-dispositivo', get(m, 'uid'))`: the `id-dispositivo` value when that key is present, else the `uid` value when that key is present, else nothing |
| `MeasurementImport.NormaliseKeys` | src/measurements/measurements.service.ts:146-157 | a truthy `id-dispositivo` becomes `deviceId` and is removed; otherwise, when `id-dispositivo` is absent, a truthy `uid` becomes `deviceId` and is removed; otherwise the record is unchanged; other fields are kept |
| `MeasurementImport.FalsyAliasShadowsUid` | src/measurements/measurements.service.ts:146-152 | a present but falsy `id-dispositivo` is the resolved id and leaves the record unchanged |
| `MeasurementImport.ConvertTimestamp` | src/measurements/measurements.service.ts:159-161 | a truthy timestamp becomes a date built from it; every other field and every falsy timestamp is kept |
| `MeasurementImport.Prepare` | src/measurements/measurements.service.ts:145-161 | a null element fails with the TypeError text before any insert; an object always yields insert data |
| `MeasurementImport.ImportMeasurements` | src/measurements/measurements.service.ts:142-168 | the store gains the prepared records of a prefix of the file, in file order, and each insert was accepted; earlier records are kept; on full success the message is the success text; otherwise the next element is the first failure and the message is its error |
| `MeasurementImport.FixtureRecord` | src/measurements/measurements.service.ts:145-161 | a record with a non-empty id under either alias and a non-empty timestamp becomes `{deviceId, activeEnergy, timestamp: Date}`, alias dropped |
| `MeasurementImport.ImportFixture` | src/measurements/measurements.service.spec.ts:180-218 | the fixture's `id-dispositivo` record (2020-01-01) and `uid` record (2020-01-02) become `{deviceId, activeEnergy, timestamp: Date}` with their own timestamps |
| `Collections.IndexOf` | src/reports/reports.service.ts:40-41 | -1 exactly when the element is absent; otherwise the position of its first occurrence |
| `Collections.Distinct` | src/reports/reports.service.ts:36-48 | the result has no duplicates, holds exactly the input's elements, and is ordered by first appearance |
| `Collections.DistinctExample` | src/reports/reports.service.ts:39-43 | walking `[x, x, y]` gives `[x, y]`, or `[x]` when y is x |
| `ReportsService.DeviceColumn` | src/reports/reports.service.ts:39-43 | the devices are read row by row, in row order |
| `ReportsService.MonthColumn` | src/reports/reports.service.ts:44-48 | the months are read row by row, in row order |
| `ReportsService.ReportGetAllDevicesAndMonths` | src/reports/reports.service.ts:20-51 | null exactly when the result is absent; otherwise the devices and months each have no duplicates, hold exactly the values in the rows, and are ordered by first appearance |
| `ReportsService.DeviceMonthExample` | src/reports/reports.service.ts:36-50 | rows (d1,m1),(d1,m1),(d2,m1) give devices [d1,d2] and months [m1] |
| `ReportsService.ReportActivePower` | src/reports/reports.service.ts:61-84 | null exactly when the result is absent; otherwise the rows come back with the same length, order and contents |
| `ReportsService.TotalConsumption` | src/reports/reports.service.ts:117-120 | the `reduce`: the left fold of `+` over `energyPerHour`, starting from 0, in row order |
| `ReportsService.TotalSplit` | src/reports/reports.service.ts:117-120 | the reduced total is additive over any split of the rows |
| `ReportsService.Mean` | src/reports/reports.service.ts:122 | the mean exists exactly for non-empty rows, and then mean times row count is the total |
| `ReportsService.FilterMembership` | src/reports/reports.service.ts:127-133 | a row is a peak row iff it is above the average, a low row iff below, and neither iff equal |
| `ReportsService.ThreeWayPartition` | src/reports/reports.service.ts:124-133 | the above, below and equal rows together are a permutation of the rows |
| `ReportsService.AboveBelowSnoc` | src/reports/reports.service.ts:127-133 | appending a row extends exactly the list its comparison selects |
| `ReportsService.Classify` | src/reports/reports.service.ts:124-133 | the `forEach` walk: each row, in order, is pushed to the peak list when strictly above the average, to the low list when strictly below, and to neither when equal |
| `ReportsService.ClassifyIsFilter` | src/reports/reports.service.ts:124-133 | the push loop produces exactly the order-preserving filters above and below the average |
| `ReportsService.ReportConsumptionPatterns` | src/reports/reports.service.ts:95-141 | null exactly when the result is absent; otherwise the total is the reduced sum, the average exists iff there are rows and times the row count is the total, peak and low hours are the rows strictly above and strictly below it in order, and no rows give total 0 and empty lists |
| `ReportsService.TotalAtMost` | src/reports/reports.service.ts:117-120 | rows all at most a value total at most count times it |
| `ReportsService.TotalBelow` | src/reports/reports.service.ts:117-120 | and strictly less when one row is below it |
| `ReportsService.TotalAtLeast` | src/reports/reports.service.ts:117-120 | rows all at least a value total at least count times it |
| `ReportsService.TotalAbove` | src/reports/reports.service.ts:117-120 | and strictly more when one row is above it |
| `ReportsService.EmptyFilters` | src/reports/reports.service.ts:127-133 | no peak row iff every row is at most the average; no low row iff every row is at least it |
| `ReportsService.MeanSplit` | src/reports/reports.service.ts:122-133 | around the true mean, no row above iff every row equals it iff no row below |
| `ReportsService.EmptinessLink` | src/reports/reports.service.ts:122-139 | peak hours are empty iff lowest hours are empty iff all rows have equal energy (or there are none) |
| `ReportsService.PatternsExample` | src/reports/reports.service.ts:117-139 | energies 100, 200, 300 give total 600, average 200, peak [300], low [100] |
| `ReportsService.SingleRowExample` | src/reports/reports.service.spec.ts:51-66 | one row of 200 gives total 200, average 200 and two empty lists |
| `ReportsService.EmptyRowsReport` | src/reports/reports.service.ts:113-140 | an empty row list is not null: total 0, no average, two empty lists |
| `ReportsService.DailyAveragePower` | src/reports/reports.service.ts:173 | the average times 24 is the day's power; a NULL power sum gives 0 |
| `ReportsService.AvgPowerRows` | src/reports/reports.service.ts:170-176 | same length and order; row i keeps date and device and carries power over 24 |
| `ReportsService.ActiveEnergyRows` | src/reports/reports.service.ts:177-183 | same length and order; row i keeps date, device and energy |
| `ReportsService.ReportConsumptionAnalysis` | src/reports/reports.service.ts:150-189 | null exactly when the result is absent; otherwise two lists of the rows' length, element i carrying row i's date and device with power over 24 and energy kept |
| `ReportsService.AnalysisRoundTrip` | src/reports/reports.service.ts:170-188 | when every day has a power figure, the two lists zip back into exactly the query rows |
| `ReportsService.AnalysisExample` | src/reports/reports.service.spec.ts:68-80 | power 200 gives 200/24 and energy 4800 stays 4800; power 4800 gives 200 |

## Left out

- SQL execution: the raw queries, `date_trunc`, `TO_CHAR`, DISTINCT, GROUP BY and ORDER BY are the database's. The report rows are inputs taken as given. In particular the reports order only by hour, so the order of devices within one hour is whatever the database returns. For the hourly and daily series, `BucketQuery.GroupedSums` is a reference for the query's meaning; buckets are UTC hours and days in milliseconds since the epoch.
- Store failures: an exception raised by a query propagates to the caller. On the RAW path `findOneDevice` catches it and throws a plain `Error` carrying only the original message, so the Prisma error's class and fields are lost; elsewhere it propagates unchanged. The model states the successful path only; an absent result stands for the falsy value the guard tests.
- CRUD wrappers `create`, `findAll`, `findOne`, `update`, `remove` and `removeAll` only forward to Prisma and rethrow. `findOneDevice` is modelled as `DeviceHistory`, a filter in store order; Prisma promises no order without `orderBy`.
- Controllers, modules and dependency injection: HTTP routing, turning query strings into `Date` values and into the resolution enum.
- Parsing: the file buffer and `JSON.parse` are outside the model. The import input is the parsed array. Elements other than `null` or an object, and a file that is not an array, are not modelled.
- Dates: `new Date(x)` in the import is the opaque value `DateOf(x)`. `toISOString` is the parameter `toIso`, and its calendar conversion is not modelled; years outside 0000-9999, which it writes in extended form, are covered only by the general `BucketLabel` facts.
- Floating point: rounding, NaN and the Decimal/BigInt values SQL sums may return. Arithmetic is exact on `real`. The NaN mean over no rows is `None`, and NaN comparisons giving no peak or low rows are stated directly. The sharpest consequence: with doubles, three rows of 0.1 sum to 0.30000000000000004 and average 0.10000000000000002, so all three land in `lowestHours` and `peakHours` is empty; `ReportsService.MeanSplit` and `ReportsService.EmptinessLink` hold only in exact arithmetic.
- `IsoText.ReplaceFirst` inserts the replacement literally, whereas JavaScript's `replace` expands `$&`, `$$`, `` $` `` and `$'` in it; the two replacements the code uses, `" "` and `""`, contain no `$`, so they agree there.
- Measurement ids and the insert's own validation: the insert is the parameter `create`, which may accept or reject each record given the records stored so far.
- `Resolution.Unrecognised(name)` stands only for a query value equal to none of `DAY`, `HOUR` and `RAW`; the datatype does not enforce this, and `Unrecognised("HOUR")` is not a value the switch can receive.
- Async/await and promise plumbing; the logic is sequential.
- `MeasurementImport.NullEntryMessage`: the error text for a null array element is the V8 wording; other engines word it differently.
