# fare-exposure-anchor: the filtering-and-aggregation engine in Dafny

The exposure dashboard logs fare "exposures". Each exposure is one price
shown for a flight search, with its airline, route, trip type, channel and
session. The dashboard answers questions about these rows. This project
models the engine behind those answers and proves what it promises.

- **Request normalisation** (`Validators`). The query-string schema becomes
  a total function from the decoded parameters to a parsed query or a list
  of issues. The same holds for the exact-price schema and the ingestion
  event schema. Blank filters and `"all"` mean "no constraint". Dates are
  kept only when they have the strict `YYYY-MM-DD` shape.
  `requireExposureFilters` names the first blank route field.
- **Query semantics** (`Query`). The record store is a sequence of rows, or
  an error. The chained query builder becomes the list of constraints it
  accumulates, read as a conjunction. That is followed by "newest first"
  and, for the exact-price lookup, a limit of 50. The comma-separated
  airline list becomes an equality for one code, a membership for several,
  and nothing for none.
- **Aggregates** (`Metrics`):
  - nearest-rank percentiles;
  - the fixed-width price histogram with zero-filled gaps;
  - its first-maximum mode bin;
  - the hourly timeseries of count, rounded mean and median.

  The histogram and timeseries loops are methods proved equal to
  specification functions, and the properties are proved about those
  functions.
- **Routes**:
  - the summary (`SummaryRoute`): totals, distinct sessions, percentiles,
    anchor and mode bin;
  - the exact-price tally, ranked and cut to 50 (`PriceCountsRoute`);
  - the exact-price drill-down, with hour bins, events and anchor
    differences (`ByPriceRoute`).
- **The dashboard's required-filter check** (`DashboardTypes`).

Shared pieces live in their own modules:

- `Seqs`: counting, first-occurrence order, filtering, sums and tallies.
- `Sorting`: the stable sort by an integer key, and the string order used
  by `localeCompare`.
- `Text`: JavaScript's `trim`, `split`, `join`, the date shape and
  `Number(string)`.
- `Responses`: the response shape of a handler.

The clock, the store, the local-time hour formatting and zod's message
texts are not computed by the model. They are parameters: `now`, `store`,
`hourKey`, `describe` and `errorMessage`.

Two facts about the code shape the model:

- Timeseries hour keys come from local-time getters with a literal `Z`
  appended, so they are not UTC hours. The key function is therefore a
  parameter.
- `requireExposureFilters` is defined but no route calls it. It is
  modelled on its own.

## Model

| member | source | states |
|---|---|---|
| Metrics.ComputePercentiles | fare-exposure-anchor/src/lib/metrics.ts:7-21 | no prices give 0 for every percentile |
| Metrics.RankIndex | fare-exposure-anchor/src/lib/metrics.ts:15 | the index is the smallest position whose rank `(idx + 1) / n` reaches `p / 100`: `(idx+1)*100 >= p*n`, and `idx*100 < p*n` when it is above 0 |
| Metrics.ValueAt | fare-exposure-anchor/src/lib/metrics.ts:16-19 | `sorted[idx] ?? 0` is the element at the index, or 0 past the end |
| Metrics.NearestRank | fare-exposure-anchor/src/lib/metrics.ts:14-19 | for 0 <= p <= 100 and a non-empty list, the percentile is one of the prices |
| Metrics.RankIndexInRange | fare-exposure-anchor/src/lib/metrics.ts:15 | for 0 <= p <= 100 and a non-empty list, the index lies inside the list |
| Metrics.RankIndexMonotone | fare-exposure-anchor/src/lib/metrics.ts:15 | a higher percentile never takes a lower index |
| Metrics.NearestRankIsPrice | fare-exposure-anchor/src/lib/metrics.ts:14-20 | each percentile of a non-empty list is one of its prices |
| Metrics.NearestRankCharacterised | fare-exposure-anchor/src/lib/metrics.ts:14-20 | the percentile v is characterised without sorting: at least p% of prices are <= v and fewer than p% are < v |
| Metrics.Ascending | fare-exposure-anchor/src/lib/metrics.ts:14 | the sorted copy is a permutation of the prices, in non-decreasing order |
| Metrics.AscendingOfSorted | fare-exposure-anchor/src/lib/metrics.ts:14 | sorting prices that are already ascending leaves them unchanged |
| Metrics.DefaultPercentilesOrdered | fare-exposure-anchor/src/lib/metrics.ts:13-20 | p25 <= p50 <= p75; all three are prices of the list, or all 0 when it is empty |
| Metrics.DefaultPercentiles | fare-exposure-anchor/app/api/exposures/summary/route.ts:18 | with the default percentiles 25, 50 and 75, p25 <= p50 <= p75 |
| Metrics.PercentilesOfFour | fare-exposure-anchor/src/lib/metrics.ts:15-20 | four ascending prices (e.g. 100, 200, 300, 400) give p25, p50, p75 equal to the first three |
| Metrics.BinOf | fare-exposure-anchor/src/lib/metrics.ts:39 | `floor(p / binSize) * binSize` is the multiple of binSize with `b <= p < b + binSize` |
| Metrics.CeilTo | fare-exposure-anchor/src/lib/metrics.ts:35 | `ceil(p / binSize) * binSize` is the multiple of binSize with `c - binSize < p <= c` |
| Metrics.Min | fare-exposure-anchor/src/lib/metrics.ts:32 | the result is a price, at or below every price |
| Metrics.Max | fare-exposure-anchor/src/lib/metrics.ts:33 | the result is a price, at or above every price |
| Metrics.Grid | fare-exposure-anchor/src/lib/metrics.ts:37 | the seeding loop's keys are increasing and lie in `[low, high)` |
| Metrics.GridMembers | fare-exposure-anchor/src/lib/metrics.ts:37 | from a multiple `low`, a key is seeded iff it is a multiple of the step in `[low, high)` |
| Metrics.GridShape | fare-exposure-anchor/src/lib/metrics.ts:37 | the seeded keys start at `low`, lie one step apart and reach within a step of `high`; there are none iff `low >= high` |
| Metrics.SeedBins | fare-exposure-anchor/src/lib/metrics.ts:37 | the seeding loop leaves a zero count for exactly the grid keys, in insertion order |
| Metrics.AddPrices | fare-exposure-anchor/src/lib/metrics.ts:38-41 | the counting loop leaves each key's count equal to the number of prices in its bin; keys stay distinct; new bins are appended |
| Metrics.TallyEntries | fare-exposure-anchor/src/lib/metrics.ts:42-44 | the map's entries, in key order of insertion, become bins `[k, k + binSize)` with the key's count |
| Metrics.HistogramKey | fare-exposure-anchor/src/lib/metrics.ts:34-41 | a key is seeded or holds a price iff it is a multiple of binSize from the lowest price's bin to the highest price's bin |
| Metrics.HistogramKeys | fare-exposure-anchor/src/lib/metrics.ts:34-41 | the map's keys are exactly that run of multiples |
| Metrics.SortedTallyIsHistogram | fare-exposure-anchor/src/lib/metrics.ts:42-44 | sorting right bins that cover the run once each gives the histogram |
| Metrics.AssembledTally | fare-exposure-anchor/src/lib/metrics.ts:42-44 | sorting the bins built from the finished map gives the histogram |
| Metrics.ComputeHistogram | fare-exposure-anchor/src/lib/metrics.ts:27-45 | the seed, count and sort steps return the histogram of the prices |
| Metrics.HistogramShape | fare-exposure-anchor/src/lib/metrics.ts:31-44 | no bins iff no prices; bins have width binSize and start at multiples of it; each bin starts where the previous ends; the first and last hold the lowest and highest price's bins |
| Metrics.HistogramStartsShape | fare-exposure-anchor/src/lib/metrics.ts:34-37 | the listed starts run gap-free from the lowest price's bin to the highest's |
| Metrics.HistogramCovers | fare-exposure-anchor/src/lib/metrics.ts:38-41 | every bin a price falls into is among the histogram's bins |
| Metrics.HistogramHasEveryPrice | fare-exposure-anchor/src/lib/metrics.ts:38-41 | the bin of each price is in the histogram |
| Metrics.HistogramCountAt | fare-exposure-anchor/src/lib/metrics.ts:40 | each bin's count is the number of prices whose bin starts at its start |
| Metrics.HistogramCountsTotal | fare-exposure-anchor/src/lib/metrics.ts:38-41 | the bin counts sum to the number of prices |
| Metrics.HistogramConserves | fare-exposure-anchor/src/lib/metrics.ts:38-41 | every price is counted exactly once: its bin is present and the counts sum to the list length |
| Metrics.HistogramOfOne | fare-exposure-anchor/src/lib/metrics.ts:31-44 | a single price gives exactly one bin, holding it with count 1 |
| Metrics.HistogramSinglePrice | fare-exposure-anchor/src/lib/metrics.ts:34-44 | 500000 in bins of 10000 gives exactly `[500000, 510000)` with count 1 |
| Metrics.ModeBin | fare-exposure-anchor/src/lib/metrics.ts:47-52 | null iff there are no bins |
| Metrics.Best | fare-exposure-anchor/src/lib/metrics.ts:51 | the reduction returns its start value or a later bin, whose count is at least the start's and at least every later count |
| Metrics.BestFindsFirstMax | fare-exposure-anchor/src/lib/metrics.ts:51 | continuing the reduction from the first maximum of a prefix finds the first maximum of the whole list |
| Metrics.ModeBinIsFirstMax | fare-exposure-anchor/src/lib/metrics.ts:50-51 | the mode bin has a count at least every other count, and it is the earliest such bin because `>` is strict |
| Metrics.HoursOf | fare-exposure-anchor/src/lib/metrics.ts:65-66 | one hour key per row, in row order |
| Metrics.PricesIn | fare-exposure-anchor/src/lib/metrics.ts:67-68 | an hour's price list has one entry per row in that hour |
| Metrics.Pushed | fare-exposure-anchor/src/lib/metrics.ts:67-68 | after the push the key is present, its list ends with the price, and no other key appears |
| Metrics.GroupStep | fare-exposure-anchor/src/lib/metrics.ts:64-69 | one iteration extends a correct grouping of a prefix to a correct grouping of the next prefix |
| Metrics.GroupedMeaning | fare-exposure-anchor/src/lib/metrics.ts:63-69 | the grouping holds exactly the rows' hours, each with its rows' prices in row order |
| Metrics.GroupByHour | fare-exposure-anchor/src/lib/metrics.ts:63-69 | the loop's map holds each hour's prices in row order, with its keys in first-appearance order |
| Metrics.RoundedMean | fare-exposure-anchor/src/lib/metrics.ts:76-77 | the average is within half a unit of the exact mean, with halves rounded up |
| Metrics.PointsFrom | fare-exposure-anchor/src/lib/metrics.ts:72-78 | one point per hour, summarising that hour's price list |
| Metrics.PointOf | fare-exposure-anchor/src/lib/metrics.ts:72-78 | a point keeps its hour and counts its prices; its average and median lie between the cheapest and dearest price |
| Metrics.PointsFromGrouping | fare-exposure-anchor/src/lib/metrics.ts:70-78 | summarising the grouped lists in sorted hour order gives the timeseries |
| Metrics.ComputeTimeseries | fare-exposure-anchor/src/lib/metrics.ts:57-79 | the grouping, sort and summary steps return the timeseries of the rows |
| Metrics.HourHasRows | fare-exposure-anchor/src/lib/metrics.ts:67-68 | every listed hour has at least one price |
| Metrics.TimeseriesHours | fare-exposure-anchor/src/lib/metrics.ts:70-71 | one point per distinct hour key, keys strictly ascending, and no key without rows |
| Metrics.RowHourInSeries | fare-exposure-anchor/src/lib/metrics.ts:64-69 | every row's hour appears in the series |
| Metrics.TimeseriesCount | fare-exposure-anchor/src/lib/metrics.ts:77 | each point's count is the number of rows in its hour, at least 1 |
| Metrics.TimeseriesCountsTotal | fare-exposure-anchor/src/lib/metrics.ts:63-77 | the point counts sum to the number of rows |
| Metrics.MedianExample | fare-exposure-anchor/src/lib/metrics.ts:73-75 | the median of [100, 200, 300] is 200, and of [100, 200] is 150 |
| Metrics.Median | fare-exposure-anchor/src/lib/metrics.ts:73-75 | twice the median is the sum of the two middle elements, which coincide for an odd length |
| Metrics.MedianBetween | fare-exposure-anchor/src/lib/metrics.ts:73-75 | the median lies between the hour's cheapest and dearest price |
| Metrics.RoundedMeanBetween | fare-exposure-anchor/src/lib/metrics.ts:76-77 | the rounded mean lies between the hour's cheapest and dearest price |
| Metrics.TimeseriesSummaries | fare-exposure-anchor/src/lib/metrics.ts:72-78 | every point's average and median lie within its hour's price range |
| Query.SinceDate | fare-exposure-anchor/src/lib/query.ts:6-9 | the window starts 7 days before `now` for "7d" and 24 hours before it otherwise |
| Query.WeekIncludesDay | fare-exposure-anchor/src/lib/query.ts:6-9 | with the same filters, the 24-hour result is a sub-multiset of the 7-day result |
| Query.TrimEach | fare-exposure-anchor/src/lib/query.ts:23 | each piece is trimmed |
| Query.NonEmptyOnly | fare-exposure-anchor/src/lib/query.ts:23 | `filter(Boolean)` keeps exactly the non-empty pieces |
| Query.ParseAirlines | fare-exposure-anchor/src/lib/query.ts:23 | the codes are non-empty and trimmed |
| Query.ParseAirlinesCodes | fare-exposure-anchor/src/lib/query.ts:23 | a code is listed iff it is a non-empty trimmed piece of the comma split |
| Query.NoCommaSingleCode | fare-exposure-anchor/src/lib/query.ts:23-24 | text without a comma that is not blank gives exactly one code, itself trimmed |
| Query.BlankFilterHasNoCodes | fare-exposure-anchor/src/lib/query.ts:22-26 | blank text without a comma gives no codes |
| Query.AirlineConstraints | fare-exposure-anchor/src/lib/query.ts:22-26 | one code gives an equality, two or more a membership, none adds nothing |
| Query.CodesConstraintMeaning | fare-exposure-anchor/src/lib/query.ts:24-25 | either form admits a row iff its airline is one of the codes |
| Query.AirlineConstraintsMeaning | fare-exposure-anchor/src/lib/query.ts:22-26 | the airline step admits a row iff there is no filter, the filter has no codes, or the airline is a code |
| Query.PresentEqMeaning | fare-exposure-anchor/src/lib/query.ts:27-30 | an absent or empty filter adds no predicate; otherwise the column must equal it |
| Query.PresentDateEqMeaning | fare-exposure-anchor/src/lib/query.ts:31-32 | a date filter blank after trimming adds nothing; otherwise a NULL or different date is excluded |
| Query.BoundMeaning | fare-exposure-anchor/src/lib/query.ts:33-34 | price bounds are inclusive and apply whenever present, 0 included |
| Query.QueryConstraints | fare-exposure-anchor/src/lib/query.ts:17-34 | the chain starts with the window step and holds 1 to 10 steps |
| Query.QueryConstraintsMeaning | fare-exposure-anchor/src/lib/query.ts:20-34 | a row passes the whole builder chain iff it is in the window and meets every present filter and bound |
| Query.NewestFirst | fare-exposure-anchor/src/lib/query.ts:36 | ordering by ts descending is a permutation with non-increasing ts |
| Query.Selected | fare-exposure-anchor/src/lib/query.ts:17-34 | exactly the store rows passing every constraint, with their multiplicities |
| Query.NewestMatching | fare-exposure-anchor/src/lib/query.ts:17-36 | the matching rows, each as often as in the store, newest first |
| Query.NewestMatchingFromStore | fare-exposure-anchor/src/lib/query.ts:17-36 | the result is a sub-multiset of the store |
| Query.NewestMatchingQuery | fare-exposure-anchor/src/lib/query.ts:17-36 | the rows selected by the query's constraints are exactly the rows matching the query |
| Query.FetchFilteredExposures | fare-exposure-anchor/src/lib/query.ts:11-39 | a store error is rethrown as the same value, never turned into an empty list; otherwise every matching row is returned, only those, newest first |
| Query.WindowAndPriceMeaning | fare-exposure-anchor/src/lib/query.ts:63-64 | the first two steps admit rows in the window at exactly the requested price |
| Query.ChannelConstraintMeaning | fare-exposure-anchor/src/lib/query.ts:74 | channel "all", empty or absent adds no constraint |
| Query.ByPriceConstraints | fare-exposure-anchor/src/lib/query.ts:59-74 | the chain starts with the window step and the exact-price step and holds 2 to 7 steps |
| Query.ByPriceConstraintsMeaning | fare-exposure-anchor/src/lib/query.ts:59-74 | a row passes the exact-price chain iff it matches the lookup |
| Query.NewestMatchingByPrice | fare-exposure-anchor/src/lib/query.ts:59-76 | the rows the lookup selects are exactly the matching rows |
| Query.ByPriceCandidates | fare-exposure-anchor/src/lib/query.ts:59-76 | before the limit: every matching row, only those, newest first; a sub-multiset of the store |
| Query.Limit | fare-exposure-anchor/src/lib/query.ts:76 | `.limit(n)` keeps the first `min(n, length)` rows unchanged, a sub-multiset of its input |
| Query.LimitKeepsNewest | fare-exposure-anchor/src/lib/query.ts:76 | nothing is cut when all rows fit; a cut row is no newer than any kept row |
| Query.PrefixKeepsNewest | fare-exposure-anchor/src/lib/query.ts:76 | a row missing from a newest-first prefix is no newer than the prefix's rows |
| Query.LimitedCandidates | fare-exposure-anchor/src/lib/query.ts:76 | the limited rows still match the lookup and stay newest first |
| Query.FetchExposuresByPrice | fare-exposure-anchor/src/lib/query.ts:55-79 | a store error is rethrown as the same value; otherwise at most 50 rows, a sub-multiset of the store, each at exactly the price and matching the filters, newest first |
| Query.ByPriceKeepsNewest | fare-exposure-anchor/src/lib/query.ts:76 | the result is the first `min(50, matches)` matching rows, a sub-multiset of them, all of them when they fit; any cut row is no newer than every kept row |
| Query.Prices | fare-exposure-anchor/app/api/exposures/summary/route.ts:16 | one price per row, in row order |
| Validators.NormalizeFilter | fare-exposure-anchor/src/lib/validators.ts:37-44 | a kept filter is trimmed and neither "" nor "all"; a filter is dropped iff it is missing or trims to "" or "all" |
| Validators.NormalizeFilterIdempotent | fare-exposure-anchor/src/lib/validators.ts:37-44 | normalising a second time changes nothing |
| Validators.NormalizedBlankIsAbsent | fare-exposure-anchor/src/lib/validators.ts:37-44 | a normalised filter is blank iff it is absent |
| Validators.FilterField | fare-exposure-anchor/src/lib/validators.ts:37-44 | the field fails only when it is present and not a string; otherwise it is the normalised text |
| Validators.NormalizeDate | fare-exposure-anchor/src/lib/validators.ts:55-68 | a date is kept iff its trimmed text is `YYYY-MM-DD`, and then it is that trimmed text |
| Validators.CoerceNumber | fare-exposure-anchor/src/lib/validators.ts:54 | `Number(...)` of a number is itself, of a boolean 1 or 0, of `null` or blank text 0, of a digit string its decimal value; an array or object is NaN |
| Validators.DateField | fare-exposure-anchor/src/lib/validators.ts:55-68 | the field fails only when it is present and not a string; otherwise it is the normalised date |
| Validators.DateNeverRefused | fare-exposure-anchor/src/lib/validators.ts:55-61 | any departure-date text leaves an accepted query accepted, and the date is kept iff it has the date shape |
| Validators.PeriodOf | fare-exposure-anchor/src/lib/validators.ts:53 | only "24h" and "7d" are accepted |
| Validators.DefaultedPeriod | fare-exposure-anchor/src/lib/validators.ts:53 | an absent period is "24h"; a present one is checked |
| Validators.IntChecks | fare-exposure-anchor/src/lib/validators.ts:54 | a number passes iff it is whole and at least the minimum |
| Validators.CoercedInt | fare-exposure-anchor/src/lib/validators.ts:54 | a coerced value passes iff `Number(...)` gives a whole number at least the minimum, and the result is that number |
| Validators.DigitTextAccepted | fare-exposure-anchor/src/lib/validators.ts:54 | digit text at least the minimum is accepted as its decimal value |
| Validators.NegativeTextRefused | fare-exposure-anchor/src/lib/validators.ts:54 | "-" followed by a positive digit string is refused as too small for a minimum of 0 or more |
| Validators.FractionalTextRefused | fare-exposure-anchor/src/lib/validators.ts:54 | digits, a point and a non-zero fraction are refused as not an integer |
| Validators.RefusedWhenNotWhole | fare-exposure-anchor/src/lib/validators.ts:54 | any value that coerces to a number that is not whole is refused as not an integer |
| Validators.OptionalInt | fare-exposure-anchor/src/lib/validators.ts:69-70 | absent is accepted as none; a present value gives exactly the result of the coerced whole-number check on it |
| Validators.DebugField | fare-exposure-anchor/src/lib/validators.ts:71 | debug is true iff the raw value is the string "1" or a non-string that coerces to 1 |
| Validators.ParseExposureQuery | fare-exposure-anchor/src/lib/validators.ts:47-72 | accepted iff every field is valid on the input (text filters and dates, period "24h"/"7d", whole binSize >= 10000, whole prices >= 0, a usable debug); a rejection has issues; an accepted query has the normalised filters and dates, period Week iff "7d" (default "24h"), binSize the coerced value (default 10000), prices present iff given and equal to their coerced values |
| Validators.ParsedQueryIsNormal | fare-exposure-anchor/src/lib/validators.ts:47-68 | every filter of a parsed query is absent or trimmed and neither "" nor "all"; every date is absent or `YYYY-MM-DD` |
| Validators.RequireExposureFiltersFirstBlank | fare-exposure-anchor/src/lib/validators.ts:77-83 | null iff the four route fields are all non-blank; otherwise the message names the first blank one in the order airline, origin, dest, tripType |
| Validators.RequireOnParsedQuery | fare-exposure-anchor/src/lib/validators.ts:77-83 | on a parsed query the check passes iff the four route filters are present |
| Validators.RequireExposureFilters | fare-exposure-anchor/src/lib/validators.ts:77-83 | null iff the four route fields are all non-blank; otherwise a message starting "missing required filters: " |
| Validators.NonEmptyString | fare-exposure-anchor/src/lib/validators.ts:7-13 | accepted iff the field is a string of length at least 1, kept as given |
| Validators.OptionalString | fare-exposure-anchor/src/lib/validators.ts:119 | absent is none; a string is kept as given; anything else fails |
| Validators.ParseByPriceQuery | fare-exposure-anchor/src/lib/validators.ts:112-121 | accepted iff the price coerces to a whole number >= 0, the period is "24h"/"7d", the four route fields are non-empty text, the channel is text if given and the anchor a whole number >= 0 if given; the parsed values are the given texts and coerced numbers |
| Validators.TripTypeField | fare-exposure-anchor/src/lib/validators.ts:10 | accepted iff the field is one of "OW", "RT", "MC" |
| Validators.StrictInt | fare-exposure-anchor/src/lib/validators.ts:14-15 | without coercion, accepted iff the value is a JSON number that is whole and at least the minimum |
| Validators.RequiredStrictInt | fare-exposure-anchor/src/lib/validators.ts:14-15 | a missing field fails; a present one passes iff it is a whole JSON number at least the minimum, and the result is that number |
| Validators.OptionalIsoDate | fare-exposure-anchor/src/lib/validators.ts:18-19 | accepted iff absent or a `YYYY-MM-DD` string; the kept value is the given text |
| Validators.ParseExposureEvent | fare-exposure-anchor/src/lib/validators.ts:5-21 | accepted iff ts is a date-time string, the six text fields are non-empty, trip_type is OW/RT/MC, rank and price are whole JSON numbers >= 0, currency is text and is_discounted a boolean when given, and the dates are `YYYY-MM-DD` when given; the event holds exactly those values, currency "KRW" and no discount by default |
| Text.LeadingSpace | fare-exposure-anchor/src/lib/validators.ts:41 | the count covers only whitespace and stops at the first non-space character |
| Text.TrailingSpace | fare-exposure-anchor/src/lib/validators.ts:41 | the count covers only whitespace and stops at the last non-space character |
| Text.Trim | fare-exposure-anchor/src/lib/validators.ts:41 | the result has no whitespace at either end and is the middle slice of `s` after its leading whitespace, with only whitespace after it |
| Text.TrimSlices | fare-exposure-anchor/src/lib/validators.ts:41 | cutting whitespace runs bounded by non-space characters leaves trimmed text that is the middle slice |
| Text.BlankIffAllSpace | fare-exposure-anchor/src/lib/validators.ts:41-42 | text trims to "" iff it is all whitespace |
| Text.TrimOfTrimmed | fare-exposure-anchor/src/lib/validators.ts:41 | trimming text without whitespace at its ends leaves it unchanged |
| Text.TrimIdempotent | fare-exposure-anchor/src/lib/validators.ts:41-43 | trimming twice equals trimming once, and text is its own trim iff it is trimmed |
| Text.Split | fare-exposure-anchor/src/lib/query.ts:23 | at least one piece, none containing the separator |
| Text.SplitJoin | fare-exposure-anchor/src/lib/query.ts:23 | joining the pieces with the separator gives back the text |
| Text.Join | fare-exposure-anchor/app/api/exposures/summary/route.ts:39 | no parts join to ""; otherwise the text starts with the first part, then the separator when more parts follow |
| Text.ParseNumber | fare-exposure-anchor/src/lib/validators.ts:54 | blank text coerces to 0 |
| Text.ParseNumberIgnoresSpace | fare-exposure-anchor/src/lib/validators.ts:54 | surrounding whitespace does not change the coerced number |
| Text.ParseDigits | fare-exposure-anchor/src/lib/validators.ts:54 | a string of digits coerces to its decimal value |
| Text.ParseSignedDigits | fare-exposure-anchor/src/lib/validators.ts:54 | a sign followed by digits coerces to the signed decimal value |
| Text.ParseDecimalFraction | fare-exposure-anchor/src/lib/validators.ts:54 | digits, a point and digits coerce to the whole part plus the fraction |
| Text.ParseFractionBetween | fare-exposure-anchor/src/lib/validators.ts:54 | with a non-zero fraction the value lies strictly between the whole part and the next integer |
| Text.IsIsoDate | fare-exposure-anchor/src/lib/validators.ts:60 | text of the date shape has 10 characters and no surrounding whitespace |
| Text.LeadingNonSpaceNotBlank | fare-exposure-anchor/src/components/dashboard/types.ts:40 | text starting with a non-space character is not blank after trimming |
| Sorting.SortBy | fare-exposure-anchor/app/api/exposures/price-counts/route.ts:24 | the sort is a permutation and ordered by the key |
| Sorting.SortByStable | fare-exposure-anchor/app/api/exposures/price-counts/route.ts:24 | the elements with any one key keep their relative order |
| Sorting.SortByStableOrder | fare-exposure-anchor/app/api/exposures/price-counts/route.ts:18-24 | two elements with the same key stay in their input order |
| Sorting.SortStrings | fare-exposure-anchor/src/lib/metrics.ts:70-71 | sorting the hour keys is a permutation |
| Sorting.Below | fare-exposure-anchor/src/lib/metrics.ts:71 | no key is below itself, and a proper prefix is below the longer key |
| Sorting.SortStringsAscending | fare-exposure-anchor/src/lib/metrics.ts:70-71 | distinct keys come out strictly ascending, with the same members |
| Sorting.BelowTotal | fare-exposure-anchor/src/lib/metrics.ts:71 | any two different keys are ordered one way or the other |
| Sorting.BelowTransitive | fare-exposure-anchor/src/lib/metrics.ts:71 | the key order is transitive |
| Sorting.IncreasingUnique | fare-exposure-anchor/src/lib/metrics.ts:42-43 | two increasing lists with the same members are equal, so the sorted bin starts are determined by the key set |
| SummaryRoute.SessionIds | fare-exposure-anchor/app/api/exposures/summary/route.ts:22 | one session id per row, in row order |
| SummaryRoute.SummaryOf | fare-exposure-anchor/app/api/exposures/summary/route.ts:16-34 | totalExposures is the row count; anchorPrice is p50; uniqueSessions is at most the total; zero rows give all zeros and no mode bin |
| SummaryRoute.UniqueSessionsCounted | fare-exposure-anchor/app/api/exposures/summary/route.ts:22 | uniqueSessions is the number of distinct session ids, at least 1 when there are rows |
| SummaryRoute.AnchorIsMedian | fare-exposure-anchor/app/api/exposures/summary/route.ts:18 | the anchor is a fetched price; at least half the prices are at or below it and fewer than half below it; p25 <= anchor <= p75 |
| SummaryRoute.ModeBinBounds | fare-exposure-anchor/app/api/exposures/summary/route.ts:19-33 | a mode bin exists iff there are rows; it spans 50000, starts at a multiple of 50000, has count between 1 and totalExposures, and no bin has more |
| SummaryRoute.IssuesText | fare-exposure-anchor/app/api/exposures/summary/route.ts:38-40 | the issue messages joined by "; " whenever that join is non-empty, and otherwise the error's own message; no issues give the error's message, and a non-empty first message starts the text |
| Responses.CaughtMessage | fare-exposure-anchor/app/api/exposures/summary/route.ts:40 | an `Error` gives its own message; any other thrown value gives "Bad request" |
| SummaryRoute.Get | fare-exposure-anchor/app/api/exposures/summary/route.ts:11-46 | a rejected query gives 400 with the joined issue text; a store error gives 500 with the thrown error's message, or "Bad request" when it is not an `Error`; success is the summary of the fetched rows |
| PriceCountsRoute.Entries | fare-exposure-anchor/app/api/exposures/price-counts/route.ts:18-23 | one entry per distinct price, in first-appearance order, with its number of rows |
| PriceCountsRoute.ByCountDescending | fare-exposure-anchor/app/api/exposures/price-counts/route.ts:24 | the sort key is the negated count, so ascending keys are descending counts |
| PriceCountsRoute.Ranked | fare-exposure-anchor/app/api/exposures/price-counts/route.ts:24 | the ranking is a permutation of the entries with non-increasing counts |
| PriceCountsRoute.TallyPrices | fare-exposure-anchor/app/api/exposures/price-counts/route.ts:18-21 | the loop's map gives each price its number of rows, keys in first-appearance order |
| PriceCountsRoute.Items | fare-exposure-anchor/app/api/exposures/price-counts/route.ts:10-25 | at most 50 items |
| PriceCountsRoute.PriceCountItems | fare-exposure-anchor/app/api/exposures/price-counts/route.ts:18-25 | the tally, sort and slice return the ranked first 50 entries |
| PriceCountsRoute.RankedEntries | fare-exposure-anchor/app/api/exposures/price-counts/route.ts:22-24 | the ranking is a permutation of the distinct entries |
| PriceCountsRoute.RankedAreCounts | fare-exposure-anchor/app/api/exposures/price-counts/route.ts:18-24 | each ranked count is the number of rows with that exact price, at least 1 |
| PriceCountsRoute.RankedDistinctPrices | fare-exposure-anchor/app/api/exposures/price-counts/route.ts:18-24 | ranked prices are pairwise distinct |
| PriceCountsRoute.RankedDescending | fare-exposure-anchor/app/api/exposures/price-counts/route.ts:24 | counts are non-increasing |
| PriceCountsRoute.ItemsAreCounts | fare-exposure-anchor/app/api/exposures/price-counts/route.ts:18-25 | each item counts the rows of its exact price, at least 1; prices are distinct; counts are non-increasing |
| PriceCountsRoute.ItemsKeepMostFrequent | fare-exposure-anchor/app/api/exposures/price-counts/route.ts:24-25 | an omitted price means the list was cut at 50, and its count is at most every kept count |
| PriceCountsRoute.ItemsTiesInFirstAppearanceOrder | fare-exposure-anchor/app/api/exposures/price-counts/route.ts:18-24 | equal counts keep the order in which their prices first appear in the rows |
| PriceCountsRoute.NoRowsNoItems | fare-exposure-anchor/app/api/exposures/price-counts/route.ts:18-26 | no rows give no items |
| PriceCountsRoute.Get | fare-exposure-anchor/app/api/exposures/price-counts/route.ts:12-35 | a rejected query gives 400 with the validation error's message; a store error gives 500 with the thrown error's message, or "Bad request" when it is not an `Error`; success is the ranked items of the fetched rows, at most 50 |
| ByPriceRoute.HourBins | fare-exposure-anchor/app/api/exposures/by-price/route.ts:11-21 | one bin per distinct hour, in sorted hour order |
| ByPriceRoute.CountByHour | fare-exposure-anchor/app/api/exposures/by-price/route.ts:13-17 | the loop's map gives each hour its number of rows, keys in first-appearance order |
| ByPriceRoute.BuildHourBins | fare-exposure-anchor/app/api/exposures/by-price/route.ts:11-21 | the counting loop and sort return the hour bins of the rows |
| ByPriceRoute.HourBinsShape | fare-exposure-anchor/app/api/exposures/by-price/route.ts:18-20 | hour keys are unique and strictly ascending, exactly the rows' hours, each count the rows of its hour and at least 1 |
| ByPriceRoute.HourBinsTotal | fare-exposure-anchor/app/api/exposures/by-price/route.ts:13-17 | the bin counts sum to the number of rows |
| ByPriceRoute.Events | fare-exposure-anchor/app/api/exposures/by-price/route.ts:46-52 | one event per row, in row order, projecting ts, channel, result_rank, search_id and session_id |
| ByPriceRoute.InputOf | fare-exposure-anchor/app/api/exposures/by-price/route.ts:29-37 | the lookup gets the parsed price, period and channel unchanged and all four route fields as given filters |
| ByPriceRoute.RoundHalfAway | fare-exposure-anchor/app/api/exposures/by-price/route.ts:58 | `n / d` rounded to the nearest integer, within half a unit, keeping the sign |
| ByPriceRoute.DiffPctClose | fare-exposure-anchor/app/api/exposures/by-price/route.ts:58 | diffPct is within 0.005 of the exact percentage difference |
| ByPriceRoute.DiffPct | fare-exposure-anchor/app/api/exposures/by-price/route.ts:58 | the value has at most two decimals, has the sign of price minus anchor, and is 0 for an equal price |
| ByPriceRoute.Get | fare-exposure-anchor/app/api/exposures/by-price/route.ts:23-76 | 400 on a rejected query with the validation error's message, 500 on a store error with the thrown error's message, or "Bad request" when it is not an `Error`; total is the number of rows (at most 50); hour bins and events come from those rows; the anchor fields are present iff an anchor above 0 was given, with diffFromAnchor = price - anchor |
| DashboardTypes.LabelIf | fare-exposure-anchor/src/components/dashboard/types.ts:38-41 | at most one label |
| DashboardTypes.IsMissing | fare-exposure-anchor/src/components/dashboard/types.ts:40 | a value is missing iff it is not a string or is all whitespace |
| DashboardTypes.MissingLabels | fare-exposure-anchor/src/components/dashboard/types.ts:37-41 | never more labels than required keys |
| DashboardTypes.GetMissingFilterLabels | fare-exposure-anchor/src/components/dashboard/types.ts:37-42 | at most six labels |
| DashboardTypes.LabelNotListed | fare-exposure-anchor/src/components/dashboard/types.ts:38-41 | a label of no required key is never listed |
| DashboardTypes.NoneMissingNoLabels | fare-exposure-anchor/src/components/dashboard/types.ts:37-41 | no missing key gives no labels |
| DashboardTypes.LabelListedIff | fare-exposure-anchor/src/components/dashboard/types.ts:38-41 | with distinct label texts, a key's label is listed iff its value is missing |
| DashboardTypes.LabelTextsDistinct | fare-exposure-anchor/src/components/dashboard/types.ts:27-34 | the six label texts are distinct |
| DashboardTypes.MissingLabelAt | fare-exposure-anchor/src/components/dashboard/types.ts:38-41 | the i-th label is listed iff the i-th key is not a string or is blank after trimming |
| DashboardTypes.MissingLabelsMeaning | fare-exposure-anchor/src/components/dashboard/types.ts:37-41 | the result is empty iff all six keys hold non-blank strings; each label is listed iff its key is missing |
| DashboardTypes.MissingLabelsCons | fare-exposure-anchor/src/components/dashboard/types.ts:38-41 | the first key's label comes before the labels of the rest |
| DashboardTypes.MissingLabelsInOrder | fare-exposure-anchor/src/components/dashboard/types.ts:27-41 | labels appear in the fixed order airline, origin, dest, tripType, period, channel |
| DashboardTypes.MissingLabelsNoRepeats | fare-exposure-anchor/src/components/dashboard/types.ts:27-41 | distinct label texts give a list without repeats |
| DashboardTypes.MissingLabelsDistinct | fare-exposure-anchor/src/components/dashboard/types.ts:27-41 | the result has no duplicate labels |
| DashboardTypes.MissingLabelsIgnoreDatesAndPrices | fare-exposure-anchor/src/components/dashboard/types.ts:26-34 | departureDate, arrivalDate, minPrice and maxPrice never affect the result |
| DashboardTypes.AllChannelIsChosen | fare-exposure-anchor/src/components/dashboard/types.ts:38-40 | channel "all" counts as present |
| DashboardTypes.AllMissingListsAll | fare-exposure-anchor/src/components/dashboard/types.ts:27-41 | six missing keys give all six labels in order |
| DashboardTypes.DefaultFiltersMissAll | fare-exposure-anchor/src/components/dashboard/types.ts:15-24 | the default filters give all six labels |

## Left out

- The Supabase client and the network. The store is a sequence of rows or the
  error value its client reports (`Query.Store`). Whether that value is an
  `Error` instance depends on the client library, so it is part of the
  store value (`Query.Thrown`). `data ?? []` with no error is taken to
  return the rows. The by-price column projection is not modelled, since
  the model returns whole rows.
- The clock. `getSinceDate` reads the current time on every call; the model
  takes `now` as a parameter of each fetch. `subDays`/`subHours` are fixed
  millisecond offsets, so calendar and daylight-saving effects are left out.
- Local-time hour formatting. `computeTimeseries` and `buildHourBins` format
  `ts` with local-time getters. The model takes that formatting as the
  parameter `hourKey`, an arbitrary function of `ts`.
- Sorting.Below: `localeCompare` is modelled as code-unit lexicographic
  order. The two agree on the fixed-width digit keys the routes produce,
  but not on arbitrary strings.
- Floating point. Prices, counts and times are unbounded integers. Medians
  and `diffPct` are exact reals.
- Metrics.RoundedMean: `Math.round(sum / n)` is modelled on the exact
  quotient, with halves rounded up. The binary rounding of the float
  division is not captured.
- ByPriceRoute.DiffPctClose: `Number(x.toFixed(2))` is modelled as rounding
  the exact percentage to hundredths, with halves away from zero. The
  result on binary doubles can differ at exact halves, so the contract
  bounds the error by 0.005 rather than stating the float result.
- Validators.CoerceNumber: arrays and objects are read as NaN. JavaScript
  gives `Number([])` = 0 and coerces a one-element array through its text.
  No handler meets this, because query objects come from URL search
  parameters and hold only strings.
- Metrics.RankIndex: the index `ceil(p * n / 100) - 1` is computed exactly.
  The source computes `(p / 100) * n` in doubles, which agrees for the
  percentiles 25, 50 and 75 the summary uses but can differ for others
  (p = 7 with n = 100 gives 7.000000000000001, one position later).
- Text.ParseNumber: only the decimal forms of `Number(string)` are modelled
  (optional sign, digits, one decimal point). Exponents, `0x`/`0o`/`0b`
  literals and `Infinity` are treated as NaN, although JavaScript accepts
  them.
- zod itself. Each schema is a total function. Issue texts are replaced by
  a field path and an issue code, and the messages reported to clients are
  the parameters `describe` and `errorMessage`.
- Validators.ParseExposureEvent: the `meta` record and the `z.date()`
  branch of `ts` are left out. A date-time string's validity and instant
  are the parameters `isDateTime` and `instantOf`.
- Order among rows with equal `ts`. The store may return ties in any order.
  The model fixes one, and its contracts state only the non-increasing
  `ts` order and the multiset of rows, so they hold for every tie order.
- `console.error` logging in the handlers' error paths.
- The options route's cascading filter resolution (`fetchFilterOptions`,
  `getOptionsDebugCounts`). It is not part of this model because its
  source is not among the files modelled.
- The thin routes: histogram, timeseries and recent. They only default
  `binSize`, call a metric or slice to 30.
- The visits routes, health route, POST ingestion route, visit tracker,
  environment helpers, seeding scripts and all React components and hooks.
  They are I/O, timers or presentation.
