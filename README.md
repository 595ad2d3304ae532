# Flight sales dashboard: the aggregation pipeline

A Dafny model of the data side of a single-page sales dashboard over
international flight bookings (`dash.py`). The dashboard loads a bookings
table, cleans it, and derives the views it charts:

- sales per day, with a 7-point moving average;
- the routes ranked by number of bookings, and the five most-booked routes;
- the top-5-plus-"other" contribution of routes to sales;
- the classification of every booking as short-haul or long-haul, and the
  number of bookings of each type;
- for a selected route or route type, its sales per day with a moving average.

The model states each of these over a finite sequence of booking records and
proves what they promise: counts are conserved (every breakdown sums to the
number of cleaned bookings), grouping tables have distinct ascending keys and
positive counts, the top routes are at most five, distinct, present in the data
and never out-ranked by a route left out, the classification is a total
two-way partition, and the moving average has its seven-point warm-up.

Modules, one per component:

- `Wrappers.dfy`: `Option`, standing for a missing (NaN) cell.
- `StringOrder.dfy`: the order pandas sorts string group keys in (code-point
  lexicographic order), proved a strict total order.
- `Bookings.dfy`: the booking record; truncation of both date columns to ten
  characters; dropping rows without `Book ID`; the route and booking-date
  columns; the filter to one route.
- `Grouping.dfy`: `groupby(column)["Book ID"].count()` as a count table
  (`GroupCount`, built by adding one row at a time with `Tally`) and
  `sort_values(ascending=False)` as a sort by non-increasing count
  (`SortByCount`); `Ranked` composes the two.
- `Rolling.dfy`: `rolling(window=7).mean()`.
- `RouteTypes.dfy`: the two in-place passes that fill the `route_type`
  column, written as methods over an array.
- `Aggregates.dfy`: the dashboard's views, built from the above.
- `Scenarios.dfy`: two small worked tables.

The aggregates are only ever applied to the cleaned table, in which every row
has a `Book ID` (`Bookings.Clean` guarantees it); there, pandas' `count()` of
non-missing identifiers is the number of rows, which is what the model counts.

`sort_values` at dash.py:16, 21 and 38 uses pandas' default sort, which is
not stable, so nothing is proved about the order of routes with equal counts.

## Model

| member | source | states |
|---|---|---|
| `Bookings.TruncateDate` | dash.py:12-13 | a truncated date is a prefix of the original, of length min(original length, 10) |
| `Bookings.TruncateDateIdempotent` | dash.py:12-13 | truncating an already truncated date changes nothing |
| `Bookings.TruncateDates` | dash.py:12-13 | both date columns of a row become prefixes of at most 10 characters; identifier and route are kept |
| `Bookings.TruncateAll` | dash.py:12-13 | the column assignment keeps the number of rows and truncates every row |
| `Bookings.DropMissingId` | dash.py:14 | every retained row has an identifier; no rows are added |
| `Bookings.DropMissingIdCounts` | dash.py:14 | the retained rows are exactly the input rows with an identifier, each kept as often as it occurs |
| `Bookings.DropMissingIdAppend` | dash.py:14 | dropping distributes over concatenation, so retained rows keep their input order |
| `Bookings.DropMissingIdKeepsIdentified` | dash.py:14 | a table whose rows all have identifiers is left unchanged |
| `Bookings.Clean` | dash.py:12-14 | the cleaned table has only identified rows, with both dates at most 10 characters long |
| `Bookings.CleanIsTruncatedIdentifiedRows` | dash.py:12-14 | truncating and then dropping gives the truncation of the identified rows (the two steps commute) |
| `Bookings.Routes` | dash.py:16 | the route column has one entry per row, the row's route |
| `Bookings.BookingDates` | dash.py:25 | the booking-date column has one entry per row, the row's booking date |
| `Bookings.RowsOnRoute` | dash.py:131 | the rows selected for a route all have that route, and there are as many as the route's bookings |
| `Bookings.RowsOnRouteContents` | dash.py:131 | the rows selected for a route are exactly the table's rows on that route, each as often as it occurs, and no other rows |
| `StringOrder.LessTransitive` | dash.py:25 | the order of group keys is transitive |
| `StringOrder.LessTotal` | dash.py:25 | any two distinct group keys are ordered one way or the other |
| `Grouping.Tally` | dash.py:25 | adding a row keeps the keys ascending and raises that value's count by one and no other |
| `Grouping.Keys` | dash.py:22 | the index of a table lists its keys in table order |
| `Grouping.Counts` | dash.py:27 | the values of a count table list its counts in table order |
| `Grouping.TotalSplit` | dash.py:40 | the sum of a table is the sum of its first rows plus the sum of the rest |
| `Grouping.GroupCount` | dash.py:25 | a group count has strictly ascending keys, positive counts, each value's count equal to its number of rows, and counts summing to the number of rows |
| `Grouping.Place` | dash.py:16 | inserting a group into a count-descending table keeps it count-descending and adds exactly that group |
| `Grouping.SortByCount` | dash.py:16 | the sorted counts are non-increasing and a permutation of the input groups |
| `Grouping.SortByCountKeys` | dash.py:16 | sorting keeps the total and keeps keys distinct |
| `Grouping.Ranked` | dash.py:16 | the ranking is non-increasing, has distinct keys, one per value present, each with its exact number of rows, summing to the number of rows |
| `Rolling.RollingMean` | dash.py:27 | the rolling series has the input's length; the first 6 positions have no value, and every later position holds the mean of the 7 points ending there |
| `Rolling.RollingMeanSlides` | dash.py:27 | each mean is the previous one plus (entering point - leaving point) / 7 |
| `Rolling.RollingMeanBounds` | dash.py:136 | each mean lies between the smallest and the largest of the 7 points in its window |
| `Rolling.RollingMeanOfCountsNonNegative` | dash.py:158 | the moving average of daily counts is never negative |
| `Rolling.SliceSumAtMost` | dash.py:27 | over non-negative points, any slice sums to no more than the whole series |
| `RouteTypes.RouteTypeOf` | dash.py:73-76 | a route is short-haul exactly when it is listed, and long-haul exactly when it is not |
| `RouteTypes.Classification` | dash.py:73-76 | the reference `route_type` column: each row's type is the closed-world type of its route |
| `RouteTypes.MarkShort` | dash.py:73-74 | the first pass sets "short" on every row with a listed route and leaves every other row as it was |
| `RouteTypes.FillLong` | dash.py:75-76 | the second pass sets "long" on every row still missing a type and leaves every other row as it was |
| `RouteTypes.Classify` | dash.py:73-76 | after both passes every row has a type, "short" exactly when its route is listed, "long" otherwise |
| `RouteTypes.ClassificationCounts` | dash.py:73-76 | the classified column holds only the two types: "short" once per listed row, "long" once per other row |
| `Aggregates.RouteCounts` | dash.py:16 | bookings per route: non-increasing, distinct routes, every route present listed with its booking count, summing to the number of bookings |
| `Aggregates.TopRoutes` | dash.py:18-23 | at most 5 routes, min(5, number of routes) of them, distinct, all present in the data |
| `Aggregates.TopRoutesOrdered` | dash.py:18-23 | the top routes are listed in non-increasing order of bookings |
| `Aggregates.TopRoutesDominate` | dash.py:18-23 | for every route present in the data but left out of the top routes, all 5 places are taken and each top route has at least as many bookings as it |
| `Aggregates.LeftOutRoute` | dash.py:18-23 | one route present but left out of the top routes: there are 5 top routes, each with at least as many bookings as that route |
| `Aggregates.DailyTotals` | dash.py:25 | bookings per day: ascending distinct days, positive counts, each day's count its number of bookings, summing to the number of bookings |
| `Aggregates.CountsSum` | dash.py:25-27 | the values of a count table sum to its total |
| `Aggregates.MeanOfDailyCounts` | dash.py:27 | the moving average of any daily count table is, once defined, at least 1 and at most the table's total over 7 |
| `Aggregates.DailyMeans` | dash.py:25-27 | the daily-sales moving average is, once defined, at least 1 and at most the number of bookings over 7 |
| `Aggregates.Breakdown` | dash.py:38-40 | the first min(5, n) ranked routes keep their slice; the last slice holds total minus those slices (0 when there are at most 5 routes); all slices sum to the total |
| `Aggregates.RouteContribution` | dash.py:38-40 | the route pie of the table: one slice per top route with its bookings, then "other" = bookings minus the top slices; the slices sum to the number of bookings |
| `Aggregates.SetOrAppend` | dash.py:40 | assigning a value to a label sets that label's count and leaves every other label's count unchanged; an absent label is appended |
| `Aggregates.SetOrAppendOverwrites` | dash.py:40 | assigning to a label already in the table overwrites that group where it stands: same length, same positions, old count gone |
| `Aggregates.BreakdownAsWritten` | dash.py:38-40 | as coded, the label "other" carries the remainder and every other label keeps its top-5 count |
| `Aggregates.BreakdownAsWrittenOverwrites` | dash.py:38-40 | as coded, a top route labelled "other" has its slice replaced by the remainder, so the pie totals every booking minus that route's count |
| `Aggregates.BreakdownAsWrittenAgrees` | dash.py:38-40 | when no top route is labelled "other", the coded breakdown is exactly the top groups, labels and counts, followed by the group "other" holding the remainder; its slices match the intended breakdown and sum to the total |
| `Aggregates.BreakdownAsWrittenLosesRouteNamedOther` | dash.py:40 | a single route labelled "other" with 2 bookings gives a coded pie summing to 0, against 2 for the intended breakdown |
| `Aggregates.RouteContributionAsWrittenLosesOther` | dash.py:38-40 | over any bookings table with "other" among the top routes, the coded pie sums to the number of bookings minus that route's bookings |
| `Aggregates.RouteSeries` | dash.py:129-132 | a route's daily series has ascending days and positive counts, sums to the route's bookings, and is empty exactly when no row has that route |
| `Aggregates.RouteSeriesMeans` | dash.py:129-136 | one route's moving average is, once defined, at least 1 and at most that route's bookings over 7 |
| `Aggregates.RowsOfType` | dash.py:153 | the rows selected for a route type are as many as the rows of that type, and are drawn from the table |
| `Aggregates.RowsOfClassifiedType` | dash.py:153 | over the classified column, the rows selected for a type are exactly the table's rows whose route has that type, each as often as it occurs |
| `Aggregates.TypeSeries` | dash.py:151-154 | a route type's daily series has ascending days and positive counts, sums to that type's row count, and is empty exactly when no row has that type |
| `Aggregates.TypeSeriesMeans` | dash.py:151-158 | one route type's moving average is, once defined, at least 1 and at most that type's rows over 7 |
| `Aggregates.TypeSeriesPartition` | dash.py:153-154 | over the classified table, the short-haul series sums to the listed rows, and the two series together to every booking |
| `Aggregates.RouteTypeCounts` | dash.py:80 | bookings per type: non-increasing, distinct types, each with its row count, summing to the number of rows |
| `Aggregates.RouteTypeCountsOfClassification` | dash.py:78-80 | over the classified table there are at most two types, "short" counting the listed rows and "long" the others |
| `Aggregates.Unique` | dash.py:78 | `unique()` lists each value once, exactly the values present, starting with the first row's value |
| `Aggregates.RouteTypesFound` | dash.py:78 | the route types found are at most the two types, and the first one (the selector's default) is the first booking's type |
| `Scenarios.SampleClean` | dash.py:12-14 | three bookings, one without identifier: two rows remain, with dates cut to the day |
| `Scenarios.SampleDailyTotals` | dash.py:25 | those two bookings on the same day give one day with two bookings |
| `Scenarios.ClassifySample` | dash.py:73-76 | with "A-B" listed, "A-B" is short-haul and "C-D" long-haul |

## Left out

- File loading: `read_csv` (dash.py:11) and `read_excel` (dash.py:66) are not modelled; the model starts from the loaded bookings as a sequence of records and from the short-haul list as a set of route strings.
- The column rename and the dropping of empty rows on the short-haul spreadsheet (dash.py:67-69): part of loading the list.
- The second spreadsheet `long_short_nassim` (dash.py:71) is read and never used, so it has no effect to model.
- Columns the dashboard never reads (phone number and the rest) are not part of the record.
- Missing route or booking-date cells: the model treats both as always present. pandas would keep a missing date missing after `.str[:10]` and leave such rows out of every `groupby`.
- The identifier is modelled only as present or missing; pandas' numeric and NaN coercion of it is not modelled.
- All Plotly figure construction and layout (dash.py:26, 28-35, 41-48, 52-62, 82-89 and the figure parts of both callbacks); the loop at dash.py:53-58 only collects one chart trace per top route, each trace being the per-route daily series that `Aggregates.RouteSeries` models.
- The Dash application, its layout, the dropdown options and defaults, callback registration and `run_server` (dash.py:93-170), except for the data each callback computes.
- I/O failures, and any other failure that aborts start-up, are not modelled.
- Aggregates.SetOrAppend: replaces only the first group with the label, where pandas' `.loc` would write every row with that label. The table it is applied to is a count table with distinct keys, so there is at most one such row.
- Rolling.RollingMean: uses exact real division; pandas computes the mean in floating point, so rounding is not modelled.
- Aggregates.TopRoutes: says nothing about the order among routes with equal counts, because pandas' default sort is not stable. `SortByCount` keeps ascending key order among equal counts, since its input is the count table in ascending key order, and no property depends on that.

## Findings

| source | as written | input that shows it | evidently intended | confidence | as-written member | corrected member |
|---|---|---|---|---|---|---|
| dash.py:40 | `dff.loc["other", "Book ID"] = df[5:].sum()` assigns by label, so a top route whose label is "other" has its own count overwritten by the remainder | a table whose only route is labelled "other", with 2 bookings: the pie gets one slice of 0 | the top routes keep their counts and one separate slice holds the remainder, so the slices sum to all bookings | low: needs a route literally labelled "other"; not executed | `Aggregates.BreakdownAsWritten`, `Aggregates.BreakdownAsWrittenOverwrites`, `Aggregates.RouteContributionAsWrittenLosesOther`, `Aggregates.BreakdownAsWrittenLosesRouteNamedOther` | `Aggregates.Breakdown` |
