# Cyclistic dashboard query layer in Dafny

This project models the data side of the Cyclistic bike-share dashboard. The
dashboard is a single Streamlit script, `app.py`. The model covers the steps
that turn a table of trip records into the numbers and tables the page
shows, and proves their properties:

- cleaning the loaded trips and deriving the calendar columns (`load_data`);
- the sidebar filter engine (`filter_data`), with its "empty selection means
  all" fallback;
- the per-station group-by (`query_station_stats`), and its inline copies
  behind the station map and the member- and casual-focused tables;
- the per-route group-by (`query_top_routes`);
- the holiday calendar and the holiday summary (`HOLIDAYS_DATA`,
  `get_holiday_df`, `query_holiday_stats`);
- the headline metrics, with their guards against an empty table;
- the ride-count charts by month, hour, weekday and season, with the fixed
  weekday and season category orders.

Design:

- A trip is a datatype (`Trips.Trip`) and a table is a `seq<Trip>`.
  Station names and coordinates are `Option`s, because pandas drops null
  group keys and skips nulls in `first`.
- Ride times are exact `real` minutes. Means and percentages are exact
  reals, so nothing is rounded.
- `query_holiday_stats` writes the `date` column of the table it is given and
  builds its result in a loop. `Holidays.TripTable` models it as a class
  whose `rows` field the query method reassigns. The loop is a `for` loop
  with an invariant (`Holidays.SummariseDates`).
- The rest of the core is expressions over tables, so it is modelled as
  functions and lemmas.

Modules:

| file | module | what it holds |
|---|---|---|
| `wrappers.dfy` | `Wrappers` | `Option` and `Result` |
| `seqs.dfy` | `Seqs` | row selection (`Filter`), subsequences and distinctness |
| `grouping.dfy` | `Grouping` | the distinct keys of a column in order of first appearance, groups, and count conservation |
| `ranking.dfy` | `Ranking` | sorting and the top-N cut |
| `labels.dfy` | `Labels` | `str.strip()` and `str.lower()` on ASCII, for the rider label |
| `trips.dfy` | `Trips` | the trip record, dates, label counts, percentages and means |
| `loader.dfy` | `Loader` | `load_data` and `get_season` |
| `filters.dfy` | `Filters` | `filter_data` and the sidebar |
| `stations.dfy` | `Stations` | station aggregation, the station map and the focused tables |
| `routes.dfy` | `Routes` | route aggregation |
| `holidays.dfy` | `Holidays` | the holiday calendar and the holiday summary |
| `metrics.dfy` | `Metrics` | the headline metrics |
| `buckets.dfy` | `Buckets` | the monthly, hourly, weekday and season ride-count charts |

Where the code and the design description of the dashboard disagree, the
model follows the code:

- `load_data` checks for an empty table after dropping unparsable
  timestamps and before applying the duration window. So a file whose rides
  all fall outside the window loads as an empty table, not as an error.
- `query_top_routes` computes casual trips as trips minus normalised member
  trips. Every label that does not normalise to 'member' therefore counts as
  casual.

## Model

| member | source | states |
|---|---|---|
| Loader.SeasonOfMonth | app.py:100-104 | every month 1..12 gets exactly one season: 12, 1, 2 Winter; 3-5 Spring; 6-8 Summer; 9-11 Fall |
| Loader.SeasonOutOfRange | app.py:104 | a month number outside 1..12 falls through every test to Fall |
| Loader.RetainedBySeconds | app.py:85-88 | a parsed ride is kept iff more than 60 and fewer than 86400 seconds pass between its timestamps |
| Loader.WindowBoundaries | app.py:88 | durations of exactly 1 and 1440 minutes are dropped, 2 and 1439 kept; the window is 1 < m < 1440 |
| Loader.DeriveRoundTrip | app.py:85-105 | deriving the columns loses no raw column, and a row is consistently derived iff re-deriving it changes nothing |
| Loader.DeriveColumns | app.py:85-105 | adding the derived columns keeps the same rows in the same order, each consistently derived |
| Loader.LoadData | app.py:62-108 | NotFound iff the file is missing; EmptyDataset iff no row has both timestamps parsed; success iff the file is present and some row parses, with exactly the rows whose ride time lies in the window, in input order, as a subsequence of the input, each with derived columns |
| Filters.FilterData | app.py:122-135 | the result is one filter by the conjunction of the active predicates: a subsequence of the input; every kept row satisfies every active predicate, and every input row that does is kept |
| Filters.FilterChain | app.py:124-135 | the three conditional filters applied in turn select exactly what the single conjunction selects |
| Filters.NoSelectionIsIdentity | app.py:126-133 | with All Riders, no seasons and no bike types the input is returned unchanged |
| Filters.RiderChoice | app.py:126-127 | a rider choice other than All Riders keeps exactly the rows labelled with the lower-cased choice |
| Filters.RiderChoices | app.py:126-127 | Member and Casual keep exactly the rows labelled 'member' and 'casual' |
| Filters.TickedExtremes | app.py:310 | with no box ticked no option is selected; with every box ticked all options are selected, in option order |
| Filters.BikeOptions | app.py:314 | the bike options are distinct, include the bike type of every ride and only those |
| Filters.EverySeasonIsAnOption | app.py:309 | every season is a sidebar option |
| Filters.AllSeasonsRestrictNothing | app.py:309-311 | filtering by the full season list keeps what no season filter keeps |
| Filters.AllBikesRestrictNothing | app.py:314-316 | filtering by the full bike list keeps what no bike filter keeps |
| Filters.DefaultSidebarIsIdentity | app.py:302-319 | with All Riders and every box ticked, or every box cleared, the filtered table is the whole table |
| Filters.NoSeasonTickedMeansAll | app.py:310-311 | clearing every season box filters as ticking all of them does, and as no season filter at all |
| Filters.NoBikeTickedMeansAll | app.py:315-316 | clearing every bike box filters as ticking all of them does, and as no bike filter at all |
| Labels.Strip | app.py:146 | strip removes exactly the leading and trailing whitespace: the result is the run of the input after its leading spaces, it neither starts nor ends with a space, and only spaces follow it |
| Labels.Lower | app.py:146 | lower keeps the length, folds each character, and leaves no upper-case letter |
| Labels.LowerChoices | app.py:127 | the radio choices Member and Casual lower-case to 'member' and 'casual' |
| Labels.CanonicalLabels | app.py:146-147 | 'member' and 'casual' are their own normal forms |
| Labels.NormalizeIdempotent | app.py:146 | normalising a normalised label changes nothing |
| Trips.ExactSplit | app.py:334-339 | exact 'member' and 'casual' rows never outnumber the rows, and fill them iff every label is one of the two |
| Trips.NormalizedSplit | app.py:146-147 | normalised 'member' and 'casual' counts never exceed the rows, and add up to them iff every label normalises to one of the two |
| Trips.ExactWithinNormalized | app.py:146-147 | an exact label count never exceeds the normalised count of the same label |
| Trips.Percent | app.py:341-342 | a share is 0 when the total is 0, and lies in [0, 100] when the part does not exceed the total |
| Trips.PercentsAddUp | app.py:223-224 | complementary shares of a non-empty total add up to 100 |
| Trips.Shares | app.py:210-224 | shares of members and of the remaining rides lie in [0, 100] and add up to 100 when the total is non-empty |
| Trips.MeanMinutes | app.py:143 | the mean times the row count is the total ride time; 0 for no rows |
| Trips.MeanWithin | app.py:143 | a mean of ride times that all lie strictly within bounds lies within them |
| Trips.OrdinalIsChronological | app.py:229 | the date sort key orders valid dates chronologically and separates distinct dates |
| Grouping.Group | app.py:141 | a group holds exactly the rows whose key is that value, each as often as in the table, in order |
| Grouping.Keyed | app.py:141 | rows with a null key belong to no group, every other row keeps its multiplicity; with no null key every row is grouped |
| Grouping.Keys | app.py:141 | the group keys are distinct, each is the key of some row, and every non-null key is among them |
| Grouping.KeyHasGroup | app.py:141 | a value is a key iff its group is non-empty |
| Grouping.Conservation | app.py:141-142 | the group sizes add up to the number of rows with a non-null key |
| Ranking.SortDesc | app.py:152 | sorting descending gives a non-increasing permutation of the rows |
| Ranking.SortAsc | app.py:229 | sorting ascending gives a non-decreasing permutation of the rows |
| Ranking.TopN | app.py:152 | the top n: exactly min(n, rows) rows, non-increasing, a sub-multiset of the input, and no row left out has a larger key than any row kept |
| Stations.FirstValue | app.py:144-145 | 'first' gives the first non-null value of the group, or none when all values are null |
| Stations.GroupRows | app.py:141-148 | each group row aggregates its own station's non-empty group of rides; every named station has a row; rows are distinct |
| Stations.StationConservation | app.py:141-142 | station trips add up to the rides with a station name, so to all rides when no name is missing |
| Stations.StationRowCounts | app.py:146-147 | member plus casual trips never exceed trips, and equal them iff every label of the station normalises to 'member' or 'casual' |
| Stations.StationMeanInWindow | app.py:143 | on a loaded table every station's mean ride time lies inside the duration window |
| Stations.TopOfGroups | app.py:152 | a top-n cut of the station rows is a station table for any ranking key |
| Stations.QueryStationStats | app.py:139-152 | at most n stations, by non-increasing trips, with distinct names, each its own aggregate, none left out busier than one kept |
| Stations.DominantRiderRule | app.py:622 | the dominant rider is Member iff member trips exceed casual trips; a tie goes to Casual |
| Stations.MapStations | app.py:614-625 | the markers stand for exactly the top-50 station table: min(50, stations) of them, none left out busier than one shown, by non-increasing trips, each the station's own aggregate, coloured Member iff member trips exceed casual trips |
| Stations.MemberFocused | app.py:673-684 | the top 20 start stations by member trips, in non-increasing order of member trips |
| Stations.CasualFocused | app.py:673-688 | the top 20 start stations by casual trips, in non-increasing order of casual trips |
| Routes.LabelComplement | app.py:159-164 | rows normalising to a label and rows not normalising to it add up to all rows |
| Routes.RouteRow | app.py:156-164 | a route row's trips are its group size, member trips its normalised 'member' rides, casual trips the rest, and member + casual == trips |
| Routes.GroupRows | app.py:156-160 | each route row aggregates a route some ride takes; every route with both stations named has a row; rows are distinct |
| Routes.RouteConservation | app.py:156-157 | route trips add up to the rides with both station names |
| Routes.TopOfGroups | app.py:163 | the top-n cut of the route rows is a route table |
| Routes.QueryTopRoutes | app.py:154-172 | at most n routes, by non-increasing trips, distinct, each an occurring route with its own aggregate, member + casual == trips, none left out busier than one kept |
| Holidays.GetHolidayDf | app.py:175-188 | twelve holidays with valid dates in strictly increasing order |
| Holidays.HolidayName | app.py:200-209 | the name the merge attaches to a holiday date belongs to a calendar entry with that date |
| Holidays.HolidayNameOfEntry | app.py:200-209 | every calendar entry is found again by its date, with its own name |
| Holidays.HolidayRow | app.py:206-227 | a holiday row carries its date, a calendar name for that date, and the subset size as total |
| Holidays.HolidayRowCounts | app.py:210-215 | member plus casual rides make up the total; members are the exact 'member' rides; the exact 'casual' rides are among the casual ones |
| Holidays.HolidayRowShares | app.py:223-224 | both shares lie in [0, 100], add up to 100 for a non-empty day, and are 0 for an empty one |
| Holidays.HolidayRowMeans | app.py:225-226 | on a loaded table each mean lies inside the duration window when that rider type rode, and is 0 when it did not |
| Holidays.SubsetOfHolidayRides | app.py:195-206 | the holiday rides of one holiday are exactly the rides of that date |
| Holidays.SummariseDate | app.py:206-227 | one pass of the loop gives a row iff somebody rode that day, and the row summarises exactly that day's rides |
| Holidays.SummariseStep | app.py:205-227 | one loop iteration keeps the summary invariant for the dates processed so far |
| Holidays.SummariseDates | app.py:204-227 | the loop over the distinct holiday dates yields one row per date ridden, each summarising its own rides |
| Holidays.Complete | app.py:204-227 | every ride on a holiday is summarised by some row |
| Holidays.HolidayRides | app.py:195-198 | there are no holiday rides iff no ride's date is a calendar date, and every grouped date is a calendar date |
| Holidays.SortRows | app.py:229 | sorting rows with distinct calendar dates gives the same rows in strictly increasing date order |
| Holidays.SummariseHolidays | app.py:195-229 | empty iff no ride falls on a holiday; otherwise one row per holiday ridden with at least one ride, each exact, in strictly increasing date order |
| Holidays.RefreshDates | app.py:193 | the date column of every row is set to its start date, nothing else changes |
| Holidays.RefreshDatesOnLoaded | app.py:193 | on a loaded table refreshing the date column changes nothing |
| Holidays.TripTable.QueryHolidayStats | app.py:190-229 | the table's rows get their date column rewritten, and the result is the holiday table of the rewritten rows on the fixed calendar |
| Metrics.HeadlineMetrics | app.py:334-346 | member + casual never exceed the total; both percentages are 0 for an empty total and lie in [0, 100]; the mean is undefined exactly for an empty table |
| Metrics.MetricsPanel | app.py:321-346 | an empty filtered table shows a warning instead of metrics; shown metrics always have a mean and at least one ride |
| Metrics.HeadlineCounts | app.py:334-339 | the member and casual counts fill the total iff every label is exactly 'member' or 'casual' |
| Metrics.HeadlineSharesAddUp | app.py:341-342 | when every label is 'member' or 'casual', the two percentages of a non-empty table add up to 100 |
| Metrics.HeadlineMeanInWindow | app.py:346 | on a loaded table the headline mean ride time lies inside the duration window |
| Metrics.SingleRiderHeadline | app.py:319-342 | choosing Member (Casual) leaves all rides under that label, none under the other, and a 100 percent share |
| Buckets.GroupRows | app.py:519 | each (bucket, rider) row counts its own non-empty group; every ride has a row; rows are distinct |
| Buckets.BucketConservation | app.py:519 | the chart counts add up to all rides of the filtered table |
| Buckets.RiderRestrictionIsRedundant | app.py:521-522 | on a table already restricted to one rider type the chart's own restriction changes nothing |
| Buckets.RestrictThenSort | app.py:519-525 | restricting then sorting gives a chart table: exact counts, only the chosen label, complete, distinct, in bucket order |
| Buckets.SortThenRestrict | app.py:457-462 | sorting then restricting gives a chart table as well |
| Buckets.Position | app.py:524 | a categorical rank is the first position of the value in the category list, or after every category when it is not one |
| Buckets.PositionOfEntry | app.py:524 | in a list without repetitions each category's rank is its index |
| Buckets.WeekdayCategories | app.py:518-525 | the weekday order lists the seven days once each, Monday first, so no weekday becomes a missing category |
| Buckets.SeasonCategories | app.py:544-551 | the season order lists the four seasons once each, Winter first, so no season becomes a missing category |
| Buckets.MonthRankIsChronological | app.py:458-459 | the month sort key orders year-months chronologically and separates distinct months |
| Buckets.WeekdayChart | app.py:518-525 | the weekday chart is a chart table in Monday-to-Sunday order |
| Buckets.SeasonChart | app.py:544-551 | the season chart is a chart table in Winter-to-Fall order |
| Buckets.MonthlyChart | app.py:457-462 | the monthly chart is a chart table in month order |
| Buckets.HourlyChart | app.py:479-484 | the hourly chart is a chart table in hour order |
| Buckets.HourLabel | app.py:481 | the clock hour of a label is in 1..12, and the label says AM iff the hour is before noon |
| Buckets.HourLabelRoundTrip | app.py:481 | every hour 0..23 is recovered from its label, so distinct hours get distinct labels |
| Buckets.MidnightAndNoon | app.py:481 | hours 0, 12, 13 and 23 are labelled 12 AM, 12 PM, 1 PM and 11 PM |

## Left out

- Reading the parquet file, the existence check and `st.cache_data` (app.py:61-71): the file is a parameter `Option<seq<RawTrip>>`, None when the file is missing. The catch-all exception handlers of `load_data` and of each page section are not modelled.
- Timestamp parsing with `pd.to_datetime` and the `.dt` accessors: timestamps arrive parsed into a date, an hour, a weekday and epoch seconds, or None when unparsable.
- The branches that keep an existing `ride_time_min`, `weekday` or `season` column (app.py:84, 97, 99): the model always derives them.
- Rounding (`round`, `.round(0).astype(int)`), floating point, the millions display and the per-card formatting: means and percentages are exact reals.
- Metrics.HeadlineSharesAddUp: states the 100 percent sum before rounding; the rounded percentages can sum to 99 or 101.
- Unicode in `str.strip()` and `str.lower()`: only ASCII whitespace is stripped and only ASCII letters are folded. `astype(str)` on a null label is not modelled, because labels are strings.
- Counting with `('ride_id', 'count')` counts non-null ride ids; the model takes ride ids to be present, so the count is the group size.
- Tie-breaking in `sort_values` and `nlargest`: pandas promises no order among equal keys, so results are stated as sorted, bounded, and cut at the top, never as one particular order among ties.
- Stations.StationRowCounts: says nothing about the mean ride time; Stations.StationMeanInWindow states the window bound separately.
- The holiday summary is stated for any calendar with valid, strictly increasing dates (`Holidays.SummariseHolidays`), and instantiated with the fixed calendar in `Holidays.TripTable.QueryHolidayStats`.
- Holidays.TripTable.QueryHolidayStats: each row's `holiday_date` is the trip's `date`, which the left merge copies; the merge itself is not modelled as a table join.
- Streamlit layout, CSS, HTML cards, Plotly figures and `enhance_plotly_figure`, the Folium map with its centre and marker radii, and the insight texts: these are rendering, with no data transformation to model beyond the tables above.
- The bike-type chart and the remaining page sections outside the modelled tables.
