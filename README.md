# Bike-rental dashboard pipeline, modelled in Dafny

The dashboard loads an hourly bike-rental table. The sidebar picks a closed
date range and a closed hour range. The rows inside both ranges then feed
four aggregate tables and a few headline figures:

- the weekday table: summed `casual`, `registered` and `cnt` per weekday,
  ordered by `cnt` with the largest first, each row labelled Sunday..Saturday;
- the hourly table: the same sums per (hour, working-day flag) pair;
- the season table: like the weekday table, keyed on season and labelled
  Spring, Summer, Fall, Winter;
- the per-hour table: the grouping step of the hour clustering;
- the grand total of rentals, the most popular day and season (row 0 of
  their tables), the peak hour (`idxmax` of the per-hour totals), and the
  per-hour working-day and non-working-day lines of the hourly chart.

The model is pure functions over `seq<Record>`, as the source is chained
pandas expressions with no mutation of its inputs. It has four modules:

- `Wrappers` (`wrappers.dfy`): `Option`, for a label pandas leaves missing.
- `Rentals` (`rentals.dfy`): the row, the three measures and their sums,
  and the range filter.
- `GroupBy` (`groupby.dfy`): the `groupby(...).agg(sum)` step shared by all
  four tables, sorting (by summed `cnt`, and by key for the ascending key
  order `groupby` returns), and `idxmax`.
- `Dashboard` (`dashboard.dfy`): the four tables, the label maps and the
  headline figures.

A grouped table is a sequence of `Group(key, sums)` entries with distinct
keys. The reference definition of each entry's sums is
`SumOf(WithKey(rows, key, k))`: the column sums over exactly the rows whose
key is `k`. The table itself is built row by row, the way an aggregation
folds rows into groups. The lemmas connect that fold to the reference
definition.

Modelling choices:

- `dteday` is a day number (`int`). The column holds whole days, and the
  picker's bounds are converted to midnight, so the source compares days.
- Integers are unbounded. The sums of the source are 64-bit pandas integers,
  which rental counts do not come close to overflowing.
- `index.map(labels)` yields NaN for a code missing from the label table.
  The model gives that label as `None`.

Facts about the code that the contracts reflect:

- `sort_values` gives a non-increasing order of summed `cnt`. Equal totals
  are allowed, and pandas' default sort does not keep their relative order
  (dashboard/dashboard.py:17, 45). The model claims only non-increasing order.
- `groupby` returns its groups in ascending key order. For the per-hour
  table this decides the peak hour: `idxmax` takes the first maximum, so
  among equally busy hours the earliest one is shown
  (dashboard/dashboard.py:57, 251).
- Nothing guards against an empty selection. `iloc[0]`
  (dashboard/dashboard.py:147, 209) and `idxmax` (dashboard/dashboard.py:155,
  251) fail on empty tables, and the clustering fails earlier still (line
  132). So `MostPopularDay`, `MostRentedSeason` and `PeakHour` require at
  least one filtered row. The tables themselves are empty exactly when no
  row is left.

## Model

| member | source | states |
|---|---|---|
| `Rentals.Filter` | dashboard/dashboard.py:117-122 | every kept row has `start_date <= date <= end_date` and `start_hour <= hr <= end_hour` (both bounds inclusive, joined by AND) |
| `Rentals.FilterCount` | dashboard/dashboard.py:117-122 | a row is kept exactly as many times as it occurs in the table if it is in range, and never if it is not |
| `Rentals.FilterOrder` | dashboard/dashboard.py:117-122 | the kept rows are a subsequence of the table: their original order is preserved |
| `Rentals.FilterAppend` | dashboard/dashboard.py:117-122 | the mask acts row by row: filtering a concatenation is concatenating the filtered parts |
| `Rentals.FilterKeepsInRange` | dashboard/dashboard.py:117-122 | a table whose rows are all in range passes the filter unchanged |
| `Rentals.FilterIdempotent` | dashboard/dashboard.py:117-122 | filtering the filtered rows again with the same bounds changes nothing |
| `Rentals.FilterSinglePoint` | dashboard/dashboard.py:117-122 | with a one-day, one-hour range, every surviving row has that date and that hour |
| `Rentals.SumOf` | dashboard/dashboard.py:13-16 | the column sums of a single row are that row's `casual`, `registered` and `cnt` |
| `Rentals.SumOfAppend` | dashboard/dashboard.py:13-16 | column sums distribute over concatenation of row sequences |
| `Rentals.SumOfConsistent` | dashboard/dashboard.py:13-16 | if every row has `cnt == casual + registered`, the column sums satisfy it too |
| `GroupBy.Accumulate` | dashboard/dashboard.py:13-16 | folding one row into a table grows the table's grand total of each measure by exactly that row's measures |
| `GroupBy.AccumulateKeys` | dashboard/dashboard.py:13-16 | folding one row into a table adds that row's key and no other |
| `GroupBy.AccumulateDistinct` | dashboard/dashboard.py:13-16 | folding one row into a table never creates a second entry for a key |
| `GroupBy.AccumulateLookup` | dashboard/dashboard.py:13-16 | folding one row into a table adds its measures to its own group and leaves every other group unchanged |
| `GroupBy.GroupSum` | dashboard/dashboard.py:13-16 | the grouped table has no key twice, and its key set is exactly the set of keys present among the rows |
| `GroupBy.GroupSumLookup` | dashboard/dashboard.py:13-16 | for every key, the table's sums equal the column sums over exactly the rows with that key (zero for an absent key) |
| `GroupBy.GroupSumEntries` | dashboard/dashboard.py:13-16 | every entry carries the column sums over the rows of its own group |
| `GroupBy.GroupSumTotal` | dashboard/dashboard.py:13-16 | grouping conserves the grand total of each of the three measures |
| `GroupBy.InsertBy` | dashboard/dashboard.py:17 | inserting an entry into a table ordered by a rank (largest first) keeps it ordered and adds exactly that entry |
| `GroupBy.SortBy` | dashboard/dashboard.py:17 | sorting by a rank gives a permutation of the table, in non-increasing order of that rank |
| `GroupBy.SortByTotal` | dashboard/dashboard.py:17 | sorting keeps the grand total of each measure |
| `GroupBy.SortByKeys` | dashboard/dashboard.py:17 | sorting keeps the key set, and keeps the keys distinct |
| `GroupBy.SortByCnt` | dashboard/dashboard.py:17 | `sort_values(by="cnt", ascending=False)` gives a permutation of the table, in non-increasing order of summed `cnt` |
| `GroupBy.SortByKey` | dashboard/dashboard.py:57-61 | a table with distinct hour keys, put in the order `groupby` returns it: a permutation with strictly ascending keys and the same key set |
| `GroupBy.AscendingKeys` | dashboard/dashboard.py:57-61 | ordered by ascending key with no key twice means strictly ascending keys |
| `GroupBy.IdxMaxCnt` | dashboard/dashboard.py:251 | `idxmax` on `cnt` gives a position whose total is at least every other total, and no earlier position reaches that total |
| `Dashboard.WeekdayName` | dashboard/dashboard.py:20-23 | exactly the weekday codes 0..6 get a label (its definition is the table 0 Sunday .. 6 Saturday); every other code gets a missing label |
| `Dashboard.SeasonName` | dashboard/dashboard.py:48 | exactly the season codes 1..4 get a label (its definition is the table 1 Spring, 2 Summer, 3 Fall, 4 Winter); every other code gets a missing label |
| `Dashboard.WeekdayNamesDistinct` | dashboard/dashboard.py:20-23 | two codes with the same present weekday label are the same code |
| `Dashboard.SeasonNamesDistinct` | dashboard/dashboard.py:48 | two codes with the same present season label are the same code |
| `Dashboard.Label` | dashboard/dashboard.py:26 | adding the label column keeps the table's length, its codes in order and their sums, and gives each row the label of its own code (line 51 for seasons) |
| `Dashboard.RankedTable` | dashboard/dashboard.py:13-26 | group-sum, sort and label gives a table ordered by `cnt` (largest first) with one row per code present, each holding its group's sums and its code's label, empty exactly when there are no rows |
| `Dashboard.LabelOver` | dashboard/dashboard.py:26 | adding the label column to a sorted, distinct, correctly summed table keeps order, codes and sums, and gives each row its code's label |
| `Dashboard.WeekdayTable` | dashboard/dashboard.py:11-28 | one row per weekday present, with that weekday's sums and name, ordered by summed `cnt` non-increasing; empty exactly when there are no rows |
| `Dashboard.SeasonTable` | dashboard/dashboard.py:39-53 | one row per season present, with that season's sums and name, ordered by summed `cnt` non-increasing; empty exactly when there are no rows |
| `Dashboard.NonEmptyKeys` | dashboard/dashboard.py:13 | a grouping has no keys exactly when it has no rows |
| `Dashboard.HourlyRentals` | dashboard/dashboard.py:30-37 | each (hour, working-day) pair present appears exactly once, with the sums over that pair's rows |
| `Dashboard.HourlyTotals` | dashboard/dashboard.py:57-61 | each hour present appears exactly once, in ascending hour order, with the sums over that hour's rows |
| `Dashboard.TotalRentals` | dashboard/dashboard.py:143 | the `cnt` sum of a labelled table is at least each row's `cnt`, and is zero exactly when every row's `cnt` is zero (line 208 for seasons) |
| `Dashboard.TotalRentalsOfLabel` | dashboard/dashboard.py:143 | the `cnt` sum of a labelled table equals the `cnt` total of the grouped table it labels |
| `Dashboard.TotalsConserved` | dashboard/dashboard.py:143 | the total shown for the weekday table and the total shown for the season table (line 208) both equal the `cnt` sum over the filtered rows |
| `Dashboard.RankedTopIsBusiest` | dashboard/dashboard.py:147 | row 0 of a ranked table is a code present among the rows whose group total is maximal |
| `Dashboard.MostPopularDay` | dashboard/dashboard.py:147 | the shown day name is the label of a weekday present whose summed `cnt` is at least every other present weekday's |
| `Dashboard.MostRentedSeason` | dashboard/dashboard.py:209 | the shown season name is the label of a season present whose summed `cnt` is at least every other present season's |
| `Dashboard.PeakHour` | dashboard/dashboard.py:251 | the peak hour is an hour present whose summed `cnt` is at least every other present hour's, and every earlier present hour has a strictly smaller total (ties go to the earliest hour) |
| `Dashboard.PeakOver` | dashboard/dashboard.py:251 | the first maximum of the per-hour table, in ascending hour order, is a present hour that is busiest and beats every earlier present hour |
| `Dashboard.EarliestMax` | dashboard/dashboard.py:251 | in a table in ascending key order, the first maximum beats every entry with a smaller key |
| `Dashboard.PeakHourTieExample` | dashboard/dashboard.py:251 | with rows for hour 9 then hour 8, both totalling 10, the peak hour is 8 |
| `Dashboard.SelectWorkingday` | dashboard/dashboard.py:179 | the selection holds exactly the entries of the hourly table whose working-day flag is `w` (line 187 for `w = 0`) |
| `Dashboard.AtHour` | dashboard/dashboard.py:180 | the group of hour `h` holds exactly the entries of the selection whose hour is `h` (line 188 for the second line) |
| `Dashboard.MeanCnt` | dashboard/dashboard.py:180 | the mean of a one-entry hour group is that entry's `cnt` (line 188 for the second line) |
| `Dashboard.SelectThenHour` | dashboard/dashboard.py:179-180 | in the hourly table, selecting a working-day flag and then an hour leaves the single (hour, flag) entry if that pair occurs, else nothing |
| `Dashboard.WorkingdayMean` | dashboard/dashboard.py:179-188 | an hour is plotted on the working-day (or non-working-day) line exactly when a row has that hour and flag, and the mean plotted there is that one group's `cnt` sum |
| `Dashboard.GroupConsistent` | dashboard/dashboard.py:13-16 | the sums over any one group keep `cnt == casual + registered` when every row does |
| `Dashboard.TablesConsistent` | dashboard/dashboard.py:11-61 | every entry of the weekday, hourly, season and per-hour tables keeps `cnt == casual + registered` when every filtered row does |
| `Dashboard.LabelsPresent` | dashboard/dashboard.py:26 | with weekday codes 0..6 and season codes 1..4, every row of both ranked tables gets a label (line 51 for seasons) |
| `Dashboard.WeekdayExamplePrefix` | dashboard/dashboard.py:13-16 | the two Monday rows (totals 100, 50) fold into one Monday group with total 150 |
| `Dashboard.WeekdayExampleGroups` | dashboard/dashboard.py:13-16 | grouping two Monday rows (totals 100, 50) and one Tuesday row (total 30) gives Monday 150, Tuesday 30 |
| `Dashboard.WeekdayExample` | dashboard/dashboard.py:11-28 | on those rows the weekday table is [(Monday, 150), (Tuesday, 30)], with all three summed measures |

## Left out

- Loading and normalising the table (dashboard/dashboard.py:77-89): `read_csv`, the in-place sort and index reset, and the `to_datetime` loop are file I/O and library parsing. The model starts from the loaded rows. The minimum and maximum dates only bound the date picker.
- The Streamlit widgets (dashboard/dashboard.py:96-114). The bounds they return are parameters of the filter.
- `StandardScaler` and `KMeans` (dashboard/dashboard.py:64-74), and the cluster count derived from them (line 245). They are floating-point standardisation and a randomised library clustering routine. They run at line 132, before any figure is drawn, and fail on an empty selection and whenever fewer than three distinct hours remain; so the script shows the figures of lines 143-251 only when at least three distinct hours are selected. The model's figures are defined for any non-empty selection and do not model that failure.
- Chart drawing and the bar-colour highlighting (dashboard/dashboard.py:150-177, 181-186, 189-239, 254-273). These are presentation only, including the `idxmax` at line 155 and line 222.
- The unused `format_currency` import (dashboard/dashboard.py:5), and the page text (line 276).
- GroupBy.GroupSum: entries are produced in order of first appearance of their key, and pandas orders groups by key. The per-hour table is put in key order by `SortByKey`, since the peak hour depends on it. The weekday and season tables are re-sorted by `cnt`, and the means of the hourly pair table do not depend on its order, so for those tables the key order is not modelled.
- GroupBy.SortByCnt: the relative order of entries with equal totals is not claimed, because pandas' default sort is not stable.
- Dashboard.MeanCnt: the mean is modelled only at the hours the selection holds, since a group-by produces no empty groups.
- Dashboard.HourlyTotals: the `cluster` column that `create_hourly_bike_clusters` adds, and the fitted model it returns, are not modelled.
