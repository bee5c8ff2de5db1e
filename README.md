# vital-stability: the `updateChart` data pipeline in Dafny

This project models the data side of `updateChart` in `plot.js` (lines 61-87). That function is a browser chart of intra-operative vital signs. Its input is a wide table: each row has the categorical columns `optype` and `emop`, a normalised surgery time `norm_time`, and one column per vital (`map`, `hr`, `spo2`). From the two selectors' choices it builds the chart in four steps:

1. **Group.** The rows are grouped by the selected categorical column with `d3.groups`. There is one series per distinct value, in order of first appearance.
2. **Bin.** Each group's rows are bucketed into time bins of width 0.01 at `Math.round(norm_time / 0.01) * 0.01`.
3. **Summarise and sort.** Each bin becomes a point:
   - its time;
   - the mean of the selected vital;
   - the sample standard deviation of that vital, absent for a single row;
   - the first row's reading.

   The points are then sorted by time.
4. **Filter and scale.** A series is visible when the set of active keys is empty or holds its key. The y-axis domain runs from the least `mean - (sd || 0)` to the greatest `mean + (sd || 0)` over all visible bins.

The model is pure, like the code it follows: functions and lemmas only. The modules are:

- `Wrappers`: `Option`.
- `Groups`: `d3.groups` as `GroupBy`. It does the library's single pass, in which each element joins its key's group or opens a new one at the end. Its contract is stated against two reference definitions: `Select`, the elements with a key in input order, and `FirstIndex`, the first position of a key.
- `Stats`: `d3.mean`, `d3.variance` and `d3.deviation` over exact reals, plus `d3.min` and `d3.max` over optional values.
- `Table`: rows, selectors, bins, series and the binning function.
- `Aggregation`: the per-bin summary, the sort, the per-group bins and the whole `summary`.
- `Selection`: the visibility rule and the filter.
- `Domain`: the y-axis domain.
- `Chart`: one recomputation, from rows and selector values to the visible series and the domain.
- `Scenario`: a worked example with concrete rows.

Modelling choices:

- **Returned values.** `y.domain(...)` is a setter. The model instead returns the domain, together with the visible series, as a `ChartView` value.
- **Reals.** All numbers are exact reals.
- **Binning.** A bin is identified by its real bin time `floor(t / 0.01 + 0.5) * 0.01`. This matches `Math.round`, which rounds a half upward, also for negative times.
- **Square root.** The square root inside `d3.deviation` is a parameter `root`. The variance under it is modelled exactly.
- **Row values.** The selected vital is one of three fixed fields of `Row`, so a missing column cannot occur. The categorical values are strings.
- **Long-format file name.** The file loaded at plot.js:40 is named `vitals_long_format_10s.csv`, but the code reads the vital by column name (`p[selectedVital]`, plot.js:71; plot.js:1 names the wide format) and has no signal filter. The model follows the code. Bins use `Math.round`, which rounds halves upward.

## Model

| member | source | states |
|---|---|---|
| Groups.GroupByIsGrouping | plot.js:65 | `d3.groups` gives pairwise distinct keys. Every element's key has a group. Each group holds exactly the elements with its key, in input order, and is non-empty. Groups are ordered by the first appearance of their key. Proved by induction over the library's one-pass construction. |
| Groups.GroupByPartition | plot.js:65 | Every element belongs to exactly one group. |
| Table.BinTime | plot.js:68-69 | The bin time is a whole multiple of 0.01 and lies within half a bin of the time. A time exactly half-way goes to the upper multiple. |
| Table.BinTimeFixed | plot.js:69 | A time that is already a multiple of 0.01 bins to itself. |
| Table.BinTimeIdempotent | plot.js:69 | Binning a bin time again changes nothing. |
| Stats.Mean | plot.js:74 | `d3.mean` is absent exactly for no values. Otherwise mean × count = sum. |
| Stats.MeanWithin | plot.js:74 | The mean of values that all lie in [lo, hi] lies in [lo, hi]. |
| Stats.Variance | plot.js:75 | The sample variance is absent exactly for fewer than two values. Otherwise it is non-negative, and times n − 1 it equals the sum of squared distances from the mean. |
| Stats.Deviation | plot.js:75 | `d3.deviation` is absent exactly for fewer than two values. Otherwise it is the square root (the parameter `root`) of the sample variance. |
| Stats.DeviationNonNegative | plot.js:75 | With a root that maps non-negative numbers to non-negative numbers, a present deviation is non-negative. |
| Stats.ConstantSpread | plot.js:74-75 | Equal readings have that reading as their mean and, when there are two or more, variance 0. |
| Stats.MinDefined | plot.js:85 | `d3.min` is absent exactly when no value is defined. Otherwise it is a lower bound of the defined values and equal to one of them. |
| Stats.MaxDefined | plot.js:86 | `d3.max` is absent exactly when no value is defined. Otherwise it is an upper bound of the defined values and equal to one of them. |
| Aggregation.BinPoint | plot.js:70-77 | A bin point has the bin's time, the mean and the deviation of its rows' readings, and the first row's reading. The deviation is absent exactly for a single row. |
| Aggregation.InsertByTime | plot.js:79 | Insertion into time-ordered bins keeps them ordered and adds exactly the new bin to the multiset. It keeps strict order when the new time is not present. |
| Aggregation.SortByTime | plot.js:79 | The result is ordered by time and is a permutation of the input. It is strictly ascending when the input times are distinct. |
| Aggregation.BinSeriesShape | plot.js:68-79 | A group's bins are strictly ascending in time. Each bin sits at a multiple of 0.01 and summarises exactly the group's rows that round to it, of which there is at least one. A non-empty group has at least one bin. |
| Aggregation.BinSeriesCoversRows | plot.js:69 | Every row of a group lands in the bin at its own bin time. |
| Aggregation.Summary | plot.js:65-80 | `summary` has at most one series per value of the selected column: keys are pairwise distinct, each occurs in some row, and they come in order of first appearance. Each series holds the bins of exactly the rows with its key and has at least one bin. There are no series exactly when there are no rows. That every value present gets a series is `SummaryCoversRows`. |
| Aggregation.SummaryCoversRows | plot.js:65-67 | Every row's value in the selected column is the key of exactly one series. |
| Aggregation.SummaryCoversRowBins | plot.js:65-79 | Every row lands in a bin of its group's series, at the row's own bin time. |
| Aggregation.SummaryBinAt | plot.js:67-79 | Bin `j` of series `k` sits at a multiple of 0.01. It is the summary of exactly the rows that have the series' key and round to its time, and there is at least one such row. |
| Aggregation.SummaryBinsAscending | plot.js:79 | Every series' bins are strictly ascending in time. |
| Aggregation.SummaryDeviationsNonNegative | plot.js:75 | With a non-negative root, every present deviation in the summary is non-negative. |
| Selection.VisibleSeries | plot.js:82 | With no active keys the whole summary is visible. Otherwise exactly the series whose key is active are visible, each as often as in the summary, kept in their original order. |
| Domain.YDomain | plot.js:84-87 | The domain is absent exactly when no visible series has a bin. Otherwise the lower end is at most every bin's `mean - (sd or 0)` and equal to one of them. Likewise, the upper end is at least every bin's `mean + (sd or 0)` and equal to one of them. |
| Domain.DomainOrdered | plot.js:84-87 | When every present deviation is non-negative, lower ≤ upper. |
| Domain.DomainAbsentIffNothingVisible | plot.js:84-87 | When every visible series has a bin, the domain is absent exactly when nothing is visible. |
| Chart.UpdateChart | plot.js:61-87 | One recomputation. With no active keys, the visible series are the whole summary. Otherwise they are exactly the summary's series with an active key, in summary order. The domain is the `YDomain` of the visible series, so its ends bound and are attained by the visible bins' `mean ∓ (sd or 0)`. It is absent exactly when nothing is visible. No rows give no series and no domain. |
| Chart.VisibleBinSummarisesRows | plot.js:65-82 | Every bin of every visible series summarises exactly the rows with the series' key that round to the bin's time, and there is at least one. Its time is a multiple of 0.01. Its mean is the mean of those rows' readings. Its deviation is absent exactly for one row. Its value is the first row's reading. |
| Chart.ChartDomainOrdered | plot.js:84-87 | With a non-negative square root, the chart's y-axis domain is never inverted. |
| Scenario.ExampleSummary | plot.js:65-79 | Worked example: two heart-rate readings 80 and 100 of group "A" at time 0.0, and one reading 40 of group "B" at 0.5, grouped by operation type. "A" gets one bin at 0.0 with mean 90 and deviation √200. "B" gets one bin at 0.5 with mean 40 and no deviation. |

## Left out

- Rendering is not modelled: the SVG set-up, axes, labels, line generator and path join (plot.js:2-36, 89-103). It has no logic of its own.
- Loading is not modelled: the CSV load and `d3.autoType` (plot.js:39-41). This is asynchronous input plus library type inference, so rows are taken as well-typed values. A categorical value that `d3.autoType` turns into a number, boolean or null is modelled by its text. So texts that `d3.autoType` maps to one value (such as "1", "1.0" and "1e0") form one group in the code but separate groups in the model.
- The selector widgets and their event wiring are not modelled (plot.js:45-57, 106-110). The selected vital and column are parameters of `UpdateChart`.
- Colour assignment is not modelled (plot.js:36).
- Table.BinTime: floating point is not modelled, and the half-way rule holds only on exact reals. In IEEE double arithmetic the quotient `t / 0.01` at plot.js:69 can fall just below a half-way point. For example, 0.145 / 0.01 is 14.499999999999998, so the code puts a row at time 0.145 in bin 0.14, where the model's `BinTime` puts it in 0.15. The same happens for other times such as 0.235, 0.285 and 0.295. Means and deviations are also exact here.
- Stats.Deviation: the square root is the parameter `root`, so the contract states the deviation only as `root` of the variance, and nothing about the root itself.
- Stats.Mean: `d3.mean`, `d3.deviation`, `d3.min` and `d3.max` skip `null` and `NaN` values. The model has no such values, since every reading is a real.
- `activeGroups` is created at plot.js:59 and never changed in this file. Only the visibility rule is modelled; there is no toggling.
- The `sort` at plot.js:79 works in place on a freshly built local array that nothing else can see. It is modelled as a pure insertion sort.
