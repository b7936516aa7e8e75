# time_sync_project: trigger edges, per-interval statistics and jitter

This Dafny project models the analysis core of a trigger/measurement synchronisation
pipeline. The pipeline has three stages:

- **Rising-edge detection** (`find_rising_edges`). A sampled TTL trigger line is a
  sequence of `(timestamp, signal)` rows. Row `i` is a rising edge when row `i - 1`
  has signal 0 and row `i` has signal 1. The timestamps of those rows are returned in
  input order (`process_trigger.dfy`, module `ProcessTrigger`).
- **Per-interval aggregation** (`compute_mean_per_interval`). Consecutive edges bound
  half-open intervals `[start, end)`. For each interval, the measurement rows whose
  timestamp falls inside are selected, and intervals with no row are skipped. Every
  other interval yields one result row: its bounds, plus the mean and sample standard
  deviation of each channel ch1..ch4. A single selected row gets deviation 0
  (`fillna(0)`). The loop is an imperative method, `ComputeMeanPerInterval`, proved
  equal to the pure specification `Aggregate` (`process_measurement.dfy`, module
  `ProcessMeasurement`).
- **Jitter statistics** (`analyze_jitter` and `check_sync_quality`). These take the
  differences between consecutive edges, their mean (the expected interval), each
  difference's deviation from that mean, the sample deviation of the differences, the
  largest deviation and the negated smallest deviation (`sync_signals.dfy`, module
  `SyncSignals`).

`stats.dfy` (module `Stats`) defines the sample statistics that pandas computes: sum,
mean, sum of squared deviations, sample variance with an `n - 1` denominator, maximum
and minimum. It also holds the lemmas about them that the three stages rely on.

Timestamps, signal levels and voltages are mathematical reals. A standard deviation is
carried as its square, the sample variance: every property stated here about the
deviation (non-negative, zero for equal values, unchanged by centring) holds equally
for its square root.

## Model

| member | source | states |
|---|---|---|
| ProcessTrigger.EdgeIndices | src/process_trigger.py:18 | Every listed index passes the mask (index at least 1, previous signal 0, own signal 1). Every index that passes the mask is listed. Listed indices are increasing and at least 2 apart. |
| ProcessTrigger.FindRisingEdges | src/process_trigger.py:18-21 | The result holds the timestamps of the masked rows, in row order, re-indexed from 0. There are at most `n / 2` of them. Fewer than two rows give no edge. The result is empty exactly when no row passes the mask. |
| ProcessTrigger.SpacedCountBound | src/process_trigger.py:18 | Positive indices below `n` that are pairwise at least 2 apart number at most `n / 2`. This is the bound on the edge count. |
| ProcessTrigger.RisingEdgeReported | src/process_trigger.py:18-21 | With strictly increasing timestamps, row `i`'s timestamp is in the result if and only if row `i` is a rising edge. |
| ProcessTrigger.EdgesStrictlyIncreasing | src/process_trigger.py:18-21 | Strictly increasing input timestamps give strictly increasing edge timestamps. |
| ProcessTrigger.ConstantSignalHasNoEdges | src/process_trigger.py:18 | A signal held at one level has no rising edge. |
| ProcessMeasurement.SelectInterval | src/process_measurement.py:26 | The selection is no longer than the table, and every selected row has `start <= timestamp < end`. |
| ProcessMeasurement.SelectIntervalCounts | src/process_measurement.py:26 | A row is selected exactly as often as it occurs in the table when its timestamp lies in `[start, end)`, and never otherwise. |
| ProcessMeasurement.ChannelMeans | src/process_measurement.py:33 | Each channel's mean is the sum of its selected values over their count. A single row gives its own values. |
| ProcessMeasurement.ChannelVariances | src/process_measurement.py:34-37 | Each channel's entry is non-negative. From two rows on it is the sample variance (`n - 1` denominator). For a single row it is 0, which is `fillna(0)` applied to pandas' NaN. |
| ProcessMeasurement.IntervalStatOf | src/process_measurement.py:33-45 | The result row carries the interval bounds. Each channel's mean is the sum of its selected values over their count. Each variance is non-negative, and from two rows on it is the sample variance. A single row gives its own values as means and variance 0. |
| ProcessMeasurement.NonEmptyIntervals | src/process_measurement.py:21-30 | The loop iterations that do not skip are listed in increasing order, and each names an interval that holds rows. |
| ProcessMeasurement.NonEmptyIntervalsComplete | src/process_measurement.py:29-30 | Every interval that holds rows is among the iterations that do not skip. |
| ProcessMeasurement.NonEmptyIntervalsCountIff | src/process_measurement.py:29-30 | No iteration skips if and only if every interval holds a row. |
| ProcessMeasurement.ComputeMeanPerInterval | src/process_measurement.py:3-49 | The loop's result table equals `Aggregate`: the statistics of each non-empty interval, in interval order. |
| ProcessMeasurement.AggregateRowsFromIntervals | src/process_measurement.py:21-47 | Result row `j` is the statistics of the rows selected in `[edges[i], edges[i + 1])` for some interval `i` that holds rows. These `i` increase with `j`. Every interval that holds rows has its result row. |
| ProcessMeasurement.AggregateCount | src/process_measurement.py:21-30 | There are at most `len(edges) - 1` result rows, and none for fewer than two edges. There are exactly `len(edges) - 1` if and only if every interval holds a row. |
| ProcessMeasurement.AggregateIntervalsProper | src/process_measurement.py:22-30 | Every result row has `interval_start < interval_end`, whatever the order of the edges, because a row survives only when some measurement lies in its interval. |
| ProcessMeasurement.SampleAtEdgeStartsInterval | src/process_measurement.py:26 | A row stamped exactly at an edge belongs to the interval that starts there, not to the one that ends there. |
| ProcessMeasurement.IntervalsDisjoint | src/process_measurement.py:26 | With non-decreasing edges, no timestamp lies in two different intervals. |
| ProcessMeasurement.IntervalsCover | src/process_measurement.py:26 | With non-decreasing edges, every time from the first edge up to, but not including, the last edge lies in some interval. |
| ProcessMeasurement.ConstantChannelStat | src/process_measurement.py:33-37 | A channel whose selected values all equal `v` has mean `v` and deviation 0. |
| SyncSignals.Diffs | src/sync_signals.py:14 | There are `n - 1` differences (none for fewer than two edges), with `d[i] = t[i + 1] - t[i]`. The first `diff()` entry, which is NaN, is dropped. |
| SyncSignals.DiffsSum | src/sync_signals.py:14 | The differences telescope: they sum to the last edge minus the first. |
| SyncSignals.MeanDiff | src/sync_signals.py:30 | The mean difference is the span `t[n - 1] - t[0]` over `n - 1`. |
| SyncSignals.AnalyzeJitter | src/sync_signals.py:4-16 | There is one jitter value per difference, `jitter[i] = (t[i + 1] - t[i]) - span / (n - 1)`. The jitter values sum to zero. |
| SyncSignals.CentredOnSpan | src/sync_signals.py:15 | Centring the differences on their mean gives each difference minus `span / (n - 1)`, and the centred values sum to zero. |
| SyncSignals.CheckSyncQuality | src/sync_signals.py:18-38 | `expected_interval_sec` is `span / (n - 1)`. The deviation is defined exactly when there are at least three edges, and it is then non-negative. `max_jitter_sec` and `min_jitter_sec` are non-negative. |
| SyncSignals.ShiftedExtremes | src/sync_signals.py:36-37 | Values moved by `-m` lie between the minimum and the maximum moved by `-m`, and both are reached. |
| SyncSignals.JitterExtremes | src/sync_signals.py:36-37 | Every jitter value lies in `[-min_jitter_sec, max_jitter_sec]`, and both ends are reached: `max_jitter_sec` is the largest jitter value and `min_jitter_sec` the negated smallest one. |
| SyncSignals.MeanJitterOfRawIntervals | src/sync_signals.py:35 | The square of `mean_jitter_sec` is the sample variance of the raw differences, and it equals the sample variance of the centred jitter values. |
| SyncSignals.ConstantSample | src/sync_signals.py:30-37 | Equal values are their own mean, maximum and minimum, have variance 0, and centre to zeros. |
| SyncSignals.EquallySpacedHasNoJitter | src/sync_signals.py:15-37 | For equally spaced edges, every jitter value is 0, the expected interval is the spacing, the maximum and minimum jitter are 0, and the deviation is 0. |
| Stats.SampleVariance | src/process_measurement.py:34 | The sample variance (`n - 1` denominator) is non-negative. |
| Stats.Max | src/sync_signals.py:36 | The maximum is one of the values and bounds all of them from above. |
| Stats.Min | src/sync_signals.py:37 | The minimum is one of the values and bounds all of them from below. |
| Stats.MeanConstant | src/process_measurement.py:33 | The mean of values that all equal `v` is `v`. |
| Stats.VarianceConstant | src/process_measurement.py:34 | Values that all equal `v` have mean `v` and sample variance 0. |
| Stats.MeanBetweenMinMax | src/sync_signals.py:36-37 | The mean lies between the minimum and the maximum, which is why both jitter bounds are non-negative. |
| Stats.CentredSumZero | src/sync_signals.py:15 | Values centred on their mean sum to zero and have mean zero. |
| Stats.CentredVarianceUnchanged | src/sync_signals.py:35 | Centring on the mean leaves the sample variance unchanged. |

The table above lists the members whose contracts state properties. The following reference definitions carry no README row; the members listed above characterise them:
- `ProcessTrigger.IsRisingEdge`: the mask at src/process_trigger.py:18.
- `ProcessMeasurement.InInterval`: the half-open filter at src/process_measurement.py:26.
- `ProcessMeasurement.FilledVariance`: the square of `std().fillna(0)` at src/process_measurement.py:34-37.
- `ProcessMeasurement.IntervalCount`: the number of loop iterations, `range(len(rising_timestamps) - 1)` at src/process_measurement.py:21.
- `ProcessMeasurement.Intervals`: the interval bounds and selected rows of each iteration, src/process_measurement.py:21-26.
- `ProcessMeasurement.StatsOf`: the result rows built and appended for the listed intervals, src/process_measurement.py:33-47.
- `ProcessMeasurement.Aggregate`: the table returned at src/process_measurement.py:19-49.
- `Stats.Sum`, `Stats.Mean` and `Stats.SumSqDev`: the pandas `mean()` and `std()` used at src/process_measurement.py:33-34 and src/sync_signals.py:30-35.
- `Stats.Shifted`: every value less a constant, the `diffs - diffs.mean()` of src/sync_signals.py:15.

## Left out

- File input: the `read_csv` calls (src/process_trigger.py:15, src/process_measurement.py:17) are not modelled. The model takes the parsed tables as sequences of rows, and results are returned as sequences of records, not DataFrames or Series. Pandas labels are not modelled: `analyze_jitter` returns a Series labelled 1..n-1, because `diff().dropna()` keeps the labels, while `SyncSignals.AnalyzeJitter` returns a sequence indexed from 0.
- The square root in `std()`: every deviation is carried as its square, the sample variance.
- IEEE floating point: values are exact reals, so rounding is not modelled and NaN never occurs as data. Where pandas produces NaN from too few values, the model uses `Option.None` (the deviation of a single difference in `check_sync_quality`) or a precondition.
- SyncSignals.CheckSyncQuality: requires at least two edges. With fewer, pandas returns NaN for every entry rather than failing; the model does not give a value in that case.
- The `print` summary and the `verbose` flag of `check_sync_quality` are not modelled. The `measurement_df` parameter is never read, so it is not a parameter of the model.
- Channels: the code reads exactly the columns ch1..ch4, and the model fixes these four channels.
- Missing columns: a measurement table without one of ch1..ch4 makes src/process_measurement.py:33 raise `KeyError` once an interval holds rows, and a table without `timestamp` raises at line 26 once the loop runs; a trigger table without `signal` or `timestamp` raises at src/process_trigger.py:18-21. The model's row types always carry these columns, so these error paths are not modelled.
- Input validation: the code has no ordering check and no error for fewer than two edges, so the model has none either. The code filters the whole table once per interval, and that is what is modelled.
- The same edge mask appears in src/generate_variable_data.py:45. `ProcessTrigger.FindRisingEdges` covers it; the rest of the data generators (random, float-stepped synthetic data), main.py, and the plotting modules src/visualize.py and src/live_xy_plot.py are not part of this model.
