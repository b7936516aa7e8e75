/** Per-interval aggregation of the measurement table (`compute_mean_per_interval`).
    Consecutive rising edges bound half-open intervals [start, end); the rows whose
    timestamp falls in an interval are selected, an interval with no row is skipped,
    and every other interval yields one result row with the mean and the standard
    deviation of each channel ch1..ch4. The standard deviation is carried as its
    square, the sample variance; a single selected row has deviation 0. */
module ProcessMeasurement {
  import opened Stats

  /** The four measurement columns the aggregation reads. */
  datatype Channel = Ch1 | Ch2 | Ch3 | Ch4

  /** One real value per channel ch1..ch4. */
  datatype ChannelValues = ChannelValues(ch1: real, ch2: real, ch3: real, ch4: real)
  {
    function Get(c: Channel): real
    {
      match c
      case Ch1 => ch1
      case Ch2 => ch2
      case Ch3 => ch3
      case Ch4 => ch4
    }
  }

  /** One row of the measurement table: `timestamp` in seconds and the channel voltages. */
  datatype MeasurementRow = MeasurementRow(timestamp: real, channels: ChannelValues)

  /** One result row: the interval bounds, and per channel the mean (`chN_mean`)
      and the square of the standard deviation (`chN_std` squared). */
  datatype IntervalStat = IntervalStat(
    intervalStart: real,
    intervalEnd: real,
    mean: ChannelValues,
    variance: ChannelValues)

  /** The half-open membership test `start <= t < end`. */
  predicate InInterval(t: real, start: real, end: real)
  {
    start <= t < end
  }

  /** The rows whose timestamp lies in [start, end). */
  function SelectInterval(rows: seq<MeasurementRow>, start: real, end: real): (sel: seq<MeasurementRow>)
    ensures |sel| <= |rows|
    ensures forall k :: 0 <= k < |sel| ==> InInterval(sel[k].timestamp, start, end)
  {
    if rows == [] then []
    else
      var last := rows[|rows| - 1];
      var prev := SelectInterval(rows[..|rows| - 1], start, end);
      if InInterval(last.timestamp, start, end) then prev + [last] else prev
  }

  /** The selection keeps every row in [start, end) as often as the table holds
      it, and no other row. */
  lemma {:induction false} SelectIntervalCounts(rows: seq<MeasurementRow>, start: real, end: real)
    ensures var sel := SelectInterval(rows, start, end);
      forall r :: multiset(sel)[r] == if InInterval(r.timestamp, start, end) then multiset(rows)[r] else 0
  {
    if rows != [] {
      var last := rows[|rows| - 1];
      var prefix := rows[..|rows| - 1];
      assert rows == prefix + [last];
      SelectIntervalCounts(prefix, start, end);
    }
  }

  /** One channel's column of a table. */
  function Column(rows: seq<MeasurementRow>, c: Channel): seq<real>
  {
    seq(|rows|, i requires 0 <= i < |rows| => rows[i].channels.Get(c))
  }

  /** `std().fillna(0)` squared: the sample variance, and 0 for a single value,
      where pandas' sample deviation is NaN. */
  function FilledVariance(xs: seq<real>): real
    requires |xs| > 0
  {
    if |xs| == 1 then 0.0 else SampleVariance(xs)
  }

  /** Per channel, the mean of the selected values (`mean()` over ch1..ch4): their
      sum over their count; one selected row gives its own values. */
  function ChannelMeans(sel: seq<MeasurementRow>): (m: ChannelValues)
    requires |sel| > 0
    ensures forall c :: m.Get(c) == Sum(Column(sel, c)) / |sel| as real
    ensures |sel| == 1 ==> forall c :: m.Get(c) == sel[0].channels.Get(c)
  {
    var result :=
      ChannelValues(Mean(Column(sel, Ch1)), Mean(Column(sel, Ch2)), Mean(Column(sel, Ch3)), Mean(Column(sel, Ch4)));
    assert forall c :: (result.Get(c) == Sum(Column(sel, c)) / |sel| as real &&
                        (|sel| == 1 ==> result.Get(c) == sel[0].channels.Get(c))) by {
      forall c ensures result.Get(c) == Sum(Column(sel, c)) / |sel| as real &&
          (|sel| == 1 ==> result.Get(c) == sel[0].channels.Get(c)) {
        ColumnMean(sel, c);
      }
    }
    result
  }

  /** A column's mean is its sum over the number of rows; one row gives its own value. */
  lemma ColumnMean(sel: seq<MeasurementRow>, c: Channel)
    requires |sel| > 0
    ensures Mean(Column(sel, c)) == Sum(Column(sel, c)) / |sel| as real
    ensures |sel| == 1 ==> Mean(Column(sel, c)) == sel[0].channels.Get(c)
  {
    if |sel| == 1 {
      MeanConstant(Column(sel, c), sel[0].channels.Get(c));
    }
  }

  /** Per channel, the square of `std().fillna(0)` over ch1..ch4: never negative,
      the sample variance from two rows on, and 0 for a single row. */
  function ChannelVariances(sel: seq<MeasurementRow>): (v: ChannelValues)
    requires |sel| > 0
    ensures forall c :: v.Get(c) >= 0.0
    ensures |sel| >= 2 ==> forall c :: v.Get(c) == SampleVariance(Column(sel, c))
    ensures |sel| == 1 ==> forall c :: v.Get(c) == 0.0
  {
    ChannelValues(
      FilledVariance(Column(sel, Ch1)), FilledVariance(Column(sel, Ch2)),
      FilledVariance(Column(sel, Ch3)), FilledVariance(Column(sel, Ch4)))
  }

  /** The result row for a non-empty selection of an interval: its bounds, and per
      channel the sum of the selected values over their count and, from two rows on,
      their sample variance; one selected row gives its own values as means and deviation 0. */
  function IntervalStatOf(sel: seq<MeasurementRow>, start: real, end: real): (stat: IntervalStat)
    requires |sel| > 0
    ensures stat.intervalStart == start && stat.intervalEnd == end
    ensures forall c :: stat.mean.Get(c) == Sum(Column(sel, c)) / |sel| as real
    ensures forall c :: stat.variance.Get(c) >= 0.0
    ensures |sel| >= 2 ==> forall c :: stat.variance.Get(c) == SampleVariance(Column(sel, c))
    ensures |sel| == 1 ==> forall c :: stat.mean.Get(c) == sel[0].channels.Get(c) && stat.variance.Get(c) == 0.0
  {
    IntervalStat(start, end, ChannelMeans(sel), ChannelVariances(sel))
  }

  /** Number of loop iterations: `range(len(edges) - 1)` is empty for fewer than two edges. */
  function IntervalCount(edges: seq<real>): nat
  {
    if |edges| < 2 then 0 else |edges| - 1
  }

  /** One trigger interval [start, end) with the measurement rows selected for it. */
  datatype Interval = Interval(start: real, end: real, rows: seq<MeasurementRow>)

  /** The intervals of the loop, in order: entry `i` is bounded by `edges[i]` and
      `edges[i + 1]` and holds the rows selected for that range. */
  function Intervals(rows: seq<MeasurementRow>, edges: seq<real>): (ivs: seq<Interval>)
    ensures |ivs| == IntervalCount(edges)
  {
    seq(IntervalCount(edges), i requires 0 <= i < IntervalCount(edges) =>
      Interval(edges[i], edges[i + 1], SelectInterval(rows, edges[i], edges[i + 1])))
  }

  /** The positions of the first `k` intervals that hold rows, in increasing order:
      the iterations of the loop that do not `continue`. */
  function NonEmptyIntervals(ivs: seq<Interval>, k: nat): (ix: seq<nat>)
    requires k <= |ivs|
    ensures |ix| <= k
    ensures forall j :: 0 <= j < |ix| ==> ix[j] < k && |ivs[ix[j]].rows| > 0
    ensures forall j1, j2 :: 0 <= j1 < j2 < |ix| ==> ix[j1] < ix[j2]
  {
    if k == 0 then []
    else
      var prev := NonEmptyIntervals(ivs, k - 1);
      if |ivs[k - 1].rows| == 0 then prev else prev + [k - 1]
  }

  /** One result row per listed interval, in the listed order. */
  function StatsOf(ivs: seq<Interval>, ix: seq<nat>): seq<IntervalStat>
    requires forall j :: 0 <= j < |ix| ==> ix[j] < |ivs| && |ivs[ix[j]].rows| > 0
  {
    seq(|ix|, j requires 0 <= j < |ix| => IntervalStatOf(ivs[ix[j]].rows, ivs[ix[j]].start, ivs[ix[j]].end))
  }

  /** The whole result table: the statistics of every interval that holds rows, in interval order. */
  function Aggregate(rows: seq<MeasurementRow>, edges: seq<real>): seq<IntervalStat>
  {
    var ivs := Intervals(rows, edges);
    StatsOf(ivs, NonEmptyIntervals(ivs, |ivs|))
  }

  /** `compute_mean_per_interval` on an already parsed measurement table. */
  method ComputeMeanPerInterval(rows: seq<MeasurementRow>, risingTimestamps: seq<real>)
    returns (results: seq<IntervalStat>)
    ensures results == Aggregate(rows, risingTimestamps)
  {
    ghost var ivs := Intervals(rows, risingTimestamps);
    results := [];
    var n := IntervalCount(risingTimestamps);
    for i := 0 to n
      invariant results == StatsOf(ivs, NonEmptyIntervals(ivs, i))
    {
      var start := risingTimestamps[i];
      var end := risingTimestamps[i + 1];
      var intervalData := SelectInterval(rows, start, end);
      assert ivs[i] == Interval(start, end, intervalData);
      if |intervalData| == 0 {
        continue;
      }
      var stat := IntervalStatOf(intervalData, start, end);
      StatsOfAppend(ivs, NonEmptyIntervals(ivs, i), i);
      results := results + [stat];
    }
  }

  /** Listing one more interval appends its row. */
  lemma StatsOfAppend(ivs: seq<Interval>, ix: seq<nat>, i: nat)
    requires forall j :: 0 <= j < |ix| ==> ix[j] < |ivs| && |ivs[ix[j]].rows| > 0
    requires i < |ivs| && |ivs[i].rows| > 0
    ensures StatsOf(ivs, ix + [i]) == StatsOf(ivs, ix) + [IntervalStatOf(ivs[i].rows, ivs[i].start, ivs[i].end)]
  {
  }

  /** Every interval among the first `k` that holds rows is listed. */
  lemma {:induction false} NonEmptyIntervalsComplete(ivs: seq<Interval>, k: nat, i: nat)
    requires i < k <= |ivs| && |ivs[i].rows| > 0
    ensures i in NonEmptyIntervals(ivs, k)
  {
    if i < k - 1 {
      NonEmptyIntervalsComplete(ivs, k - 1, i);
    } else {
      var ix := NonEmptyIntervals(ivs, k);
      assert ix[|ix| - 1] == i;
    }
  }

  /** All of the first `k` intervals are listed precisely when every one of them holds rows. */
  lemma {:induction false} NonEmptyIntervalsCountIff(ivs: seq<Interval>, k: nat)
    requires k <= |ivs|
    ensures |NonEmptyIntervals(ivs, k)| == k <==> forall i :: 0 <= i < k ==> |ivs[i].rows| > 0
  {
    if k > 0 {
      NonEmptyIntervalsCountIff(ivs, k - 1);
    }
  }

  /** Every result row is the statistics of the rows of one interval `i` that holds
      rows, with bounds `edges[i]` and `edges[i + 1]`; rows appear in increasing `i`,
      and every interval that holds rows has its row. */
  lemma AggregateRowsFromIntervals(rows: seq<MeasurementRow>, edges: seq<real>)
    ensures var stats, ix := Aggregate(rows, edges), NonEmptyIntervals(Intervals(rows, edges), IntervalCount(edges));
      |stats| == |ix| &&
      (forall j :: 0 <= j < |stats| ==>
        ix[j] + 1 < |edges| &&
        var sel := SelectInterval(rows, edges[ix[j]], edges[ix[j] + 1]);
        |sel| > 0 && stats[j] == IntervalStatOf(sel, edges[ix[j]], edges[ix[j] + 1])) &&
      (forall j1, j2 :: 0 <= j1 < j2 < |ix| ==> ix[j1] < ix[j2]) &&
      (forall i :: 0 <= i < IntervalCount(edges) && |SelectInterval(rows, edges[i], edges[i + 1])| > 0 ==> i in ix)
  {
    var ivs := Intervals(rows, edges);
    forall i | 0 <= i < |ivs| && |SelectInterval(rows, edges[i], edges[i + 1])| > 0
      ensures i in NonEmptyIntervals(ivs, |ivs|)
    {
      NonEmptyIntervalsComplete(ivs, |ivs|, i);
    }
  }

  /** At most `len(edges) - 1` rows, none for fewer than two edges, and exactly
      `len(edges) - 1` precisely when every interval holds a measurement row. */
  lemma AggregateCount(rows: seq<MeasurementRow>, edges: seq<real>)
    ensures |Aggregate(rows, edges)| <= IntervalCount(edges)
    ensures |edges| < 2 ==> Aggregate(rows, edges) == []
    ensures |Aggregate(rows, edges)| == IntervalCount(edges) <==>
      forall i :: 0 <= i < IntervalCount(edges) ==> |SelectInterval(rows, edges[i], edges[i + 1])| > 0
  {
    var ivs := Intervals(rows, edges);
    var ix := NonEmptyIntervals(ivs, |ivs|);
    assert |Aggregate(rows, edges)| == |ix|;
    NonEmptyIntervalsCountIff(ivs, |ivs|);
    IntervalRows(rows, edges);
  }

  /** Every result row describes a proper interval: its start lies before its end,
      whatever the order of the edges, since a selected row lies in between. */
  lemma AggregateIntervalsProper(rows: seq<MeasurementRow>, edges: seq<real>)
    ensures var stats := Aggregate(rows, edges);
      forall j :: 0 <= j < |stats| ==> stats[j].intervalStart < stats[j].intervalEnd
  {
    AggregateRowsFromIntervals(rows, edges);
  }

  /** The rows of interval `i` are the rows selected between edges `i` and `i + 1`. */
  lemma IntervalRows(rows: seq<MeasurementRow>, edges: seq<real>)
    ensures forall i :: 0 <= i < IntervalCount(edges) ==>
      Intervals(rows, edges)[i].rows == SelectInterval(rows, edges[i], edges[i + 1])
  {
  }

  /** A row stamped exactly at an edge belongs to the interval that starts there,
      never to the one that ends there. */
  lemma SampleAtEdgeStartsInterval(rows: seq<MeasurementRow>, edges: seq<real>, i: nat, r: MeasurementRow)
    requires i + 2 < |edges| && edges[i + 1] < edges[i + 2]
    requires r in rows && r.timestamp == edges[i + 1]
    ensures r !in SelectInterval(rows, edges[i], edges[i + 1])
    ensures r in SelectInterval(rows, edges[i + 1], edges[i + 2])
  {
    SelectIntervalCounts(rows, edges[i], edges[i + 1]);
    SelectIntervalCounts(rows, edges[i + 1], edges[i + 2]);
    assert multiset(SelectInterval(rows, edges[i], edges[i + 1]))[r] == 0;
    assert multiset(SelectInterval(rows, edges[i + 1], edges[i + 2]))[r] == multiset(rows)[r] > 0;
  }

  /** With non-decreasing edges the intervals are pairwise disjoint, so a row is
      aggregated into at most one result row. */
  lemma IntervalsDisjoint(edges: seq<real>, i: nat, j: nat, t: real)
    requires forall a, b :: 0 <= a < b < |edges| ==> edges[a] <= edges[b]
    requires i < j && j + 1 < |edges|
    ensures !(InInterval(t, edges[i], edges[i + 1]) && InInterval(t, edges[j], edges[j + 1]))
  {
  }

  /** With non-decreasing edges every time from the first edge up to (not including)
      the last lies in some interval. */
  lemma {:induction false} IntervalsCover(edges: seq<real>, t: real)
    requires |edges| >= 2
    requires forall a, b :: 0 <= a < b < |edges| ==> edges[a] <= edges[b]
    requires edges[0] <= t < edges[|edges| - 1]
    ensures exists i :: 0 <= i < |edges| - 1 && InInterval(t, edges[i], edges[i + 1])
  {
    var last := |edges| - 1;
    if t >= edges[last - 1] {
      assert InInterval(t, edges[last - 1], edges[last]);
    } else {
      IntervalsCover(edges[..last], t);
      var i :| 0 <= i < last - 1 && InInterval(t, edges[..last][i], edges[..last][i + 1]);
      assert InInterval(t, edges[i], edges[i + 1]);
    }
  }

  /** A channel whose selected values all equal `v` has mean `v` and deviation 0. */
  lemma ConstantChannelStat(sel: seq<MeasurementRow>, start: real, end: real, c: Channel, v: real)
    requires |sel| > 0
    requires forall k :: 0 <= k < |sel| ==> sel[k].channels.Get(c) == v
    ensures IntervalStatOf(sel, start, end).mean.Get(c) == v
    ensures IntervalStatOf(sel, start, end).variance.Get(c) == 0.0
  {
    var col := Column(sel, c);
    MeanConstant(col, v);
    if |sel| >= 2 {
      VarianceConstant(col, v);
    }
    var stat := IntervalStatOf(sel, start, end);
    assert stat.mean.Get(c) == Mean(col) && stat.variance.Get(c) == FilledVariance(col) by {
      match c
      case Ch1 =>
      case Ch2 =>
      case Ch3 =>
      case Ch4 =>
    }
  }
}
