/** Jitter statistics over the rising-edge timestamps (`analyze_jitter` and the
    summary of `check_sync_quality`). The differences between consecutive edges are
    the actual intervals; their mean is the expected interval, and the jitter is each
    interval's deviation from it. */
module SyncSignals {
  import opened Stats

  /** A value pandas may leave undefined (NaN). */
  datatype Option<T> = None | Some(value: T)

  /** The summary of `check_sync_quality`: `expected_interval_sec`, the square of
      `mean_jitter_sec` (None where pandas gives NaN), `max_jitter_sec` and `min_jitter_sec`. */
  datatype JitterStats = JitterStats(
    expectedInterval: real,
    meanJitterVariance: Option<real>,
    maxJitter: real,
    minJitter: real)

  /** `diff().dropna()`: the difference of every edge from the one before it;
      the first edge has no predecessor and yields no entry. */
  function Diffs(t: seq<real>): (d: seq<real>)
    ensures |d| == if |t| < 2 then 0 else |t| - 1
    ensures forall i {:trigger d[i]} :: 0 <= i < |d| ==> d[i] == t[i + 1] - t[i]
  {
    if |t| < 2 then [] else Diffs(t[..|t| - 1]) + [t[|t| - 1] - t[|t| - 2]]
  }

  /** The differences telescope: they add up to the span from the first to the last edge. */
  lemma {:induction false} DiffsSum(t: seq<real>)
    requires |t| >= 1
    ensures Sum(Diffs(t)) == t[|t| - 1] - t[0]
  {
    if |t| >= 2 {
      var n := |t|;
      var prefix := t[..n - 1];
      DiffsSum(prefix);
      var d, dp := Diffs(t), Diffs(prefix);
      assert d[..|d| - 1] == dp;
    }
  }

  /** The mean difference is the span divided by the number of intervals. */
  lemma MeanDiff(t: seq<real>)
    requires |t| >= 2
    ensures Mean(Diffs(t)) == (t[|t| - 1] - t[0]) / (|t| - 1) as real
  {
    DiffsSum(t);
    MeanOfSpan(Diffs(t), t);
  }

  /** A sample of `|t| - 1` values adding up to the span of `t` has the span over
      `|t| - 1` as its mean. */
  lemma MeanOfSpan(xs: seq<real>, t: seq<real>)
    requires |t| >= 2 && |xs| == |t| - 1 && Sum(xs) == t[|t| - 1] - t[0]
    ensures Mean(xs) == (t[|t| - 1] - t[0]) / (|t| - 1) as real
  {
  }

  /** `analyze_jitter`: each interval minus the mean interval. With fewer than two
      edges there is no interval and the result is empty. */
  function AnalyzeJitter(t: seq<real>): (jitter: seq<real>)
    ensures |jitter| == |Diffs(t)|
    ensures forall i :: 0 <= i < |jitter| ==>
      jitter[i] == (t[i + 1] - t[i]) - (t[|t| - 1] - t[0]) / (|t| - 1) as real
    ensures Sum(jitter) == 0.0
  {
    var d := Diffs(t);
    if |d| == 0 then []
    else
      MeanDiff(t);
      CentredOnSpan(d, t);
      Shifted(d, Mean(d))
  }

  /** The intervals of `t` centred on their mean, which is the span over their count,
      are each interval less that quotient, and they sum to zero. */
  lemma CentredOnSpan(d: seq<real>, t: seq<real>)
    requires |t| >= 2 && |d| == |t| - 1
    requires forall i :: 0 <= i < |d| ==> d[i] == t[i + 1] - t[i]
    requires Mean(d) == (t[|t| - 1] - t[0]) / (|t| - 1) as real
    ensures var jitter := Shifted(d, Mean(d));
      |jitter| == |d| &&
      (forall i :: 0 <= i < |jitter| ==>
        jitter[i] == (t[i + 1] - t[i]) - (t[|t| - 1] - t[0]) / (|t| - 1) as real) &&
      Sum(jitter) == 0.0
  {
    CentredSumZero(d);
  }

  /** `check_sync_quality` without the printing. The measurement table it is handed
      is never read, so it is not a parameter. At least two edges are needed for the
      mean interval to exist. */
  function CheckSyncQuality(t: seq<real>): (s: JitterStats)
    requires |t| >= 2
    ensures s.expectedInterval == (t[|t| - 1] - t[0]) / (|t| - 1) as real
    ensures s.meanJitterVariance.Some? <==> |t| >= 3
    ensures s.meanJitterVariance.Some? ==> s.meanJitterVariance.value >= 0.0
    ensures s.maxJitter >= 0.0 && s.minJitter >= 0.0
  {
    var intervals := Diffs(t);
    var expected := Mean(intervals);
    MeanDiff(t);
    MeanBetweenMinMax(intervals);
    JitterStats(
      expected,
      if |intervals| >= 2 then Some(SampleVariance(intervals)) else None,
      Max(intervals) - expected,
      expected - Min(intervals))
  }

  /** Values moved by `-m` lie between the smallest and the largest value moved by
      `-m`, and both of these are reached. */
  lemma ShiftedExtremes(xs: seq<real>, m: real)
    requires |xs| > 0
    ensures var ys := Shifted(xs, m);
      (forall i :: 0 <= i < |ys| ==> Min(xs) - m <= ys[i] <= Max(xs) - m) &&
      (exists i :: 0 <= i < |ys| && ys[i] == Max(xs) - m) &&
      (exists i :: 0 <= i < |ys| && ys[i] == Min(xs) - m)
  {
    var ys := Shifted(xs, m);
    var iHi :| 0 <= iHi < |xs| && xs[iHi] == Max(xs);
    var iLo :| 0 <= iLo < |xs| && xs[iLo] == Min(xs);
    assert ys[iHi] == Max(xs) - m;
    assert ys[iLo] == Min(xs) - m;
  }

  /** `max_jitter_sec` is the largest jitter value and `min_jitter_sec` the negated
      smallest one: every interval lies within them of the expected interval, and
      both bounds are reached. */
  lemma JitterExtremes(t: seq<real>)
    requires |t| >= 2
    ensures var s, jitter := CheckSyncQuality(t), AnalyzeJitter(t);
      (forall i :: 0 <= i < |jitter| ==> -s.minJitter <= jitter[i] <= s.maxJitter) &&
      (exists i :: 0 <= i < |jitter| && jitter[i] == s.maxJitter) &&
      (exists i :: 0 <= i < |jitter| && jitter[i] == -s.minJitter)
  {
    var d := Diffs(t);
    ShiftedExtremes(d, Mean(d));
  }

  /** The deviation reported as `mean_jitter_sec` is taken over the raw intervals,
      not the centred jitter values; both have the same sample deviation. */
  lemma MeanJitterOfRawIntervals(t: seq<real>)
    requires |t| >= 3
    ensures CheckSyncQuality(t).meanJitterVariance == Some(SampleVariance(Diffs(t)))
    ensures CheckSyncQuality(t).meanJitterVariance == Some(SampleVariance(AnalyzeJitter(t)))
  {
    CentredVarianceUnchanged(Diffs(t));
  }

  /** A sample whose values all equal `v` has `v` as its mean, maximum and minimum,
      no variance, and centres to zeros. */
  lemma ConstantSample(xs: seq<real>, v: real)
    requires |xs| > 0
    requires forall i :: 0 <= i < |xs| ==> xs[i] == v
    ensures Mean(xs) == v && Max(xs) == v && Min(xs) == v
    ensures |xs| >= 2 ==> SampleVariance(xs) == 0.0
    ensures forall i :: 0 <= i < |xs| ==> Shifted(xs, Mean(xs))[i] == 0.0
  {
    MeanConstant(xs, v);
    if |xs| >= 2 {
      VarianceConstant(xs, v);
    }
  }

  /** Equally spaced edges have no jitter: every jitter value, the maximum and the
      minimum jitter and the deviation of the intervals are all zero, and the
      expected interval is the spacing. */
  lemma EquallySpacedHasNoJitter(t: seq<real>, period: real)
    requires |t| >= 2
    requires forall i :: 0 <= i < |t| - 1 ==> t[i + 1] - t[i] == period
    ensures forall i :: 0 <= i < |AnalyzeJitter(t)| ==> AnalyzeJitter(t)[i] == 0.0
    ensures var s := CheckSyncQuality(t);
      s.expectedInterval == period && s.maxJitter == 0.0 && s.minJitter == 0.0 &&
      (s.meanJitterVariance.Some? ==> s.meanJitterVariance.value == 0.0)
  {
    var d := Diffs(t);
    forall i | 0 <= i < |d| ensures d[i] == period {
      assert d[i] == t[i + 1] - t[i];
    }
    ConstantSample(d, period);
  }
}
