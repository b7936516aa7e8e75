/** Descriptive statistics over finite samples of reals, as pandas computes them
    with `Series.mean`, `Series.std` (sample, n - 1 denominator), `max` and `min`.
    Floating-point rounding is not modelled: values are mathematical reals.
    The standard deviation is represented by its square, the sample variance. */
module Stats {

  /** Sum of the values, accumulated from the first to the last. */
  function Sum(xs: seq<real>): real
  {
    if xs == [] then 0.0 else Sum(xs[..|xs| - 1]) + xs[|xs| - 1]
  }

  /** Arithmetic mean; pandas yields NaN for an empty sample, so callers must supply one value at least. */
  function Mean(xs: seq<real>): real
    requires |xs| > 0
  {
    Sum(xs) / |xs| as real
  }

  /** Sum of squared deviations of the values from a centre `c`. */
  function SumSqDev(xs: seq<real>, c: real): (s: real)
    ensures s >= 0.0
  {
    if xs == [] then 0.0
    else
      var d := xs[|xs| - 1] - c;
      SumSqDev(xs[..|xs| - 1], c) + d * d
  }

  /** Sample variance (n - 1 denominator), the square of pandas' default `std()`;
      it is undefined (NaN in pandas) for fewer than two values. */
  function SampleVariance(xs: seq<real>): (v: real)
    requires |xs| >= 2
    ensures v >= 0.0
  {
    SumSqDev(xs, Mean(xs)) / (|xs| - 1) as real
  }

  /** Largest value of a non-empty sample. */
  function Max(xs: seq<real>): (m: real)
    requires |xs| > 0
    ensures m in xs
    ensures forall i :: 0 <= i < |xs| ==> xs[i] <= m
  {
    if |xs| == 1 then xs[0]
    else
      var m' := Max(xs[..|xs| - 1]);
      if xs[|xs| - 1] > m' then xs[|xs| - 1] else m'
  }

  /** Smallest value of a non-empty sample. */
  function Min(xs: seq<real>): (m: real)
    requires |xs| > 0
    ensures m in xs
    ensures forall i :: 0 <= i < |xs| ==> m <= xs[i]
  {
    if |xs| == 1 then xs[0]
    else
      var m' := Min(xs[..|xs| - 1]);
      if xs[|xs| - 1] < m' then xs[|xs| - 1] else m'
  }

  /** Every value moved by `-c`: the centred values when `c` is the mean. */
  function Shifted(xs: seq<real>, c: real): (ys: seq<real>)
  {
    seq(|xs|, i requires 0 <= i < |xs| => xs[i] - c)
  }

  /** A sample of `n` copies of `v` sums to `n * v`. */
  lemma {:induction false} SumConstant(xs: seq<real>, v: real)
    requires forall i :: 0 <= i < |xs| ==> xs[i] == v
    ensures Sum(xs) == |xs| as real * v
  {
    if xs != [] {
      SumConstant(xs[..|xs| - 1], v);
    }
  }

  /** The mean of a sample whose values are all `v` is `v`. */
  lemma MeanConstant(xs: seq<real>, v: real)
    requires |xs| > 0
    requires forall i :: 0 <= i < |xs| ==> xs[i] == v
    ensures Mean(xs) == v
  {
    SumConstant(xs, v);
  }

  /** Values that all equal the centre have no squared deviation. */
  lemma {:induction false} SumSqDevConstant(xs: seq<real>, v: real)
    requires forall i :: 0 <= i < |xs| ==> xs[i] == v
    ensures SumSqDev(xs, v) == 0.0
  {
    if xs != [] {
      SumSqDevConstant(xs[..|xs| - 1], v);
    }
  }

  /** The sample variance of equal values is zero, and so is their standard deviation. */
  lemma VarianceConstant(xs: seq<real>, v: real)
    requires |xs| >= 2
    requires forall i :: 0 <= i < |xs| ==> xs[i] == v
    ensures Mean(xs) == v
    ensures SampleVariance(xs) == 0.0
  {
    MeanConstant(xs, v);
    SumSqDevConstant(xs, v);
  }

  /** Bounds on every value bound the sum. */
  lemma {:induction false} SumBounds(xs: seq<real>, lo: real, hi: real)
    requires forall i :: 0 <= i < |xs| ==> lo <= xs[i] <= hi
    ensures |xs| as real * lo <= Sum(xs) <= |xs| as real * hi
  {
    if xs != [] {
      SumBounds(xs[..|xs| - 1], lo, hi);
    }
  }

  /** Bounds on every value bound the mean. */
  lemma MeanBounds(xs: seq<real>, lo: real, hi: real)
    requires |xs| > 0
    requires forall i :: 0 <= i < |xs| ==> lo <= xs[i] <= hi
    ensures lo <= Mean(xs) <= hi
  {
    SumBounds(xs, lo, hi);
    QuotientBounds(Sum(xs), |xs| as real, lo, hi);
  }

  /** The mean lies between the smallest and the largest value. */
  lemma MeanBetweenMinMax(xs: seq<real>)
    requires |xs| > 0
    ensures Min(xs) <= Mean(xs) <= Max(xs)
  {
    MeanBounds(xs, Min(xs), Max(xs));
  }

  /** If `n * lo <= s <= n * hi` for a positive `n`, then `s / n` lies in `[lo, hi]`. */
  lemma QuotientBounds(s: real, n: real, lo: real, hi: real)
    requires n > 0.0
    requires n * lo <= s <= n * hi
    ensures lo <= s / n <= hi
  {
    var q := s / n;
    assert q * n == s;
    assert (q - lo) * n >= 0.0;
    assert (hi - q) * n >= 0.0;
  }

  /** Moving every value by `-c` moves the sum by `-n * c`. */
  lemma {:induction false} SumShifted(xs: seq<real>, c: real)
    ensures Sum(Shifted(xs, c)) == Sum(xs) - |xs| as real * c
  {
    if xs != [] {
      var ys := Shifted(xs, c);
      assert ys[..|ys| - 1] == Shifted(xs[..|xs| - 1], c);
      SumShifted(xs[..|xs| - 1], c);
    }
  }

  /** Values centred on their own mean sum to zero and have mean zero. */
  lemma CentredSumZero(xs: seq<real>)
    requires |xs| > 0
    ensures Sum(Shifted(xs, Mean(xs))) == 0.0
    ensures Mean(Shifted(xs, Mean(xs))) == 0.0
  {
    var n := |xs| as real;
    SumShifted(xs, Mean(xs));
    assert n * Mean(xs) == Sum(xs);
  }

  /** Squared deviations from `c` are the squares of the values moved by `-c`. */
  lemma {:induction false} SumSqDevShifted(xs: seq<real>, c: real)
    ensures SumSqDev(Shifted(xs, c), 0.0) == SumSqDev(xs, c)
  {
    if xs != [] {
      var ys := Shifted(xs, c);
      assert ys[..|ys| - 1] == Shifted(xs[..|xs| - 1], c);
      SumSqDevShifted(xs[..|xs| - 1], c);
    }
  }

  /** Centring a sample on its mean leaves its sample variance unchanged. */
  lemma CentredVarianceUnchanged(xs: seq<real>)
    requires |xs| >= 2
    ensures SampleVariance(Shifted(xs, Mean(xs))) == SampleVariance(xs)
  {
    CentredSumZero(xs);
    SumSqDevShifted(xs, Mean(xs));
  }
}
