/** Rolling-window statistics (`_window`, `_mean`, `_zscore`, `_percentile`, `_crowding`). */
module WindowStatistics {
  import opened Common
  import opened Counting
  import opened Products
  import opened Sums

  /** `values[-size:]` when there are enough values; the slice from `-0` is the whole list. */
  function Window(values: seq<real>, size: nat): Option<seq<real>> {
    if size <= |values| then Some(if size == 0 then values else values[|values| - size..]) else None
  }

  function Value(): real -> real { (x: real) => x }

  function MeanOf(sample: seq<real>): real
    requires sample != []
  {
    SumBy(Value(), sample) / (|sample| as real)
  }

  function SquareAround(center: real): real -> real { (x: real) => Times(x - center, x - center) }

  /** The population variance, the square of `pstdev`. */
  function Variance(sample: seq<real>): real
    requires sample != []
  {
    SumBy(SquareAround(MeanOf(sample)), sample) / (|sample| as real)
  }

  /** What is used of the square root. */
  ghost predicate IsRoot(root: real -> real) {
    forall v :: 0.0 <= v ==> 0.0 <= root(v) && Times(root(v), root(v)) == v
  }

  function Mean(values: seq<real>, size: nat): Option<real> {
    var sample := Window(values, size);
    if sample.None? || sample.value == [] then None else Some(MeanOf(sample.value))
  }

  /** Distance of the latest value from the mean in standard deviations; zero for a constant sample. */
  function ScoreOfLatest(sample: seq<real>, root: real -> real): real
    requires sample != []
  {
    var deviation := root(Variance(sample));
    if deviation == 0.0 then 0.0 else (sample[|sample| - 1] - MeanOf(sample)) / deviation
  }

  function Zscore(values: seq<real>, size: nat, root: real -> real): Option<real> {
    var sample := Window(values, size);
    if sample.None? || sample.value == [] then None else Some(ScoreOfLatest(sample.value, root))
  }

  /** Share of the sample that does not exceed its latest value. */
  function ShareOfLatest(sample: seq<real>): real
    requires sample != []
  {
    (CountAtMost(sample, sample[|sample| - 1]) as real) / (|sample| as real)
  }

  function Percentile(values: seq<real>, size: nat): Option<real> {
    var sample := Window(values, size);
    if sample.None? || sample.value == [] then None else Some(ShareOfLatest(sample.value))
  }

  datatype Crowding = InsufficientHistory | CrowdedLong | CrowdedShort | NotCrowded

  function CrowdingState(percentile52: Option<real>, percentile260: Option<real>): Crowding {
    var value := if percentile260.Some? then percentile260 else percentile52;
    if value.None? then InsufficientHistory
    else if 0.9 <= value.value then CrowdedLong
    else if value.value <= 0.1 then CrowdedShort
    else NotCrowded
  }

  // ---------- Samuelson's bound ----------

  lemma {:induction false} SquareNotNegative(x: real)
    ensures 0.0 <= Times(x, x)
  {
  }

  lemma {:induction false} CauchyGap(n: real, q: real, x: real, s: real)
    requires 0.0 < n && Times(s, s) <= Times(n, q)
    ensures 0.0 <= q + Times(n, Times(x, x)) - 2.0 * Times(s, x)
  {
    var gap := q + Times(n, Times(x, x)) - 2.0 * Times(s, x);
    SquareNotNegative(s - n * x);
    assert Times(gap, n) == Times(n, q) + n * n * x * x - 2.0 * n * s * x;
    assert Times(s - n * x, s - n * x) == Times(s, s) + n * n * x * x - 2.0 * n * s * x;
    SignOfFactor(gap, n);
  }

  lemma {:induction false} CauchyStep(n: real, s: real, q: real, x: real)
    requires 0.0 <= n && 0.0 <= q && Times(s, s) <= Times(n, q)
    ensures Times(s + x, s + x) <= Times(n + 1.0, q + Times(x, x))
  {
    assert Times(s + x, s + x) == Times(s, s) + 2.0 * Times(s, x) + Times(x, x);
    assert Times(n + 1.0, q + Times(x, x)) == Times(n, q) + Times(n, Times(x, x)) + q + Times(x, x);
    if n == 0.0 {
      assert Times(0.0, q) == 0.0;
      ZeroSquare(s);
      assert Times(s, x) == 0.0;
      assert Times(n, Times(x, x)) == 0.0;
    } else {
      CauchyGap(n, q, x, s);
    }
  }

  lemma {:induction false} ZeroSquare(s: real)
    requires Times(s, s) <= 0.0
    ensures s == 0.0
  {
    SquareNotNegative(s);
    TimesSigns(s, s);
  }

  function Around(center: real): real -> real { (x: real) => x - center }

  /** The square of a sum of deviations is at most their number times the sum of their squares. */
  lemma {:induction false} Cauchy(sample: seq<real>, center: real)
    ensures 0.0 <= SumBy(SquareAround(center), sample)
    ensures Times(SumBy(Around(center), sample), SumBy(Around(center), sample))
            <= Times(|sample| as real, SumBy(SquareAround(center), sample))
  {
    if sample == [] {
      assert Times(0.0, 0.0) == 0.0;
    } else {
      var n := |sample| - 1;
      var x := sample[n] - center;
      Cauchy(sample[..n], center);
      SquareNotNegative(x);
      CauchyStep(n as real, SumBy(Around(center), sample[..n]), SumBy(SquareAround(center), sample[..n]), x);
    }
  }

  lemma {:induction false} DeviationsOf(sample: seq<real>, center: real)
    ensures SumBy(Around(center), sample) == SumBy(Value(), sample) - Times(center, |sample| as real)
  {
    if sample == [] {
      assert Times(center, 0.0) == 0.0;
    } else {
      var n := |sample| - 1;
      DeviationsOf(sample[..n], center);
      assert Times(center, (n + 1) as real) == Times(center, n as real) + center;
    }
  }

  lemma {:induction false} QuotientBack(x: real, n: real)
    requires n != 0.0
    ensures Times(x / n, n) == x
  {
  }

  /** Deviations from the mean cancel. */
  lemma {:induction false} DeviationsCancel(sample: seq<real>)
    requires sample != []
    ensures SumBy(Around(MeanOf(sample)), sample) == 0.0
  {
    DeviationsOf(sample, MeanOf(sample));
    QuotientBack(SumBy(Value(), sample), |sample| as real);
  }

  lemma {:induction false} SamuelsonArithmetic(n: real, x: real, q: real, v: real)
    requires 1.0 <= n && Times(x, x) <= Times(n - 1.0, q - Times(x, x)) && q == Times(v, n)
    ensures Times(x, x) <= Times(n - 1.0, v)
  {
    assert Times(n - 1.0, q - Times(x, x)) == Times(n - 1.0, q) - (n - 1.0) * Times(x, x);
    assert Times(n - 1.0, Times(v, n)) == Times(Times(n - 1.0, v), n);
    assert 0.0 <= Times(Times(n - 1.0, v) - Times(x, x), n);
    SignOfFactor(Times(n - 1.0, v) - Times(x, x), n);
  }

  /** The squared deviation of the latest value is at most `n - 1` times the variance. */
  lemma {:induction false} LatestDeviationBound(sample: seq<real>)
    requires sample != []
    ensures 0.0 <= Variance(sample)
    ensures var x := sample[|sample| - 1] - MeanOf(sample);
      Times(x, x) <= Times(|sample| as real - 1.0, Variance(sample))
  {
    var n := |sample| - 1;
    var center := MeanOf(sample);
    var x := sample[n] - center;
    var q := SumBy(SquareAround(center), sample);
    DeviationsCancel(sample);
    Cauchy(sample[..n], center);
    Cauchy(sample, center);
    assert SumBy(Around(center), sample[..n]) == -x;
    assert Times(-x, -x) == Times(x, x);
    assert SumBy(SquareAround(center), sample[..n]) == q - Times(x, x);
    QuotientBack(q, |sample| as real);
    SamuelsonArithmetic(|sample| as real, x, q, Variance(sample));
    SignOfFactor(Variance(sample), |sample| as real);
  }

  lemma {:induction false} SquareOfQuotient(x: real, d: real, bound: real)
    requires 0.0 < d && Times(x, x) <= Times(bound, Times(d, d))
    ensures Times(x / d, x / d) <= bound
  {
    var z := x / d;
    assert z * d == x;
    assert Times(x, x) == Times(Times(z, z), Times(d, d)) by {
      assert (z * d) * (z * d) == (z * z) * (d * d);
    }
    TimesSigns(d, d);
    assert 0.0 <= Times(bound - Times(z, z), Times(d, d));
    SignOfFactor(bound - Times(z, z), Times(d, d));
  }

  /** Samuelson: in every full window of size `n` the squared z-score of the latest value is at most `n - 1`. */
  lemma {:induction false} ZscoreBound(values: seq<real>, size: nat, root: real -> real)
    requires IsRoot(root) && 0 < size <= |values|
    ensures Zscore(values, size, root).Some?
    ensures Times(Zscore(values, size, root).value, Zscore(values, size, root).value) <= size as real - 1.0
  {
    var sample := Window(values, size).value;
    LatestDeviationBound(sample);
    var deviation := root(Variance(sample));
    if deviation == 0.0 {
      assert Times(0.0, 0.0) == 0.0;
    } else {
      SquareOfQuotient(sample[size - 1] - MeanOf(sample), deviation, size as real - 1.0);
    }
  }

  // ---------- percentiles ----------

  lemma {:induction false} CountFull(values: seq<real>, x: real)
    ensures CountAtMost(values, x) == |values| <==> forall i :: 0 <= i < |values| ==> values[i] <= x
  {
    if values != [] {
      var n := |values| - 1;
      CountFull(values[..n], x);
      assert values == values[..n] + [values[n]];
    }
  }

  lemma {:induction false} QuotientOrder(x: real, y: real, n: real)
    requires 0.0 < n && x <= y
    ensures x / n <= y / n
  {
    QuotientBack(x, n);
    QuotientBack(y, n);
    assert Times(y / n - x / n, n) == Times(y / n, n) - Times(x / n, n);
    SignOfFactor(y / n - x / n, n);
  }

  lemma {:induction false} MeanAtMost(sample: seq<real>, bound: real)
    requires sample != [] && forall i :: 0 <= i < |sample| ==> sample[i] <= bound
    ensures MeanOf(sample) <= bound
  {
    var n := |sample| as real;
    var constant := (x: real) => bound;
    SumByAtMost(Value(), constant, sample);
    SumByConstant(constant, bound, sample);
    QuotientOrder(SumBy(Value(), sample), Times(bound, n), n);
    assert Times(bound, n) / n == bound;
  }

  lemma {:induction false} QuotientSign(x: real, d: real)
    requires 0.0 < d && 0.0 <= x
    ensures 0.0 <= x / d
  {
    QuotientBack(x, d);
    SignOfFactor(x / d, d);
  }

  /** The share of a sample that the latest value covers, and when it covers all of it. */
  lemma {:induction false} ShareBounds(sample: seq<real>)
    requires sample != []
    ensures 1.0 / (|sample| as real) <= ShareOfLatest(sample) <= 1.0
    ensures ShareOfLatest(sample) == 1.0 <==> forall i :: 0 <= i < |sample| ==> sample[i] <= sample[|sample| - 1]
  {
    var latest := sample[|sample| - 1];
    var count := CountAtMost(sample, latest);
    var n := |sample| as real;
    CountFull(sample, latest);
    QuotientOrder(1.0, count as real, n);
    QuotientOrder(count as real, n, n);
    assert n / n == 1.0;
    QuotientBack(count as real, n);
    assert ShareOfLatest(sample) == 1.0 ==> count == |sample|;
  }

  /** The highest value of a sample has no negative z-score. */
  lemma {:induction false} HighestIsNotBelowTheMean(sample: seq<real>, root: real -> real)
    requires IsRoot(root) && sample != []
    requires forall i :: 0 <= i < |sample| ==> sample[i] <= sample[|sample| - 1]
    ensures 0.0 <= ScoreOfLatest(sample, root)
  {
    LatestDeviationBound(sample);
    MeanAtMost(sample, sample[|sample| - 1]);
    var deviation := root(Variance(sample));
    if deviation != 0.0 {
      QuotientSign(sample[|sample| - 1] - MeanOf(sample), deviation);
    }
  }

  /** The latest value is the highest of the last `size` values. */
  ghost predicate LatestIsHighest(values: seq<real>, size: nat)
    requires 0 < size <= |values|
  {
    forall i :: |values| - size <= i < |values| ==> values[i] <= values[|values| - 1]
  }

  lemma {:induction false} WindowHighest(values: seq<real>, size: nat)
    requires 0 < size <= |values|
    ensures Window(values, size).Some? && |Window(values, size).value| == size
    ensures var sample := Window(values, size).value;
      LatestIsHighest(values, size) <==> forall i :: 0 <= i < size ==> sample[i] <= sample[size - 1]
  {
    var sample := Window(values, size).value;
    assert forall i :: 0 <= i < size ==> sample[i] == values[|values| - size + i];
    if forall i :: 0 <= i < size ==> sample[i] <= sample[size - 1] {
      forall i | |values| - size <= i < |values| ensures values[i] <= values[|values| - 1] {
        assert values[i] == sample[i - (|values| - size)];
      }
    }
  }

  /**
   The percentile of the latest value lies between one over the window size and one.  It is one exactly when the
   latest value is the highest of the window, and then its z-score is not negative.
   */
  lemma {:induction false} PercentileBounds(values: seq<real>, size: nat, root: real -> real)
    requires IsRoot(root) && 0 < size <= |values|
    ensures Percentile(values, size).Some? && Zscore(values, size, root).Some?
    ensures 1.0 / (size as real) <= Percentile(values, size).value <= 1.0
    ensures Percentile(values, size) == Some(1.0) <==> LatestIsHighest(values, size)
    ensures Percentile(values, size) == Some(1.0) ==> 0.0 <= Zscore(values, size, root).value
  {
    WindowHighest(values, size);
    var sample := Window(values, size).value;
    ShareBounds(sample);
    if ShareOfLatest(sample) == 1.0 {
      HighestIsNotBelowTheMean(sample, root);
    }
  }

  // ---------- the bound is reached ----------

  /** A quiet window with a single move at its end. */
  function Spike(n: nat): seq<real>
    requires 0 < n
  {
    seq(n - 1, _ => 0.0) + [1.0]
  }

  lemma {:induction false} SpikeSums(n: nat, center: real)
    requires 1 < n
    ensures SumBy(Value(), Spike(n)) == 1.0
    ensures SumBy(SquareAround(center), Spike(n))
            == Times(Times(center, center), (n - 1) as real) + Times(1.0 - center, 1.0 - center)
  {
    var quiet: seq<real> := seq(n - 1, _ => 0.0);
    assert Spike(n)[..n - 1] == quiet;
    SumByConstant(Value(), 0.0, quiet);
    assert Times(0.0, (n - 1) as real) == 0.0;
    assert Times(0.0 - center, 0.0 - center) == Times(center, center);
    SumByConstant(SquareAround(center), Times(center, center), quiet);
  }

  lemma {:induction false} SpikeArithmetic(n: real, m: real, q: real, v: real)
    requires 1.0 < n && Times(m, n) == 1.0
    requires q == Times(Times(m, m), n - 1.0) + Times(1.0 - m, 1.0 - m) && Times(v, n) == q
    ensures Times(1.0 - m, 1.0 - m) == Times(n - 1.0, v)
    ensures 0.0 < v
  {
    assert 1.0 - m == (n - 1.0) * m;
    assert Times(1.0 - m, 1.0 - m) == (n - 1.0) * (n - 1.0) * (m * m);
    assert q == (n - 1.0) * (m * m) + (n - 1.0) * (n - 1.0) * (m * m) == ((n - 1.0) * (m * m)) * n;
    assert (v - (n - 1.0) * (m * m)) * n == 0.0;
    assert v == (n - 1.0) * (m * m);
    assert m != 0.0;
    assert 0.0 < m * m;
  }

  /** For every window size above one some window reaches the bound: the squared z-score is exactly `n - 1`. */
  lemma {:induction false} ZscoreBoundIsReached(n: nat, root: real -> real)
    requires IsRoot(root) && 1 < n
    ensures Zscore(Spike(n), n, root).Some?
    ensures Times(Zscore(Spike(n), n, root).value, Zscore(Spike(n), n, root).value) == n as real - 1.0
  {
    var sample := Spike(n);
    assert Window(sample, n) == Some(sample);
    var m := MeanOf(sample);
    var v := Variance(sample);
    SpikeSums(n, m);
    QuotientBack(1.0, n as real);
    QuotientBack(SumBy(SquareAround(m), sample), n as real);
    SpikeArithmetic(n as real, m, SumBy(SquareAround(m), sample), v);
    var d := root(v);
    TimesSigns(d, d);
    var z := (1.0 - m) / d;
    QuotientBack(1.0 - m, d);
    SquareTimes(z, d, 1.0 - m, v, n as real - 1.0);
  }

  lemma {:induction false} SquareTimes(z: real, d: real, x: real, v: real, bound: real)
    requires Times(z, d) == x && Times(d, d) == v && 0.0 < v && Times(x, x) == Times(bound, v)
    ensures Times(z, z) == bound
  {
    assert Times(x, x) == (z * z) * v by {
      assert (z * d) * (z * d) == (z * z) * (d * d);
    }
    assert (z * z - bound) * v == 0.0;
  }
}
