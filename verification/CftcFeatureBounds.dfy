/** What holds of every feature row: tight z-scores, percentiles in range, and no memory beyond the longest window. */
module CftcFeatureBounds {
  import opened Common
  import opened Ordering
  import opened Products
  import opened WindowStatistics
  import opened CftcFeatures
  import opened CftcNoLookAhead

  predicate SquareAtMost(z: Option<real>, bound: real) {
    z.Some? ==> Times(z.value, z.value) <= bound
  }

  predicate ShareInRange(p: Option<real>, lowest: real) {
    p.Some? ==> lowest <= p.value <= 1.0
  }

  /** The ranges of one feature row, and when it reports its statistics at all. */
  predicate InRange(f: Feature) {
    && StatisticsFit(f.managed, f.observationCount)
    && ScoreFits(f.interestZ52, 52, f.observationCount) && ScoreFits(f.interestZ156, 156, f.observationCount)
    && (f.crowding == InsufficientHistory <==> f.observationCount < 52)
    && (f.openInterestChange.Some? <==> 1 < f.observationCount)
    && (f.managedChange.Some? <==> 1 < f.observationCount)
    && (f.commercialChange.Some? <==> 1 < f.observationCount)
    && (f.swapDealerChange.Some? <==> 1 < f.observationCount)
    && (f.positionState == NoHistory <==> f.observationCount <= 1)
  }

  /** A z-score over a window: reported exactly when the window is full, and within its bound. */
  predicate ScoreFits(z: Option<real>, size: nat, count: nat) {
    (z.Some? <==> size <= count) && SquareAtMost(z, size as real - 1.0)
  }

  predicate ShareFits(p: Option<real>, size: nat, count: nat)
    requires 0 < size
  {
    (p.Some? <==> size <= count) && ShareInRange(p, 1.0 / (size as real))
  }

  predicate MeansFit(m: Statistics, count: nat) {
    && (m.mean13.Some? <==> 13 <= count) && (m.mean26.Some? <==> 26 <= count)
    && (m.mean52.Some? <==> 52 <= count) && (m.mean156.Some? <==> 156 <= count)
  }

  /** The statistics of the managed-money series with the given number of rows. */
  predicate StatisticsFit(m: Statistics, count: nat) {
    && MeansFit(m, count)
    && ScoreFits(m.z52, 52, count) && ScoreFits(m.z156, 156, count)
    && ShareFits(m.percentile52, 52, count) && ShareFits(m.percentile260, 260, count)
    && (m.percentile52 == Some(1.0) ==> m.z52.Some? && 0.0 <= m.z52.value)
  }

  lemma {:induction false} StatisticsInRange(values: seq<real>, size: nat, root: real -> real)
    requires IsRoot(root) && 0 < size
    ensures ScoreFits(Zscore(values, size, root), size, |values|)
    ensures ShareFits(Percentile(values, size), size, |values|)
    ensures Percentile(values, size) == Some(1.0) ==>
              Zscore(values, size, root).Some? && 0.0 <= Zscore(values, size, root).value
  {
    if size <= |values| {
      ZscoreBound(values, size, root);
      PercentileBounds(values, size, root);
    }
  }

  lemma {:induction false} MeansOfFit(values: seq<real>, root: real -> real)
    ensures MeansFit(StatisticsOf(values, root), |values|)
  {
  }

  lemma {:induction false} StatisticsOfFit(values: seq<real>, root: real -> real)
    requires IsRoot(root)
    ensures StatisticsFit(StatisticsOf(values, root), |values|)
  {
    MeansOfFit(values, root);
    StatisticsInRange(values, 52, root);
    StatisticsInRange(values, 156, root);
    StatisticsInRange(values, 260, root);
  }

  lemma {:induction false} AssembledInRange(current: Position, previous: Option<Position>, count: nat, m: Statistics,
                                            interestZ52: Option<real>, interestZ156: Option<real>,
                                            prices: map<int, real>)
    requires StatisticsFit(m, count) && ScoreFits(interestZ52, 52, count) && ScoreFits(interestZ156, 156, count)
    requires previous.Some? <==> 1 < count
    ensures InRange(Assemble(current, previous, count, m, interestZ52, interestZ156, prices))
  {
  }

  lemma {:induction false} RowInRange(history: seq<Position>, ctx: Context)
    requires IsRoot(ctx.root) && history != []
    ensures InRange(FeatureRow(history, ctx))
  {
    var n := |history| - 1;
    var managed := StatisticsOf(ManagedMoney(history), ctx.root);
    var interestZ52 := Zscore(OpenInterest(history), 52, ctx.root);
    var interestZ156 := Zscore(OpenInterest(history), 156, ctx.root);
    StatisticsOfFit(ManagedMoney(history), ctx.root);
    StatisticsInRange(OpenInterest(history), 52, ctx.root);
    StatisticsInRange(OpenInterest(history), 156, ctx.root);
    AssembledInRange(history[n], if n > 0 then Some(history[n - 1]) else None, |history|, managed, interestZ52,
                     interestZ156, ctx.prices);
  }

  lemma {:induction false} SeriesInRange(history: seq<Position>, ctx: Context, f: Feature)
    requires IsRoot(ctx.root) && f in SeriesFeatures(history, ctx)
    ensures InRange(f)
  {
    var front := history[..|history| - 1];
    RowInRange(history, ctx);
    if f in SeriesFeatures(front, ctx) {
      SeriesInRange(front, ctx, f);
    }
  }

  /** Every feature of every history keeps to its ranges. */
  lemma {:induction false} EveryFeatureInRange(rows: seq<RawPosition>, cutoff: Option<int>, ctx: Context, f: Feature)
    requires IsRoot(ctx.root) && f in FeatureHistory(rows, cutoff, ctx)
    ensures InRange(f)
  {
    var all := AllFeatures(KeyOrder(rows, cutoff), rows, cutoff, ctx);
    SortKeepsAll(all);
    assert f in multiset(FeatureHistory(rows, cutoff, ctx));
    var key := FlatMapMember(FeaturesOfKey(rows, cutoff, ctx), KeyOrder(rows, cutoff), f);
    SeriesInRange(History(rows, cutoff, key), ctx, f);
  }

  lemma {:induction false} FlatMapMember<T, U>(f: T -> seq<U>, s: seq<T>, y: U) returns (x: T)
    requires y in FlatMap(f, s)
    ensures x in s && y in f(x)
  {
    var n := |s| - 1;
    if y in f(s[n]) {
      x := s[n];
    } else {
      x := FlatMapMember(f, s[..n], y);
    }
  }

  // ---------- the rolling window ----------

  const LONGEST := 260

  function Recent<T>(s: seq<T>): seq<T>
    requires LONGEST <= |s|
  {
    s[|s| - LONGEST..]
  }

  lemma {:induction false} WindowOfRecent(s: seq<real>, t: seq<real>, size: nat)
    requires LONGEST <= |s| && LONGEST <= |t| && Recent(s) == Recent(t) && 0 < size <= LONGEST
    ensures Window(s, size) == Window(t, size)
  {
    assert s[|s| - size..] == Recent(s)[LONGEST - size..];
    assert t[|t| - size..] == Recent(t)[LONGEST - size..];
  }

  lemma {:induction false} StatisticsOfRecent(s: seq<real>, t: seq<real>, size: nat, root: real -> real)
    requires LONGEST <= |s| && LONGEST <= |t| && Recent(s) == Recent(t) && 0 < size <= LONGEST
    ensures Mean(s, size) == Mean(t, size) && Zscore(s, size, root) == Zscore(t, size, root)
            && Percentile(s, size) == Percentile(t, size)
  {
    WindowOfRecent(s, t, size);
  }

  lemma {:induction false} AllStatisticsOfRecent(s: seq<real>, t: seq<real>, root: real -> real)
    requires LONGEST <= |s| && LONGEST <= |t| && Recent(s) == Recent(t)
    ensures StatisticsOf(s, root) == StatisticsOf(t, root)
  {
    StatisticsOfRecent(s, t, 13, root);
    StatisticsOfRecent(s, t, 26, root);
    StatisticsOfRecent(s, t, 52, root);
    StatisticsOfRecent(s, t, 156, root);
    StatisticsOfRecent(s, t, 260, root);
  }

  lemma {:induction false} RecentColumns(s: seq<Position>, t: seq<Position>)
    requires LONGEST <= |s| && LONGEST <= |t| && Recent(s) == Recent(t)
    ensures Recent(ManagedMoney(s)) == Recent(ManagedMoney(t))
    ensures Recent(OpenInterest(s)) == Recent(OpenInterest(t))
    ensures s[|s| - 1] == t[|t| - 1] && s[|s| - 2] == t[|t| - 2]
  {
    var ms, mt, os, ot := ManagedMoney(s), ManagedMoney(t), OpenInterest(s), OpenInterest(t);
    forall i | 0 <= i < LONGEST ensures Recent(ms)[i] == Recent(mt)[i] && Recent(os)[i] == Recent(ot)[i] {
      assert Recent(s)[i] == Recent(t)[i];
    }
    assert Recent(s)[LONGEST - 1] == Recent(t)[LONGEST - 1];
    assert Recent(s)[LONGEST - 2] == Recent(t)[LONGEST - 2];
  }

  lemma {:induction false} AssembledUpToCount(current: Position, previous: Option<Position>, count: nat, other: nat,
                                              m: Statistics,
                                              interestZ52: Option<real>, interestZ156: Option<real>,
                                              prices: map<int, real>)
    ensures Assemble(current, previous, count, m, interestZ52, interestZ156, prices)
            == Assemble(current, previous, other, m, interestZ52, interestZ156, prices).(observationCount := count)
  {
  }

  /** Two series that end in the same 260 rows end in the same feature, the number of observations aside. */
  lemma {:induction false} FeatureForgetsThePast(s: seq<Position>, t: seq<Position>, ctx: Context)
    requires LONGEST <= |s| && LONGEST <= |t| && Recent(s) == Recent(t)
    ensures FeatureRow(s, ctx) == FeatureRow(t, ctx).(observationCount := |s|)
  {
    RecentColumns(s, t);
    AllStatisticsOfRecent(ManagedMoney(s), ManagedMoney(t), ctx.root);
    StatisticsOfRecent(OpenInterest(s), OpenInterest(t), 52, ctx.root);
    StatisticsOfRecent(OpenInterest(s), OpenInterest(t), 156, ctx.root);
    AssembledUpToCount(s[|s| - 1], Some(s[|s| - 2]), |s|, |t|, StatisticsOf(ManagedMoney(s), ctx.root),
                       Zscore(OpenInterest(s), 52, ctx.root), Zscore(OpenInterest(s), 156, ctx.root), ctx.prices);
  }
}
