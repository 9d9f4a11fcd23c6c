/**
 What one feature row reports, read from the rows of its series: changes, averages, scores, ranks and states.
 Nothing here uses the functions that compute them.
 */
module CftcFeatureMeaning {
  import opened Common
  import opened Counting
  import opened Products
  import opened Sums
  import opened WindowStatistics
  import opened CftcFeatures

  type Column = Position -> real

  function Managed(): Column { (p: Position) => p.managedMoney }

  function Interest(): Column { (p: Position) => p.openInterest }

  function Commercial(): Column { (p: Position) => p.commercial }

  function SwapDealer(): Column { (p: Position) => p.swapDealer }

  // ---------- changes ----------

  /** The reported change leads from the value of the row before to that of the last row. */
  ghost predicate ChangeIs(change: Option<real>, h: seq<Position>, column: Column) {
    && (change.Some? <==> 1 < |h|)
    && (change.Some? ==> column(h[|h| - 2]) + change.value == column(h[|h| - 1]))
  }

  /** Who is reported, when, and how it changed since the row before. */
  ghost predicate Reports(f: Feature, h: seq<Position>)
    requires h != []
  {
    var last := h[|h| - 1];
    && f.market == last.market && f.contractCode == last.contractCode && f.reportDate == last.reportDate
    && f.current == last && f.observationCount == |h|
    && ChangeIs(f.openInterestChange, h, Interest())
    && ChangeIs(f.managedChange, h, Managed())
    && ChangeIs(f.commercialChange, h, Commercial())
    && ChangeIs(f.swapDealerChange, h, SwapDealer())
  }

  // ---------- states ----------

  /** The position state, from the last two managed-money positions. */
  ghost predicate MovesAs(f: Feature, h: seq<Position>)
    requires h != []
  {
    if |h| == 1 then f.positionState == NoHistory
    else
      var before, now := h[|h| - 2].managedMoney, h[|h| - 1].managedMoney;
      && (f.positionState == BuildingLongs <==> 0.0 <= now && before < now)
      && (f.positionState == ReducingLongs <==> 0.0 <= now && now < before)
      && (f.positionState == BuildingShorts <==> now < 0.0 && now < before)
      && (f.positionState == CoveringShorts <==> now < 0.0 && before < now)
      && (f.positionState == Unchanged <==> now == before)
      && f.positionState != NoHistory
  }

  /** Prices exist for the dates of the last two rows. */
  predicate Priced(h: seq<Position>, prices: map<int, real>) {
    1 < |h| && h[|h| - 2].reportDate in prices && h[|h| - 1].reportDate in prices
  }

  /** The divergence, from the last two managed-money positions and the prices of their dates. */
  ghost predicate DivergesAs(f: Feature, h: seq<Position>, prices: map<int, real>) {
    if !Priced(h, prices) then f.divergence == UnavailablePrices
    else
      var before, now := h[|h| - 2].managedMoney, h[|h| - 1].managedMoney;
      var was, isNow := prices[h[|h| - 2].reportDate], prices[h[|h| - 1].reportDate];
      && (f.divergence == FundsBuyingWeakness <==> before < now && isNow < was)
      && (f.divergence == FundsSellingStrength <==> now < before && was < isNow)
      && (f.divergence == Aligned <==> (before < now && was < isNow) || (now < before && isNow < was))
      && (f.divergence == NoDivergence <==> before == now || was == isNow)
      && f.divergence != UnavailablePrices
  }

  lemma {:induction false} ReportedExactly(h: seq<Position>, ctx: Context)
    requires h != []
    ensures Reports(FeatureRow(h, ctx), h)
  {
  }

  lemma {:induction false} MovesExactly(h: seq<Position>, ctx: Context)
    requires h != []
    ensures MovesAs(FeatureRow(h, ctx), h)
  {
  }

  lemma {:induction false} DivergenceExactly(h: seq<Position>, ctx: Context)
    requires h != []
    ensures DivergesAs(FeatureRow(h, ctx), h, ctx.prices)
  {
  }

  // ---------- changes over a whole series ----------

  /** The sum of the changes that are reported. */
  function TotalChange(features: seq<Feature>, change: Feature -> Option<real>): real {
    if features == [] then 0.0
    else
      var last := change(features[|features| - 1]);
      TotalChange(features[..|features| - 1], change) + if last.Some? then last.value else 0.0
  }

  /** A change and the column it is reported for. */
  ghost predicate ReportsChange(change: Feature -> Option<real>, column: Column, ctx: Context) {
    forall h :: h != [] ==> ChangeIs(change(FeatureRow(h, ctx)), h, column)
  }

  lemma {:induction false} ChangesTelescope(h: seq<Position>, change: Feature -> Option<real>, column: Column,
                                            ctx: Context)
    requires h != [] && ReportsChange(change, column, ctx)
    ensures column(h[0]) + TotalChange(SeriesFeatures(h, ctx), change) == column(h[|h| - 1])
  {
    var n := |h| - 1;
    var features := SeriesFeatures(h, ctx);
    assert features[..|features| - 1] == SeriesFeatures(h[..n], ctx);
    assert ChangeIs(change(FeatureRow(h, ctx)), h, column);
    if 0 < n {
      ChangesTelescope(h[..n], change, column, ctx);
    } else {
      assert SeriesFeatures(h[..n], ctx) == [];
    }
  }

  /** Conservation: over a series the reported changes lead from the first position to the last, in all four columns. */
  lemma {:induction false} ChangesAddUp(h: seq<Position>, ctx: Context)
    requires h != []
    ensures var features, first, last := SeriesFeatures(h, ctx), h[0], h[|h| - 1];
      && first.managedMoney + TotalChange(features, (f: Feature) => f.managedChange) == last.managedMoney
      && first.openInterest + TotalChange(features, (f: Feature) => f.openInterestChange) == last.openInterest
      && first.commercial + TotalChange(features, (f: Feature) => f.commercialChange) == last.commercial
      && first.swapDealer + TotalChange(features, (f: Feature) => f.swapDealerChange) == last.swapDealer
  {
    forall g: seq<Position> | g != [] ensures Reports(FeatureRow(g, ctx), g) {
      ReportedExactly(g, ctx);
    }
    ChangesTelescope(h, (f: Feature) => f.managedChange, Managed(), ctx);
    ChangesTelescope(h, (f: Feature) => f.openInterestChange, Interest(), ctx);
    ChangesTelescope(h, (f: Feature) => f.commercialChange, Commercial(), ctx);
    ChangesTelescope(h, (f: Feature) => f.swapDealerChange, SwapDealer(), ctx);
  }

  // ---------- averages, scores and ranks of the last rows ----------

  /** The sum of a column over the last `size` rows. */
  function SumOfLast(h: seq<Position>, size: nat, column: Column): real
    requires size <= |h|
  {
    if size == 0 then 0.0 else column(h[|h| - size]) + SumOfLast(h, size - 1, column)
  }

  function AverageOfLast(h: seq<Position>, size: nat, column: Column): real
    requires 0 < size <= |h|
  {
    SumOfLast(h, size, column) / (size as real)
  }

  /** The squared distance of a column from a centre. */
  function Squared(column: Column, center: real): Column {
    (p: Position) => Times(column(p) - center, column(p) - center)
  }

  /** The average squared distance from the average. */
  function SpreadOfLast(h: seq<Position>, size: nat, column: Column): real
    requires 0 < size <= |h|
  {
    AverageOfLast(h, size, Squared(column, AverageOfLast(h, size, column)))
  }

  /** Which of the last `size` rows do not exceed the last one. */
  ghost function NotAbove(h: seq<Position>, size: nat, column: Column): set<int>
    requires 0 < size <= |h|
  {
    set i | |h| - size <= i < |h| && column(h[i]) <= column(h[|h| - 1])
  }

  ghost predicate AveragesTo(mean: Option<real>, h: seq<Position>, size: nat, column: Column)
    requires 0 < size
  {
    if |h| < size then mean.None? else mean == Some(AverageOfLast(h, size, column))
  }

  /** The score has the sign of the last distance from the average, and its square is in units of the spread. */
  ghost predicate ScoresTo(z: Option<real>, h: seq<Position>, size: nat, column: Column)
    requires 0 < size
  {
    if |h| < size then z.None?
    else
      var distance, spread := column(h[|h| - 1]) - AverageOfLast(h, size, column), SpreadOfLast(h, size, column);
      && z.Some?
      && (spread == 0.0 ==> z.value == 0.0)
      && (spread != 0.0 ==> Times(Times(z.value, z.value), spread) == Times(distance, distance))
      && 0.0 <= Times(z.value, distance)
  }

  ghost predicate RanksAt(p: Option<real>, h: seq<Position>, size: nat, column: Column)
    requires 0 < size
  {
    if |h| < size then p.None?
    else p.Some? && p.value * (size as real) == |NotAbove(h, size, column)| as real
  }

  // ---------- windows of a column ----------

  /** The values of a column. */
  ghost predicate ValuesOf(values: seq<real>, h: seq<Position>, column: Column) {
    |values| == |h| && forall i :: 0 <= i < |h| ==> values[i] == column(h[i])
  }

  lemma {:induction false} SumByHead(f: real -> real, sample: seq<real>)
    requires sample != []
    ensures SumBy(f, sample) == f(sample[0]) + SumBy(f, sample[1..])
  {
    assert sample == [sample[0]] + sample[1..];
    SumByConcat(f, [sample[0]], sample[1..]);
    assert [sample[0]][..0] == [];
  }

  lemma {:induction false} WindowSum(values: seq<real>, h: seq<Position>, size: nat, column: Column, f: real -> real,
                                     image: Column)
    requires ValuesOf(values, h, column) && size <= |h|
    requires forall p :: image(p) == f(column(p))
    ensures SumBy(f, values[|h| - size..]) == SumOfLast(h, size, image)
  {
    if 0 < size {
      var sample := values[|h| - size..];
      SumByHead(f, sample);
      assert sample[1..] == values[|h| - (size - 1)..];
      WindowSum(values, h, size - 1, column, f, image);
    }
  }

  lemma {:induction false} WindowAverage(values: seq<real>, h: seq<Position>, size: nat, column: Column)
    requires ValuesOf(values, h, column) && 0 < size <= |h|
    ensures MeanOf(values[|h| - size..]) == AverageOfLast(h, size, column)
    ensures Variance(values[|h| - size..]) == SpreadOfLast(h, size, column)
  {
    var sample := values[|h| - size..];
    WindowSum(values, h, size, column, Value(), column);
    var center := MeanOf(sample);
    WindowSum(values, h, size, column, SquareAround(center), Squared(column, center));
  }

  lemma {:induction false} MeanExactly(values: seq<real>, h: seq<Position>, size: nat, column: Column)
    requires ValuesOf(values, h, column) && 0 < size
    ensures AveragesTo(Mean(values, size), h, size, column)
  {
    if size <= |h| {
      WindowAverage(values, h, size, column);
    }
  }

  lemma {:induction false} SquareOverSpread(distance: real, deviation: real, spread: real)
    requires 0.0 < deviation && Times(deviation, deviation) == spread
    ensures var z := distance / deviation;
      Times(Times(z, z), spread) == Times(distance, distance) && 0.0 <= Times(z, distance)
  {
    var z := distance / deviation;
    assert z * deviation == distance;
    assert (z * z) * (deviation * deviation) == (z * deviation) * (z * deviation);
    SquareNotNegative(z);
    assert Times(z, distance) == (z * z) * deviation;
  }

  lemma {:induction false} ScoreOfWindow(sample: seq<real>, root: real -> real)
    requires sample != [] && IsRoot(root)
    ensures var z, distance := ScoreOfLatest(sample, root), sample[|sample| - 1] - MeanOf(sample);
      && (Variance(sample) == 0.0 ==> z == 0.0)
      && (Variance(sample) != 0.0 ==> Times(Times(z, z), Variance(sample)) == Times(distance, distance))
      && 0.0 <= Times(z, distance)
  {
    LatestDeviationBound(sample);
    var deviation := root(Variance(sample));
    if deviation == 0.0 {
      assert Times(0.0, 0.0) == 0.0;
      assert Times(0.0, sample[|sample| - 1] - MeanOf(sample)) == 0.0;
    } else {
      TimesSigns(deviation, deviation);
      SquareOverSpread(sample[|sample| - 1] - MeanOf(sample), deviation, Variance(sample));
    }
  }

  lemma {:induction false} ScoreExactly(values: seq<real>, h: seq<Position>, size: nat, column: Column,
                                        root: real -> real)
    requires ValuesOf(values, h, column) && 0 < size && IsRoot(root)
    ensures ScoresTo(Zscore(values, size, root), h, size, column)
  {
    if size <= |h| {
      WindowAverage(values, h, size, column);
      var sample := values[|h| - size..];
      assert sample[|sample| - 1] == column(h[|h| - 1]);
      ScoreOfWindow(sample, root);
    }
  }

  /** The positions from `from` on whose values do not exceed `x`. */
  ghost function AtMost(values: seq<real>, from: nat, x: real): set<int> {
    set i | from <= i < |values| && values[i] <= x
  }

  lemma {:induction false} CountIsSet(values: seq<real>, from: nat, x: real)
    requires from <= |values|
    ensures CountAtMost(values[from..], x) == |AtMost(values, from, x)|
    decreases |values|
  {
    if from == |values| {
      assert AtMost(values, from, x) == {};
    } else {
      var n := |values| - 1;
      var front := values[..n];
      CountIsSet(front, from, x);
      assert values[from..][..|values[from..]| - 1] == front[from..];
      var before := AtMost(front, from, x);
      assert n !in before;
      assert AtMost(values, from, x) == if values[n] <= x then before + {n} else before;
    }
  }

  lemma {:induction false} RankExactly(values: seq<real>, h: seq<Position>, size: nat, column: Column)
    requires ValuesOf(values, h, column) && 0 < size
    ensures RanksAt(Percentile(values, size), h, size, column)
  {
    if size <= |h| {
      var latest := values[|h| - 1];
      CountIsSet(values, |h| - size, latest);
      assert AtMost(values, |h| - size, latest) == NotAbove(h, size, column);
      QuotientBack(CountAtMost(values[|h| - size..], latest) as real, size as real);
    }
  }

  // ---------- the statistics of a feature ----------

  ghost predicate Averages(m: Statistics, h: seq<Position>) {
    && AveragesTo(m.mean13, h, 13, Managed())
    && AveragesTo(m.mean26, h, 26, Managed())
    && AveragesTo(m.mean52, h, 52, Managed())
    && AveragesTo(m.mean156, h, 156, Managed())
  }

  ghost predicate Scores(f: Feature, h: seq<Position>) {
    && ScoresTo(f.managed.z52, h, 52, Managed())
    && ScoresTo(f.managed.z156, h, 156, Managed())
    && ScoresTo(f.interestZ52, h, 52, Interest())
    && ScoresTo(f.interestZ156, h, 156, Interest())
  }

  ghost predicate Ranks(m: Statistics, h: seq<Position>) {
    RanksAt(m.percentile52, h, 52, Managed()) && RanksAt(m.percentile260, h, 260, Managed())
  }

  /** Crowded when at least nine tenths, or at most one tenth, of the last 260 rows (or 52) do not exceed the last. */
  ghost predicate CrowdsAs(f: Feature, h: seq<Position>) {
    if |h| < 52 then f.crowding == InsufficientHistory
    else
      var size := if 260 <= |h| then 260 else 52;
      var share := |NotAbove(h, size, Managed())|;
      && (f.crowding == CrowdedLong <==> 9 * size <= 10 * share)
      && (f.crowding == CrowdedShort <==> 10 * share <= size)
      && (f.crowding == NotCrowded <==> size < 10 * share < 9 * size)
      && f.crowding != InsufficientHistory
  }

  lemma {:induction false} ColumnsOf(h: seq<Position>)
    ensures ValuesOf(ManagedMoney(h), h, Managed())
    ensures ValuesOf(OpenInterest(h), h, Interest())
  {
  }

  lemma {:induction false} AveragesExactly(h: seq<Position>, ctx: Context)
    requires h != []
    ensures Averages(FeatureRow(h, ctx).managed, h)
  {
    ColumnsOf(h);
    MeanExactly(ManagedMoney(h), h, 13, Managed());
    MeanExactly(ManagedMoney(h), h, 26, Managed());
    MeanExactly(ManagedMoney(h), h, 52, Managed());
    MeanExactly(ManagedMoney(h), h, 156, Managed());
  }

  lemma {:induction false} ScoresExactly(h: seq<Position>, ctx: Context)
    requires h != [] && IsRoot(ctx.root)
    ensures Scores(FeatureRow(h, ctx), h)
  {
    ColumnsOf(h);
    ScoreExactly(ManagedMoney(h), h, 52, Managed(), ctx.root);
    ScoreExactly(ManagedMoney(h), h, 156, Managed(), ctx.root);
    ScoreExactly(OpenInterest(h), h, 52, Interest(), ctx.root);
    ScoreExactly(OpenInterest(h), h, 156, Interest(), ctx.root);
  }

  lemma {:induction false} RanksExactly(h: seq<Position>, ctx: Context)
    requires h != []
    ensures Ranks(FeatureRow(h, ctx).managed, h)
  {
    ColumnsOf(h);
    RankExactly(ManagedMoney(h), h, 52, Managed());
    RankExactly(ManagedMoney(h), h, 260, Managed());
  }

  lemma {:induction false} OrderScales(x: real, y: real, n: real)
    requires 0.0 < n
    ensures x <= y <==> Times(x, n) <= Times(y, n)
  {
    if x <= y {
      TimesOrder(x, y, n);
    } else {
      TimesSigns(x - y, n);
      assert Times(x - y, n) == Times(x, n) - Times(y, n);
    }
  }

  lemma {:induction false} CrowdingOfShare(value: real, size: nat, share: nat)
    requires 0 < size && value * (size as real) == share as real
    ensures 0.9 <= value <==> 9 * size <= 10 * share
    ensures value <= 0.1 <==> 10 * share <= size
  {
    var n := size as real;
    OrderScales(0.9, value, n);
    OrderScales(value, 0.1, n);
    assert Times(value, n) == share as real;
    assert Times(0.9, n) == 0.9 * n && Times(0.1, n) == 0.1 * n;
  }

  lemma {:induction false} CrowdingFollowsRank(f: Feature, h: seq<Position>)
    requires h != [] && Ranks(f.managed, h)
    requires f.crowding == CrowdingState(f.managed.percentile52, f.managed.percentile260)
    ensures CrowdsAs(f, h)
  {
    if 260 <= |h| {
      CrowdingOfShare(f.managed.percentile260.value, 260, |NotAbove(h, 260, Managed())|);
    } else if 52 <= |h| {
      CrowdingOfShare(f.managed.percentile52.value, 52, |NotAbove(h, 52, Managed())|);
    }
  }

  lemma {:induction false} CrowdingExactly(h: seq<Position>, ctx: Context)
    requires h != []
    ensures CrowdsAs(FeatureRow(h, ctx), h)
  {
    RanksExactly(h, ctx);
    CrowdingFollowsRank(FeatureRow(h, ctx), h);
  }

  /** Everything a feature says about the series it ends. */
  ghost predicate Describes(f: Feature, h: seq<Position>, prices: map<int, real>)
    requires h != []
  {
    && Reports(f, h)
    && MovesAs(f, h)
    && DivergesAs(f, h, prices)
    && Averages(f.managed, h)
    && Scores(f, h)
    && Ranks(f.managed, h)
    && CrowdsAs(f, h)
  }

  /** Every feature row, exactly. */
  lemma {:induction false} RowExactly(h: seq<Position>, ctx: Context)
    requires h != [] && IsRoot(ctx.root)
    ensures Describes(FeatureRow(h, ctx), h, ctx.prices)
  {
    ReportedExactly(h, ctx);
    MovesExactly(h, ctx);
    DivergenceExactly(h, ctx);
    AveragesExactly(h, ctx);
    ScoresExactly(h, ctx);
    RanksExactly(h, ctx);
    CrowdingExactly(h, ctx);
  }
}
