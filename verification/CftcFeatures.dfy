/** Feature history of weekly positions (`build_cftc_feature_history`): one feature row for every prefix of a series. */
module CftcFeatures {
  import opened Common
  import opened Ordering
  import opened WindowStatistics

  /** A raw row: no report date, or a blank market, makes it unusable; a blank code counts as none. */
  datatype RawPosition = RawPosition(
    market: string,
    contractCode: string,
    reportDate: Option<int>,
    openInterest: real,
    managedMoney: real,
    commercial: real,
    swapDealer: real,
    otherReportable: real,
    nonReportable: real)

  datatype Position = Position(
    market: string,
    contractCode: Option<string>,
    reportDate: int,
    openInterest: real,
    managedMoney: real,
    commercial: real,
    swapDealer: real,
    otherReportable: real,
    nonReportable: real)

  function Normalize(raw: RawPosition): Option<Position> {
    if raw.reportDate.None? || raw.market == "" then None
    else Some(Position(
      raw.market, if raw.contractCode == "" then None else Some(raw.contractCode), raw.reportDate.value,
      raw.openInterest, raw.managedMoney, raw.commercial, raw.swapDealer, raw.otherReportable, raw.nonReportable))
  }

  /** The normalized row, unless it lies after the cutoff. */
  function Kept(raw: RawPosition, cutoff: Option<int>): Option<Position> {
    var p := Normalize(raw);
    if p.None? || (cutoff.Some? && cutoff.value < p.value.reportDate) then None else p
  }

  function KeyOf(p: Position): string {
    if p.contractCode.Some? then p.contractCode.value else p.market
  }

  // ---------- one feature row ----------

  datatype PositionState = NoHistory | BuildingLongs | ReducingLongs | BuildingShorts | CoveringShorts | Unchanged

  function PositionStateOf(current: real, change: Option<real>): PositionState {
    if change.None? then NoHistory
    else if current >= 0.0 && change.value > 0.0 then BuildingLongs
    else if current >= 0.0 && change.value < 0.0 then ReducingLongs
    else if current < 0.0 && change.value < 0.0 then BuildingShorts
    else if current < 0.0 && change.value > 0.0 then CoveringShorts
    else Unchanged
  }

  datatype Divergence = UnavailablePrices | FundsBuyingWeakness | FundsSellingStrength | Aligned | NoDivergence

  function DivergenceOf(currentDate: int, previousDate: Option<int>, change: Option<real>,
                        prices: map<int, real>): Divergence
  {
    if previousDate.None? || change.None? then UnavailablePrices
    else if currentDate !in prices || previousDate.value !in prices then UnavailablePrices
    else
      var move := prices[currentDate] - prices[previousDate.value];
      if change.value > 0.0 && move < 0.0 then FundsBuyingWeakness
      else if change.value < 0.0 && move > 0.0 then FundsSellingStrength
      else if (change.value > 0.0 && move > 0.0) || (change.value < 0.0 && move < 0.0) then Aligned
      else NoDivergence
  }

  /** The rolling statistics of managed-money positions. */
  datatype Statistics = Statistics(
    mean13: Option<real>, mean26: Option<real>, mean52: Option<real>, mean156: Option<real>,
    z52: Option<real>, z156: Option<real>,
    percentile52: Option<real>, percentile260: Option<real>)

  datatype Feature = Feature(
    market: string,
    contractCode: Option<string>,
    reportDate: int,
    observationCount: nat,
    current: Position,
    openInterestChange: Option<real>,
    managedChange: Option<real>,
    commercialChange: Option<real>,
    swapDealerChange: Option<real>,
    managed: Statistics,
    interestZ52: Option<real>,
    interestZ156: Option<real>,
    positionState: PositionState,
    crowding: Crowding,
    divergence: Divergence)

  /** Fixed for a run: the price series and the square root. */
  datatype Context = Context(prices: map<int, real>, root: real -> real)

  function ManagedMoney(history: seq<Position>): (r: seq<real>)
    ensures |r| == |history|
  {
    seq(|history|, i requires 0 <= i < |history| => history[i].managedMoney)
  }

  function OpenInterest(history: seq<Position>): (r: seq<real>)
    ensures |r| == |history|
  {
    seq(|history|, i requires 0 <= i < |history| => history[i].openInterest)
  }

  function StatisticsOf(values: seq<real>, root: real -> real): Statistics {
    Statistics(Mean(values, 13), Mean(values, 26), Mean(values, 52), Mean(values, 156),
               Zscore(values, 52, root), Zscore(values, 156, root), Percentile(values, 52), Percentile(values, 260))
  }

  function Assemble(current: Position, previous: Option<Position>, count: nat, managed: Statistics,
                    interestZ52: Option<real>, interestZ156: Option<real>, prices: map<int, real>): Feature
  {
    var change := if previous.Some? then Some(current.managedMoney - previous.value.managedMoney) else None;
    Feature(
      current.market, current.contractCode, current.reportDate, count, current,
      if previous.Some? then Some(current.openInterest - previous.value.openInterest) else None,
      change,
      if previous.Some? then Some(current.commercial - previous.value.commercial) else None,
      if previous.Some? then Some(current.swapDealer - previous.value.swapDealer) else None,
      managed, interestZ52, interestZ156,
      PositionStateOf(current.managedMoney, change),
      CrowdingState(managed.percentile52, managed.percentile260),
      DivergenceOf(
        current.reportDate, if previous.Some? then Some(previous.value.reportDate) else None, change, prices))
  }

  function FeatureRow(history: seq<Position>, ctx: Context): Feature
    requires history != []
  {
    var n := |history| - 1;
    Assemble(
      history[n], if n > 0 then Some(history[n - 1]) else None, |history|,
      StatisticsOf(ManagedMoney(history), ctx.root),
      Zscore(OpenInterest(history), 52, ctx.root), Zscore(OpenInterest(history), 156, ctx.root), ctx.prices)
  }

  // ---------- the specification ----------

  /** A date-ordered series takes a row in at its date; a row of the same date is replaced. */
  function InsertByDate(history: seq<Position>, p: Position): seq<Position> {
    if history == [] then [p]
    else
      var n := |history| - 1;
      if history[n].reportDate < p.reportDate then history + [p]
      else if history[n].reportDate == p.reportDate then history[..n] + [p]
      else InsertByDate(history[..n], p) + [history[n]]
  }

  /** The series of one contract: the rows kept for it, by date, the last row of a date winning. */
  function History(rows: seq<RawPosition>, cutoff: Option<int>, key: string): seq<Position> {
    if rows == [] then []
    else
      var n := |rows| - 1;
      var earlier := History(rows[..n], cutoff, key);
      var p := Kept(rows[n], cutoff);
      if p.Some? && KeyOf(p.value) == key then InsertByDate(earlier, p.value) else earlier
  }

  /** The keys of the kept rows in the order in which they first appear. */
  function KeyOrder(rows: seq<RawPosition>, cutoff: Option<int>): seq<string> {
    if rows == [] then []
    else
      var n := |rows| - 1;
      var earlier := KeyOrder(rows[..n], cutoff);
      var p := Kept(rows[n], cutoff);
      if p.Some? && KeyOf(p.value) !in earlier then earlier + [KeyOf(p.value)] else earlier
  }

  /** One feature row for every prefix of a series. */
  function SeriesFeatures(history: seq<Position>, ctx: Context): seq<Feature> {
    if history == [] then []
    else SeriesFeatures(history[..|history| - 1], ctx) + [FeatureRow(history, ctx)]
  }

  /** The features of the series of a key. */
  function FeaturesOfKey(rows: seq<RawPosition>, cutoff: Option<int>, ctx: Context): string -> seq<Feature> {
    (key: string) => SeriesFeatures(History(rows, cutoff, key), ctx)
  }

  function AllFeatures(keys: seq<string>, rows: seq<RawPosition>, cutoff: Option<int>, ctx: Context): seq<Feature> {
    FlatMap(FeaturesOfKey(rows, cutoff, ctx), keys)
  }

  predicate FeatureLe(a: Feature, b: Feature) {
    a.reportDate < b.reportDate || (a.reportDate == b.reportDate && StringLe(a.market, b.market))
  }

  /** `sorted` is stable: a row goes after the rows it does not precede. */
  function InsertFeature(f: Feature, sorted: seq<Feature>): seq<Feature> {
    if sorted == [] then [f]
    else
      var n := |sorted| - 1;
      if FeatureLe(sorted[n], f) then sorted + [f] else InsertFeature(f, sorted[..n]) + [sorted[n]]
  }

  function SortFeatures(features: seq<Feature>): seq<Feature> {
    if features == [] then []
    else InsertFeature(features[|features| - 1], SortFeatures(features[..|features| - 1]))
  }

  function FeatureHistory(rows: seq<RawPosition>, cutoff: Option<int>, ctx: Context): seq<Feature> {
    SortFeatures(AllFeatures(KeyOrder(rows, cutoff), rows, cutoff, ctx))
  }

  // ---------- series ----------

  ghost predicate ByDate(history: seq<Position>) {
    forall i, j :: 0 <= i < j < |history| ==> history[i].reportDate < history[j].reportDate
  }

  lemma {:induction false} InsertKeepsOrder(history: seq<Position>, p: Position)
    requires ByDate(history)
    ensures ByDate(InsertByDate(history, p))
    ensures var r := InsertByDate(history, p);
      r != [] && r[|r| - 1].reportDate
                 == if history != [] && p.reportDate < history[|history| - 1].reportDate
                    then history[|history| - 1].reportDate else p.reportDate
  {
    if history != [] && p.reportDate < history[|history| - 1].reportDate {
      var n := |history| - 1;
      InsertKeepsOrder(history[..n], p);
      var r := InsertByDate(history[..n], p);
      assert n == 0 || history[n - 1].reportDate < history[n].reportDate;
      assert forall i :: 0 <= i < |r| ==> i == |r| - 1 || r[i].reportDate < r[|r| - 1].reportDate;
    }
  }

  lemma {:induction false} InsertMembers(history: seq<Position>, p: Position, x: Position)
    requires ByDate(history)
    ensures x in InsertByDate(history, p) <==> x == p || (x in history && x.reportDate != p.reportDate)
  {
    if history != [] {
      var n := |history| - 1;
      assert x in history <==> x in history[..n] || x == history[n];
      if p.reportDate < history[n].reportDate {
        InsertMembers(history[..n], p, x);
      } else {
        assert x in history[..n] ==> x.reportDate < history[n].reportDate;
      }
    }
  }

  lemma {:induction false} HistoryByDate(rows: seq<RawPosition>, cutoff: Option<int>, key: string)
    ensures ByDate(History(rows, cutoff, key))
  {
    if rows != [] {
      HistoryByDate(rows[..|rows| - 1], cutoff, key);
      var p := Kept(rows[|rows| - 1], cutoff);
      if p.Some? {
        InsertKeepsOrder(History(rows[..|rows| - 1], cutoff, key), p.value);
      }
    }
  }

  // ---------- the source's loops ----------

  /** The inner dictionary: rows by date, and the dates in the order in which they were first set. */
  datatype Series = Series(rows: map<int, Position>, dates: seq<int>)

  const NO_ROWS := Series(map[], [])

  function PutRow(series: Series, p: Position): Series {
    Series(series.rows[p.reportDate := p],
           if p.reportDate in series.rows then series.dates else series.dates + [p.reportDate])
  }

  /** A dictionary from date to row holds exactly the rows of a date-ordered series. */
  ghost predicate Holds(series: Series, history: seq<Position>) {
    && ByDate(history)
    && (forall p :: p in history ==> p.reportDate in series.rows && series.rows[p.reportDate] == p)
    && (forall d :: d in series.rows ==> series.rows[d] in history && series.rows[d].reportDate == d)
    && (forall d :: d in series.dates <==> d in series.rows)
  }

  lemma {:induction false} HoldsAfterInsert(series: Series, history: seq<Position>, p: Position)
    requires Holds(series, history)
    ensures Holds(PutRow(series, p), InsertByDate(history, p))
  {
    InsertKeepsOrder(history, p);
    forall x ensures x in InsertByDate(history, p) <==> x == p || (x in history && x.reportDate != p.reportDate) {
      InsertMembers(history, p, x);
    }
  }

  /** `[rows_by_date[key] for key in sorted(rows_by_date)]`. */
  method OrderedRows(series: Series, ghost history: seq<Position>) returns (ordered: seq<Position>)
    requires Holds(series, history)
    ensures ordered == history
  {
    OrdersAreTotal();
    SortDistinctIsSorted(IntLe, series.dates);
    var dates := SortDistinct(IntLe, series.dates);
    ghost var expected := seq(|history|, i requires 0 <= i < |history| => history[i].reportDate);
    forall d ensures d in dates <==> d in expected {
      if d in expected {
        var i :| 0 <= i < |expected| && expected[i] == d;
        assert history[i] in history;
      }
      if d in series.rows {
        var i :| 0 <= i < |history| && history[i] == series.rows[d];
        assert expected[i] in expected;
      }
    }
    StrictlySortedIsUnique(IntLe, dates, expected);
    assert forall i :: 0 <= i < |history| ==> history[i] in history;
    ordered := seq(|dates|, i requires 0 <= i < |dates| => series.rows[dates[i]]);
  }

  type Groups = map<string, Series>

  /** The dictionary of one key holds the key's series; a key without dictionary has an empty series. */
  ghost predicate HoldsKey(groups: Groups, rows: seq<RawPosition>, cutoff: Option<int>, key: string) {
    if key in groups then Holds(groups[key], History(rows, cutoff, key)) else History(rows, cutoff, key) == []
  }

  ghost predicate Grouped(groups: Groups, order: seq<string>, rows: seq<RawPosition>, cutoff: Option<int>) {
    && order == KeyOrder(rows, cutoff)
    && (forall k :: k in groups <==> k in order)
    && forall k :: HoldsKey(groups, rows, cutoff, k)
  }

  lemma {:induction false} HistoryStep(rows: seq<RawPosition>, cutoff: Option<int>, i: nat, key: string)
    requires i < |rows|
    ensures History(rows[..i + 1], cutoff, key) ==
      var p := Kept(rows[i], cutoff);
      if p.Some? && KeyOf(p.value) == key then InsertByDate(History(rows[..i], cutoff, key), p.value)
      else History(rows[..i], cutoff, key)
  {
    assert rows[..i + 1][..i] == rows[..i];
  }

  lemma {:induction false} KeyOrderStep(rows: seq<RawPosition>, cutoff: Option<int>, i: nat)
    requires i < |rows|
    ensures KeyOrder(rows[..i + 1], cutoff) ==
      var p := Kept(rows[i], cutoff);
      if p.Some? && KeyOf(p.value) !in KeyOrder(rows[..i], cutoff) then KeyOrder(rows[..i], cutoff) + [KeyOf(p.value)]
      else KeyOrder(rows[..i], cutoff)
  {
    assert rows[..i + 1][..i] == rows[..i];
  }

  lemma {:induction false} UnkeptStep(groups: Groups, order: seq<string>, rows: seq<RawPosition>,
                                      cutoff: Option<int>, i: nat)
    requires i < |rows| && Grouped(groups, order, rows[..i], cutoff) && Kept(rows[i], cutoff).None?
    ensures Grouped(groups, order, rows[..i + 1], cutoff)
  {
    KeyOrderStep(rows, cutoff, i);
    var more := rows[..i + 1];
    forall k ensures HoldsKey(groups, more, cutoff, k) {
      HistoryStep(rows, cutoff, i, k);
      assert HoldsKey(groups, rows[..i], cutoff, k);
    }
  }

  function SeriesOf(groups: Groups, key: string): Series {
    if key in groups then groups[key] else NO_ROWS
  }

  lemma {:induction false} KeptKey(groups: Groups, rows: seq<RawPosition>, cutoff: Option<int>, i: nat, p: Position,
                                   k: string)
    requires i < |rows| && Kept(rows[i], cutoff) == Some(p)
    requires HoldsKey(groups, rows[..i], cutoff, k)
    ensures HoldsKey(groups[KeyOf(p) := PutRow(SeriesOf(groups, KeyOf(p)), p)], rows[..i + 1], cutoff, k)
  {
    HistoryStep(rows, cutoff, i, k);
    if k == KeyOf(p) {
      HoldsAfterInsert(SeriesOf(groups, k), History(rows[..i], cutoff, k), p);
    }
  }

  lemma {:induction false} KeptStep(groups: Groups, order: seq<string>, rows: seq<RawPosition>, cutoff: Option<int>,
                                    i: nat, p: Position)
    requires i < |rows| && Grouped(groups, order, rows[..i], cutoff) && Kept(rows[i], cutoff) == Some(p)
    ensures Grouped(groups[KeyOf(p) := PutRow(SeriesOf(groups, KeyOf(p)), p)],
                    if KeyOf(p) in groups then order else order + [KeyOf(p)], rows[..i + 1], cutoff)
  {
    KeyOrderStep(rows, cutoff, i);
    var next := groups[KeyOf(p) := PutRow(SeriesOf(groups, KeyOf(p)), p)];
    var more := rows[..i + 1];
    forall k ensures HoldsKey(next, more, cutoff, k) {
      KeptKey(groups, rows, cutoff, i, p, k);
    }
  }

  /** First loop: nested dictionaries by key and by date, the last row of a date winning. */
  method GroupPositions(rows: seq<RawPosition>, cutoff: Option<int>) returns (groups: Groups, order: seq<string>)
    ensures Grouped(groups, order, rows, cutoff)
  {
    groups, order := map[], [];
    for i := 0 to |rows|
      invariant Grouped(groups, order, rows[..i], cutoff)
    {
      var kept := Kept(rows[i], cutoff);
      if kept.None? {
        UnkeptStep(groups, order, rows, cutoff, i);
      } else {
        KeptStep(groups, order, rows, cutoff, i, kept.value);
        var key := KeyOf(kept.value);
        if key !in groups {
          order := order + [key];
        }
        groups := groups[key := PutRow(SeriesOf(groups, key), kept.value)];
      }
    }
    assert rows[..|rows|] == rows;
  }

  /** Inner loop: a feature row for every prefix. */
  method AppendSeries(features: seq<Feature>, ordered: seq<Position>, ctx: Context) returns (r: seq<Feature>)
    ensures r == features + SeriesFeatures(ordered, ctx)
  {
    r := features;
    for index := 0 to |ordered|
      invariant r == features + SeriesFeatures(ordered[..index], ctx)
    {
      assert ordered[..index + 1][..index] == ordered[..index];
      r := r + [FeatureRow(ordered[..index + 1], ctx)];
    }
    assert ordered[..|ordered|] == ordered;
  }

  method BuildFeatureHistory(rows: seq<RawPosition>, cutoff: Option<int>, ctx: Context) returns (features: seq<Feature>)
    ensures features == FeatureHistory(rows, cutoff, ctx)
  {
    var groups, order := GroupPositions(rows, cutoff);
    features := [];
    for i := 0 to |order|
      invariant features == AllFeatures(order[..i], rows, cutoff, ctx)
    {
      assert order[..i + 1] == order[..i] + [order[i]];
      FlatMapSnoc(FeaturesOfKey(rows, cutoff, ctx), order[..i], order[i]);
      assert order[i] in order;
      assert HoldsKey(groups, rows, cutoff, order[i]);
      var ordered := OrderedRows(groups[order[i]], History(rows, cutoff, order[i]));
      features := AppendSeries(features, ordered, ctx);
    }
    assert order[..|order|] == order;
    features := SortFeatures(features);
  }
}
