/**
 Which rows a series is made of, and which features a history holds: one for every row that counts, described by the
 rows of its key up to its date, in a stable order of date and market.
 */
module CftcHistoryMeaning {
  import opened Common
  import opened Ordering
  import opened WindowStatistics
  import opened CftcFeatures
  import opened CftcFeatureMeaning
  import opened CftcNoLookAhead
  import CftcFeatureBounds

  // ---------- the rows of a series ----------

  /** The raw row states this position of the key, dated by the cutoff; the code is the key, or else the market. */
  predicate States(raw: RawPosition, cutoff: Option<int>, key: string, p: Position) {
    && raw.market != "" && p.market == raw.market
    && p.contractCode == (if raw.contractCode == "" then None else Some(raw.contractCode))
    && key == (if raw.contractCode == "" then raw.market else raw.contractCode)
    && raw.reportDate == Some(p.reportDate)
    && (cutoff.Some? ==> p.reportDate <= cutoff.value)
    && p.openInterest == raw.openInterest && p.managedMoney == raw.managedMoney && p.commercial == raw.commercial
    && p.swapDealer == raw.swapDealer && p.otherReportable == raw.otherReportable
    && p.nonReportable == raw.nonReportable
  }

  /** The raw row states some position of the key for the date. */
  predicate StatesDate(raw: RawPosition, cutoff: Option<int>, key: string, date: int) {
    && raw.market != "" && raw.reportDate == Some(date)
    && key == (if raw.contractCode == "" then raw.market else raw.contractCode)
    && (cutoff.Some? ==> date <= cutoff.value)
  }

  /** Row `k` states the position, and no later row states another one for the same key and date. */
  ghost predicate Wins(rows: seq<RawPosition>, cutoff: Option<int>, key: string, p: Position, k: int) {
    && 0 <= k < |rows| && States(rows[k], cutoff, key, p)
    && forall j :: k < j < |rows| ==> !StatesDate(rows[j], cutoff, key, p.reportDate)
  }

  ghost predicate Counted(rows: seq<RawPosition>, cutoff: Option<int>, key: string, p: Position) {
    exists k :: Wins(rows, cutoff, key, p, k)
  }

  lemma {:induction false} KeptStates(raw: RawPosition, cutoff: Option<int>, key: string, p: Position)
    ensures States(raw, cutoff, key, p) <==> Kept(raw, cutoff) == Some(p) && KeyOf(p) == key
  {
  }

  lemma {:induction false} KeptDate(raw: RawPosition, cutoff: Option<int>, key: string, date: int)
    ensures StatesDate(raw, cutoff, key, date) <==>
              Kept(raw, cutoff).Some? && KeyOf(Kept(raw, cutoff).value) == key
              && Kept(raw, cutoff).value.reportDate == date
  {
  }

  /** One more row: it counts if it states the position, and what counted before stays unless the row replaces it. */
  lemma {:induction false} CountedStep(rows: seq<RawPosition>, raw: RawPosition, cutoff: Option<int>, key: string,
                                       p: Position)
    ensures Counted(rows + [raw], cutoff, key, p) <==>
              States(raw, cutoff, key, p)
              || (Counted(rows, cutoff, key, p) && !StatesDate(raw, cutoff, key, p.reportDate))
  {
    var all := rows + [raw];
    assert all[|rows|] == raw;
    if States(raw, cutoff, key, p) {
      assert Wins(all, cutoff, key, p, |rows|);
    }
    if Counted(rows, cutoff, key, p) && !StatesDate(raw, cutoff, key, p.reportDate) {
      var k :| Wins(rows, cutoff, key, p, k);
      assert all[k] == rows[k];
      assert Wins(all, cutoff, key, p, k);
    }
    if Counted(all, cutoff, key, p) && !States(raw, cutoff, key, p) {
      var k :| Wins(all, cutoff, key, p, k);
      assert all[k] == rows[k];
      forall j | k < j < |rows| ensures !StatesDate(rows[j], cutoff, key, p.reportDate) {
        assert all[j] == rows[j];
      }
      assert Wins(rows, cutoff, key, p, k);
    }
  }

  /** A series holds exactly the positions that count for its key: of the rows of a date the last one. */
  lemma {:induction false} SeriesExactly(rows: seq<RawPosition>, cutoff: Option<int>, key: string, p: Position)
    ensures p in History(rows, cutoff, key) <==> Counted(rows, cutoff, key, p)
  {
    if rows == [] {
      assert !Counted(rows, cutoff, key, p);
    } else {
      var front, raw := rows[..|rows| - 1], rows[|rows| - 1];
      assert rows == front + [raw];
      SeriesExactly(front, cutoff, key, p);
      CountedStep(front, raw, cutoff, key, p);
      KeptStates(raw, cutoff, key, p);
      KeptDate(raw, cutoff, key, p.reportDate);
      var kept := Kept(raw, cutoff);
      if kept.Some? {
        HistoryByDate(front, cutoff, key);
        InsertMembers(History(front, cutoff, key), kept.value, p);
      }
    }
  }

  // ---------- the features of a history ----------

  lemma {:induction false} SeriesAt(h: seq<Position>, ctx: Context, n: nat)
    requires n < |h|
    ensures |SeriesFeatures(h, ctx)| == |h|
    ensures SeriesFeatures(h, ctx)[n] == FeatureRow(h[..n + 1], ctx)
  {
    var front := h[..|h| - 1];
    if n < |front| {
      SeriesAt(front, ctx, n);
      assert h[..n + 1] == front[..n + 1];
    } else {
      assert h[..n + 1] == h;
      if 0 < n {
        SeriesAt(front, ctx, 0);
      }
    }
  }

  lemma {:induction false} SeriesMember(h: seq<Position>, ctx: Context, f: Feature) returns (n: nat)
    requires f in SeriesFeatures(h, ctx)
    ensures n < |h| && f == FeatureRow(h[..n + 1], ctx)
  {
    var features := SeriesFeatures(h, ctx);
    SeriesAt(h, ctx, 0);
    n :| 0 <= n < |features| && features[n] == f;
    SeriesAt(h, ctx, n);
  }

  lemma {:induction false} MemberOfFlatMap<T, U>(f: T -> seq<U>, s: seq<T>, x: T, y: U)
    requires x in s && y in f(x)
    ensures y in FlatMap(f, s)
  {
    var n := |s| - 1;
    if x != s[n] {
      MemberOfFlatMap(f, s[..n], x, y);
    }
  }

  lemma {:induction false} PrefixByDate(h: seq<Position>, n: nat, p: Position)
    requires ByDate(h) && n < |h|
    ensures p in h[..n + 1] <==> p in h && p.reportDate <= h[n].reportDate
  {
    if p in h && p.reportDate <= h[n].reportDate {
      var i :| 0 <= i < |h| && h[i] == p;
      assert i <= n;
      assert h[..n + 1][i] == p;
    }
    if p in h[..n + 1] {
      var i :| 0 <= i < n + 1 && h[..n + 1][i] == p;
      assert i == n || h[i].reportDate < h[n].reportDate;
    }
  }

  lemma {:induction false} FeatureSource(rows: seq<RawPosition>, cutoff: Option<int>, ctx: Context, f: Feature)
    returns (key: string, n: nat)
    requires f in FeatureHistory(rows, cutoff, ctx)
    ensures n < |History(rows, cutoff, key)| && f == FeatureRow(History(rows, cutoff, key)[..n + 1], ctx)
  {
    var keys := KeyOrder(rows, cutoff);
    SortKeepsAll(AllFeatures(keys, rows, cutoff, ctx));
    assert f in multiset(FeatureHistory(rows, cutoff, ctx));
    key := CftcFeatureBounds.FlatMapMember(FeaturesOfKey(rows, cutoff, ctx), keys, f);
    n := SeriesMember(History(rows, cutoff, key), ctx, f);
  }

  /** `h` holds the positions that count for the key up to a date, in date order. */
  ghost predicate SeriesUpTo(h: seq<Position>, rows: seq<RawPosition>, cutoff: Option<int>, key: string, date: int) {
    ByDate(h) && forall p :: p in h <==> Counted(rows, cutoff, key, p) && p.reportDate <= date
  }

  lemma {:induction false} PrefixIsSeries(rows: seq<RawPosition>, cutoff: Option<int>, key: string, n: nat)
    requires n < |History(rows, cutoff, key)|
    ensures var all := History(rows, cutoff, key); SeriesUpTo(all[..n + 1], rows, cutoff, key, all[n].reportDate)
  {
    var all := History(rows, cutoff, key);
    HistoryByDate(rows, cutoff, key);
    forall p ensures p in all[..n + 1] <==> Counted(rows, cutoff, key, p) && p.reportDate <= all[n].reportDate {
      SeriesExactly(rows, cutoff, key, p);
      PrefixByDate(all, n, p);
    }
  }

  /** Every feature of a history describes the positions that count for one key, up to the date of the feature. */
  lemma {:induction false} FeatureExactly(rows: seq<RawPosition>, cutoff: Option<int>, ctx: Context, f: Feature)
    returns (key: string, h: seq<Position>)
    requires IsRoot(ctx.root) && f in FeatureHistory(rows, cutoff, ctx)
    ensures h != [] && SeriesUpTo(h, rows, cutoff, key, f.reportDate) && Describes(f, h, ctx.prices)
  {
    var n;
    key, n := FeatureSource(rows, cutoff, ctx, f);
    h := History(rows, cutoff, key)[..n + 1];
    PrefixIsSeries(rows, cutoff, key, n);
    RowExactly(h, ctx);
  }

  /** No position is left out: each one that counts is the current position of a feature. */
  lemma {:induction false} EveryPositionHasFeature(rows: seq<RawPosition>, cutoff: Option<int>, ctx: Context,
                                                   key: string, p: Position)
    requires Counted(rows, cutoff, key, p)
    ensures exists f :: f in FeatureHistory(rows, cutoff, ctx) && f.current == p
  {
    var keys, all := KeyOrder(rows, cutoff), History(rows, cutoff, key);
    SeriesExactly(rows, cutoff, key, p);
    var n :| 0 <= n < |all| && all[n] == p;
    var f := FeatureRow(all[..n + 1], ctx);
    SeriesAt(all, ctx, n);
    assert SeriesFeatures(all, ctx)[n] in SeriesFeatures(all, ctx);
    KeyOrderIs(rows, cutoff, key);
    MemberOfFlatMap(FeaturesOfKey(rows, cutoff, ctx), keys, key, f);
    SortKeepsAll(AllFeatures(keys, rows, cutoff, ctx));
    assert f in multiset(FeatureHistory(rows, cutoff, ctx));
  }

  // ---------- each feature once ----------

  lemma {:induction false} DistinctIsOnce<T>(s: seq<T>, x: T)
    requires Distinct(s)
    ensures multiset(s)[x] <= 1
  {
    DistinctCountsOnce(s, x);
  }

  lemma {:induction false} CurrentRow(h: seq<Position>, ctx: Context)
    requires h != []
    ensures FeatureRow(h, ctx).current == h[|h| - 1]
  {
  }

  lemma {:induction false} SeriesOnce(h: seq<Position>, ctx: Context, f: Feature)
    requires ByDate(h)
    ensures multiset(SeriesFeatures(h, ctx))[f] <= 1
    ensures f in SeriesFeatures(h, ctx) ==> f.current in h
  {
    var features := SeriesFeatures(h, ctx);
    forall n | 0 <= n < |h| ensures |features| == |h| && features[n].current == h[n] {
      SeriesAt(h, ctx, n);
      CurrentRow(h[..n + 1], ctx);
    }
    assert Distinct(features) by {
      assert |features| == |h|;
      forall i, j | 0 <= i < j < |features| ensures features[i] != features[j] {
        assert h[i].reportDate < h[j].reportDate;
      }
    }
    DistinctIsOnce(features, f);
  }

  lemma {:induction false} HistoryKey(rows: seq<RawPosition>, cutoff: Option<int>, key: string, p: Position)
    requires p in History(rows, cutoff, key)
    ensures KeyOf(p) == key
  {
    SeriesExactly(rows, cutoff, key, p);
    var k :| Wins(rows, cutoff, key, p, k);
    KeptStates(rows[k], cutoff, key, p);
  }

  lemma {:induction false} KeysOnce(keys: seq<string>, rows: seq<RawPosition>, cutoff: Option<int>, ctx: Context,
                                    f: Feature)
    requires Distinct(keys)
    ensures multiset(AllFeatures(keys, rows, cutoff, ctx))[f] <= 1
    ensures f in AllFeatures(keys, rows, cutoff, ctx) ==> KeyOf(f.current) in keys
  {
    if keys != [] {
      var n := |keys| - 1;
      KeysOnce(keys[..n], rows, cutoff, ctx, f);
      var h := History(rows, cutoff, keys[n]);
      HistoryByDate(rows, cutoff, keys[n]);
      SeriesOnce(h, ctx, f);
      if f in SeriesFeatures(h, ctx) {
        HistoryKey(rows, cutoff, keys[n], f.current);
        assert forall i :: 0 <= i < n ==> keys[i] != keys[n];
      }
    }
  }

  /** No feature is listed twice. */
  lemma {:induction false} EachFeatureOnce(rows: seq<RawPosition>, cutoff: Option<int>, ctx: Context, f: Feature)
    ensures multiset(FeatureHistory(rows, cutoff, ctx))[f] <= 1
  {
    var keys := KeyOrder(rows, cutoff);
    KeyOrderIs(rows, cutoff, "");
    KeysOnce(keys, rows, cutoff, ctx, f);
    SortKeepsAll(AllFeatures(keys, rows, cutoff, ctx));
  }

  // ---------- the order ----------

  /** Features in ascending order of date, and of market within a date. */
  lemma {:induction false} HistoryIsAscending(rows: seq<RawPosition>, cutoff: Option<int>, ctx: Context, i: nat, j: nat)
    requires i < j < |FeatureHistory(rows, cutoff, ctx)|
    ensures var f, g := FeatureHistory(rows, cutoff, ctx)[i], FeatureHistory(rows, cutoff, ctx)[j];
      f.reportDate < g.reportDate || (f.reportDate == g.reportDate && Ascending(f.market, g.market))
  {
    ResultIsSorted(AllFeatures(KeyOrder(rows, cutoff), rows, cutoff, ctx));
    var f, g := FeatureHistory(rows, cutoff, ctx)[i], FeatureHistory(rows, cutoff, ctx)[j];
    assert FeatureLe(f, g);
    if f.reportDate == g.reportDate {
      StringLeIsAscending(f.market, g.market);
    }
  }

  /** The features of one date and market, in the order given. */
  function OfDateAndMarket(features: seq<Feature>, date: int, market: string): seq<Feature> {
    if features == [] then []
    else
      var n := |features| - 1;
      OfDateAndMarket(features[..n], date, market)
      + if features[n].reportDate == date && features[n].market == market then [features[n]] else []
  }

  lemma {:induction false} OfDateAndMarketSnoc(features: seq<Feature>, f: Feature, date: int, market: string)
    ensures OfDateAndMarket(features + [f], date, market)
            == OfDateAndMarket(features, date, market)
               + if f.reportDate == date && f.market == market then [f] else []
  {
    assert (features + [f])[..|features|] == features;
  }

  lemma {:induction false} InsertIsStable(f: Feature, s: seq<Feature>, date: int, market: string)
    ensures OfDateAndMarket(InsertFeature(f, s), date, market)
            == OfDateAndMarket(s, date, market) + if f.reportDate == date && f.market == market then [f] else []
  {
    if s == [] {
      assert [f][..0] == [];
    } else {
      var front, last := s[..|s| - 1], s[|s| - 1];
      if FeatureLe(last, f) {
        OfDateAndMarketSnoc(s, f, date, market);
      } else {
        InsertIsStable(f, front, date, market);
        OfDateAndMarketSnoc(InsertFeature(f, front), last, date, market);
        StringLeTotal(last.market, last.market);
      }
    }
  }

  /** The sort is stable: features of the same date and market keep the order in which they were built. */
  lemma {:induction false} SortIsStable(features: seq<Feature>, date: int, market: string)
    ensures OfDateAndMarket(SortFeatures(features), date, market) == OfDateAndMarket(features, date, market)
  {
    if features != [] {
      var n := |features| - 1;
      SortIsStable(features[..n], date, market);
      InsertIsStable(features[n], SortFeatures(features[..n]), date, market);
    }
  }

  /** A row that counts for the key. */
  ghost predicate ForKey(raw: RawPosition, cutoff: Option<int>, key: string) {
    exists date :: StatesDate(raw, cutoff, key, date)
  }

  /** Keys stand in the order of their first rows. */
  lemma {:induction false} KeysInOrder(rows: seq<RawPosition>, cutoff: Option<int>, i: nat, j: nat)
    requires i < j < |KeyOrder(rows, cutoff)|
    ensures var keys := KeyOrder(rows, cutoff);
      exists p :: 0 <= p < |rows| && ForKey(rows[p], cutoff, keys[i])
                  && forall q :: 0 <= q <= p ==> !ForKey(rows[q], cutoff, keys[j])
  {
    var n := |rows| - 1;
    var earlier := KeyOrder(rows[..n], cutoff);
    if j < |earlier| {
      KeysInOrder(rows[..n], cutoff, i, j);
      var p :| 0 <= p < n && ForKey(rows[..n][p], cutoff, earlier[i])
               && forall q :: 0 <= q <= p ==> !ForKey(rows[..n][q], cutoff, earlier[j]);
      assert rows[p] == rows[..n][p];
      forall q | 0 <= q <= p ensures !ForKey(rows[q], cutoff, earlier[j]) {
        assert rows[q] == rows[..n][q];
      }
    } else {
      var added := KeyOf(Kept(rows[n], cutoff).value);
      var p := FirstRow(rows[..n], cutoff, earlier[i]);
      forall q | 0 <= q <= p ensures !ForKey(rows[q], cutoff, added) {
        assert rows[q] == rows[..n][q];
        if ForKey(rows[q], cutoff, added) {
          KeyIsListed(rows[..n], cutoff, q, added);
        }
      }
      assert rows[p] == rows[..n][p];
    }
  }

  lemma {:induction false} FirstRow(rows: seq<RawPosition>, cutoff: Option<int>, key: string) returns (p: nat)
    requires key in KeyOrder(rows, cutoff)
    ensures p < |rows| && ForKey(rows[p], cutoff, key)
  {
    var n := |rows| - 1;
    if key in KeyOrder(rows[..n], cutoff) {
      p := FirstRow(rows[..n], cutoff, key);
      assert rows[p] == rows[..n][p];
    } else {
      p := n;
      KeptDate(rows[n], cutoff, key, Kept(rows[n], cutoff).value.reportDate);
    }
  }

  lemma {:induction false} KeyIsListed(rows: seq<RawPosition>, cutoff: Option<int>, q: nat, key: string)
    requires q < |rows| && ForKey(rows[q], cutoff, key)
    ensures key in KeyOrder(rows, cutoff)
  {
    var n := |rows| - 1;
    if q < n {
      assert rows[q] == rows[..n][q];
      KeyIsListed(rows[..n], cutoff, q, key);
    } else {
      var date :| StatesDate(rows[q], cutoff, key, date);
      KeptDate(rows[q], cutoff, key, date);
    }
  }
}
