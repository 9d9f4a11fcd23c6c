/** A feature never depends on what was reported after it. */
module CftcNoLookAhead {
  import opened Common
  import opened Ordering
  import opened CftcFeatures

  /** The rows of a series up to a date. */
  function UpTo(history: seq<Position>, date: int): seq<Position> {
    if history == [] then []
    else
      var n := |history| - 1;
      var earlier := UpTo(history[..n], date);
      if history[n].reportDate <= date then earlier + [history[n]] else earlier
  }

  function FeaturesUpTo(features: seq<Feature>, date: int): seq<Feature> {
    if features == [] then []
    else
      var n := |features| - 1;
      var earlier := FeaturesUpTo(features[..n], date);
      if features[n].reportDate <= date then earlier + [features[n]] else earlier
  }

  lemma {:induction false} UpToSnoc(history: seq<Position>, p: Position, date: int)
    ensures UpTo(history + [p], date) == if p.reportDate <= date then UpTo(history, date) + [p] else UpTo(history, date)
  {
    assert (history + [p])[..|history|] == history;
  }

  lemma {:induction false} ByDateSnoc(history: seq<Position>, p: Position)
    requires ByDate(history) && (history == [] || history[|history| - 1].reportDate < p.reportDate)
    ensures ByDate(history + [p])
  {
  }

  /** The rows up to a date are in order and do not go beyond the series. */
  lemma {:induction false} UpToIsBounded(history: seq<Position>, date: int)
    requires ByDate(history)
    ensures var r := UpTo(history, date);
      ByDate(r) && (r != [] ==> history != [] && r[|r| - 1].reportDate <= history[|history| - 1].reportDate)
  {
    if history != [] {
      var n := |history| - 1;
      UpToIsBounded(history[..n], date);
      assert n == 0 || history[n - 1].reportDate < history[n].reportDate;
      ByDateSnoc(UpTo(history[..n], date), history[n]);
    }
  }

  /** A series that ends by the date is kept whole. */
  lemma {:induction false} UpToKeepsAll(history: seq<Position>, date: int)
    requires ByDate(history)
    requires history != [] ==> history[|history| - 1].reportDate <= date
    ensures UpTo(history, date) == history
  {
    if history != [] {
      var n := |history| - 1;
      assert n == 0 || history[n - 1].reportDate < history[n].reportDate;
      UpToKeepsAll(history[..n], date);
    }
  }

  lemma {:induction false} InsertSnocBefore(history: seq<Position>, last: Position, p: Position)
    requires p.reportDate < last.reportDate
    ensures InsertByDate(history + [last], p) == InsertByDate(history, p) + [last]
  {
    assert (history + [last])[..|history|] == history;
  }

  lemma {:induction false} InsertSnocSame(history: seq<Position>, last: Position, p: Position)
    requires p.reportDate == last.reportDate
    ensures InsertByDate(history + [last], p) == history + [p]
  {
    assert (history + [last])[..|history|] == history;
  }

  lemma {:induction false} InsertAtEnd(history: seq<Position>, p: Position)
    requires history == [] || history[|history| - 1].reportDate < p.reportDate
    ensures InsertByDate(history, p) == history + [p]
  {
  }

  /** Cutting a series off commutes with taking a row in. */
  lemma {:induction false} UpToInsert(history: seq<Position>, p: Position, date: int)
    requires ByDate(history)
    ensures UpTo(InsertByDate(history, p), date)
            == if p.reportDate <= date then InsertByDate(UpTo(history, date), p) else UpTo(history, date)
  {
    if history == [] || history[|history| - 1].reportDate < p.reportDate {
      UpToIsBounded(history, date);
      InsertAtEnd(history, p);
      UpToSnoc(history, p, date);
      InsertAtEnd(UpTo(history, date), p);
    } else {
      var front, last := history[..|history| - 1], history[|history| - 1];
      assert history == front + [last];
      UpToSnoc(front, last, date);
      if last.reportDate == p.reportDate {
        InsertSnocSame(front, last, p);
        InsertSnocSame(UpTo(front, date), last, p);
        UpToSnoc(front, p, date);
      } else {
        InsertSnocBefore(front, last, p);
        InsertSnocBefore(UpTo(front, date), last, p);
        UpToInsert(front, p, date);
        UpToSnoc(InsertByDate(front, p), last, date);
      }
    }
  }

  lemma {:induction false} KeptWithCutoff(raw: RawPosition, cutoff: int)
    ensures Kept(raw, Some(cutoff)) ==
      if Kept(raw, None).Some? && Kept(raw, None).value.reportDate <= cutoff then Kept(raw, None) else None
  {
  }

  /** The series built with a cutoff is the full series up to the cutoff, repeated dates included. */
  lemma {:induction false} HistoryWithCutoff(rows: seq<RawPosition>, cutoff: int, key: string)
    ensures History(rows, Some(cutoff), key) == UpTo(History(rows, None, key), cutoff)
  {
    if rows != [] {
      var n := |rows| - 1;
      HistoryWithCutoff(rows[..n], cutoff, key);
      HistoryByDate(rows[..n], None, key);
      KeptWithCutoff(rows[n], cutoff);
      var p := Kept(rows[n], None);
      if p.Some? {
        UpToInsert(History(rows[..n], None, key), p.value, cutoff);
      }
    }
  }

  // ---------- features of one series ----------

  lemma {:induction false} FeaturesUpToSnoc(features: seq<Feature>, f: Feature, date: int)
    ensures FeaturesUpTo(features + [f], date)
            == if f.reportDate <= date then FeaturesUpTo(features, date) + [f] else FeaturesUpTo(features, date)
  {
    assert (features + [f])[..|features|] == features;
  }

  /** A feature carries the date of the last row of its prefix. */
  lemma {:induction false} FeatureDate(history: seq<Position>, ctx: Context)
    requires history != []
    ensures FeatureRow(history, ctx).reportDate == history[|history| - 1].reportDate
  {
  }

  lemma {:induction false} SeriesFeaturesSnoc(history: seq<Position>, p: Position, ctx: Context)
    ensures SeriesFeatures(history + [p], ctx) == SeriesFeatures(history, ctx) + [FeatureRow(history + [p], ctx)]
  {
    assert (history + [p])[..|history|] == history;
  }

  /** A row after the date adds nothing that is dated by it. */
  lemma {:induction false} LateRowAddsNothing(history: seq<Position>, p: Position, date: int, ctx: Context)
    requires date < p.reportDate
    ensures FeaturesUpTo(SeriesFeatures(history + [p], ctx), date) == FeaturesUpTo(SeriesFeatures(history, ctx), date)
  {
    SeriesFeaturesSnoc(history, p, ctx);
    FeatureDate(history + [p], ctx);
    FeaturesUpToSnoc(SeriesFeatures(history, ctx), FeatureRow(history + [p], ctx), date);
  }

  /** A series that ends by the date keeps all its features. */
  lemma {:induction false} EarlyFeaturesAreKept(history: seq<Position>, date: int, ctx: Context)
    requires ByDate(history)
    requires history != [] ==> history[|history| - 1].reportDate <= date
    ensures FeaturesUpTo(SeriesFeatures(history, ctx), date) == SeriesFeatures(history, ctx)
  {
    if history != [] {
      var n := |history| - 1;
      assert n == 0 || history[n - 1].reportDate < history[n].reportDate;
      EarlyFeaturesAreKept(history[..n], date, ctx);
      FeatureDate(history, ctx);
      FeaturesUpToSnoc(SeriesFeatures(history[..n], ctx), FeatureRow(history, ctx), date);
    }
  }

  lemma {:induction false} SeriesFeaturesUpTo(history: seq<Position>, date: int, ctx: Context)
    requires ByDate(history)
    ensures SeriesFeatures(UpTo(history, date), ctx) == FeaturesUpTo(SeriesFeatures(history, ctx), date)
  {
    if history == [] || history[|history| - 1].reportDate <= date {
      UpToKeepsAll(history, date);
      EarlyFeaturesAreKept(history, date, ctx);
    } else {
      var front, last := history[..|history| - 1], history[|history| - 1];
      assert history == front + [last];
      SeriesFeaturesUpTo(front, date, ctx);
      UpToSnoc(front, last, date);
      LateRowAddsNothing(front, last, date, ctx);
    }
  }

  // ---------- features of all series ----------

  lemma {:induction false} FeaturesUpToConcat(s: seq<Feature>, t: seq<Feature>, date: int)
    ensures FeaturesUpTo(s + t, date) == FeaturesUpTo(s, date) + FeaturesUpTo(t, date)
  {
    if t == [] {
      assert s + t == s;
    } else {
      var n := |t| - 1;
      FeaturesUpToConcat(s, t[..n], date);
      FeaturesUpToSnoc(s + t[..n], t[n], date);
      assert s + t == s + t[..n] + [t[n]];
    }
  }

  lemma {:induction false} AllFeaturesUpTo(keys: seq<string>, rows: seq<RawPosition>, cutoff: int, ctx: Context)
    ensures AllFeatures(keys, rows, Some(cutoff), ctx) == FeaturesUpTo(AllFeatures(keys, rows, None, ctx), cutoff)
  {
    if keys != [] {
      var n := |keys| - 1;
      AllFeaturesUpTo(keys[..n], rows, cutoff, ctx);
      KeyFeaturesUpTo(keys[n], rows, cutoff, ctx);
      FeaturesUpToConcat(AllFeatures(keys[..n], rows, None, ctx), FeaturesOfKey(rows, None, ctx)(keys[n]), cutoff);
    }
  }

  lemma {:induction false} KeyFeaturesUpTo(key: string, rows: seq<RawPosition>, cutoff: int, ctx: Context)
    ensures FeaturesOfKey(rows, Some(cutoff), ctx)(key) == FeaturesUpTo(FeaturesOfKey(rows, None, ctx)(key), cutoff)
  {
    HistoryWithCutoff(rows, cutoff, key);
    HistoryByDate(rows, None, key);
    SeriesFeaturesUpTo(History(rows, None, key), cutoff, ctx);
  }

  // ---------- the order of the keys ----------

  lemma {:induction false} KeyOrderIs(rows: seq<RawPosition>, cutoff: Option<int>, key: string)
    ensures Distinct(KeyOrder(rows, cutoff))
    ensures key in KeyOrder(rows, cutoff) <==> History(rows, cutoff, key) != []
  {
    if rows != [] {
      var n := |rows| - 1;
      KeyOrderIs(rows[..n], cutoff, key);
      var p := Kept(rows[n], cutoff);
      if p.Some? {
        InsertNotEmpty(History(rows[..n], cutoff, key), p.value);
      }
    }
  }

  lemma {:induction false} InsertNotEmpty(history: seq<Position>, p: Position)
    ensures InsertByDate(history, p) != []
  {
  }

  // ---------- sorting ----------

  lemma {:induction false} InsertFeatureKeepsAll(f: Feature, s: seq<Feature>)
    ensures multiset(InsertFeature(f, s)) == multiset(s) + multiset{f}
  {
    if s != [] {
      var n := |s| - 1;
      assert s == s[..n] + [s[n]];
      if !FeatureLe(s[n], f) {
        InsertFeatureKeepsAll(f, s[..n]);
      }
    }
  }

  lemma {:induction false} SortKeepsAll(features: seq<Feature>)
    ensures multiset(SortFeatures(features)) == multiset(features)
  {
    if features != [] {
      var n := |features| - 1;
      assert features == features[..n] + [features[n]];
      SortKeepsAll(features[..n]);
      InsertFeatureKeepsAll(features[n], SortFeatures(features[..n]));
    }
  }

  lemma {:induction false} FeaturesUpToCount(features: seq<Feature>, date: int, f: Feature)
    ensures multiset(FeaturesUpTo(features, date))[f] == if f.reportDate <= date then multiset(features)[f] else 0
  {
    if features != [] {
      var n := |features| - 1;
      assert features == features[..n] + [features[n]];
      FeaturesUpToCount(features[..n], date, f);
    }
  }

  lemma {:induction false} FeaturesUpToPermutation(s: seq<Feature>, t: seq<Feature>, date: int)
    requires multiset(s) == multiset(t)
    ensures multiset(FeaturesUpTo(s, date)) == multiset(FeaturesUpTo(t, date))
  {
    forall f ensures multiset(FeaturesUpTo(s, date))[f] == multiset(FeaturesUpTo(t, date))[f] {
      FeaturesUpToCount(s, date, f);
      FeaturesUpToCount(t, date, f);
    }
  }

  // ---------- the theorem ----------

  /**
   No look-ahead: building with a cutoff gives the same features as building without one and keeping those dated
   at or before the cutoff, also when dates repeat and later rows replace earlier ones.
   */
  lemma {:induction false} NoLookAhead(rows: seq<RawPosition>, cutoff: int, ctx: Context)
    ensures multiset(FeatureHistory(rows, Some(cutoff), ctx))
            == multiset(FeaturesUpTo(FeatureHistory(rows, None, ctx), cutoff))
  {
    var few, many := KeyOrder(rows, Some(cutoff)), KeyOrder(rows, None);
    var all := AllFeatures(many, rows, None, ctx);
    forall k ensures (k in few <==> History(rows, Some(cutoff), k) != []) && (k in few ==> k in many) {
      KeyOrderIs(rows, Some(cutoff), k);
      KeyOrderIs(rows, None, k);
      HistoryWithCutoff(rows, cutoff, k);
    }
    KeyOrderIs(rows, Some(cutoff), "");
    KeyOrderIs(rows, None, "");
    FlatMapSupport(FeaturesOfKey(rows, Some(cutoff), ctx), few, many);
    AllFeaturesUpTo(many, rows, cutoff, ctx);
    SortKeepsAll(AllFeatures(few, rows, Some(cutoff), ctx));
    SortKeepsAll(all);
    FeaturesUpToPermutation(all, SortFeatures(all), cutoff);
  }

  ghost predicate SortedFeatures(s: seq<Feature>) {
    forall i, j :: 0 <= i < j < |s| ==> FeatureLe(s[i], s[j])
  }

  lemma {:induction false} FeatureOrder(a: Feature, b: Feature, c: Feature)
    ensures FeatureLe(a, b) || FeatureLe(b, a)
    ensures FeatureLe(a, b) && FeatureLe(b, c) ==> FeatureLe(a, c)
  {
    StringLeTotal(a.market, b.market);
    if StringLe(a.market, b.market) && StringLe(b.market, c.market) {
      StringLeTransitive(a.market, b.market, c.market);
    }
  }

  lemma {:induction false} InsertFeatureSorted(f: Feature, s: seq<Feature>)
    requires SortedFeatures(s)
    ensures SortedFeatures(InsertFeature(f, s))
  {
    if s != [] {
      var n := |s| - 1;
      FeatureOrder(s[n], f, f);
      if FeatureLe(s[n], f) {
        forall i | 0 <= i < n ensures FeatureLe(s[i], f) {
          FeatureOrder(s[i], s[n], f);
        }
      } else {
        InsertFeatureSorted(f, s[..n]);
        InsertFeatureKeepsAll(f, s[..n]);
        var r := InsertFeature(f, s[..n]);
        forall i | 0 <= i < |r| ensures FeatureLe(r[i], s[n]) {
          assert r[i] in multiset(r);
          assert r[i] == f || r[i] in s[..n];
        }
      }
    }
  }

  /** The result is in ascending order of date and market. */
  lemma {:induction false} ResultIsSorted(features: seq<Feature>)
    ensures SortedFeatures(SortFeatures(features))
  {
    if features != [] {
      ResultIsSorted(features[..|features| - 1]);
      InsertFeatureSorted(features[|features| - 1], SortFeatures(features[..|features| - 1]));
    }
  }
}
