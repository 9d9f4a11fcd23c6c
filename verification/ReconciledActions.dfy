/** What a reconciled action guarantees to the price model, and the two engines put together. */
module ReconciledActions {
  import opened Common
  import opened Ordering
  import opened Products
  import opened CorporateActions
  import opened Reconciliation
  import opened PriceAdjustment
  import opened AdjustmentAudit
  import opened AdjustmentLaws
  import opened AdjustmentTheorems
  import opened AdjustmentShape

  // ---------- terms of decided actions ----------

  predicate PositiveIfPresent(x: Option<real>) { x.Some? ==> 0.0 < x.value }

  predicate PositiveTerms(a: Action) {
    && PositiveIfPresent(a.adjustmentFactor)
    && PositiveIfPresent(a.ratioNumerator)
    && PositiveIfPresent(a.ratioDenominator)
    && PositiveIfPresent(a.cashAmount)
    && PositiveIfPresent(a.offerPrice)
  }

  /** Which terms a reconciled action of each class is sure to carry. */
  predicate CompleteTerms(a: Action) {
    match a.key.actionClass
    case Split => a.adjustmentFactor.Some?
    case Bonus => a.adjustmentFactor.Some? && a.adjustmentFactor.value < 1.0
    case Merger => a.adjustmentFactor.Some?
    case Demerger => a.adjustmentFactor.Some?
    case Dividend => a.adjustmentFactor.None? && a.cashAmount.Some?
    case Rights => a.adjustmentFactor.None? && a.ratioNumerator.Some? && a.ratioDenominator.Some? && a.offerPrice.Some?
    case Other => a.adjustmentFactor.None?
  }

  lemma {:induction false} RatioFactorBounds(c: ActionClass, numerator: Option<real>, denominator: Option<real>)
    ensures PositiveIfPresent(RatioFactor(c, numerator, denominator))
    ensures c == Bonus && RatioFactor(c, numerator, denominator).Some? ==>
              RatioFactor(c, numerator, denominator).value < 1.0
  {
    if numerator.Some? && denominator.Some? && 0.0 < numerator.value && 0.0 < denominator.value {
      var top, bottom := numerator.value, denominator.value;
      assert 0.0 < bottom / top;
      assert 0.0 < bottom / (top + bottom) < 1.0 by {
        var q := bottom / (top + bottom);
        assert q * (top + bottom) == bottom;
      }
    }
  }

  predicate PositiveAgreed(actionClass: ActionClass, a: Agreed) {
    && (a.ratio.Some? ==> 0.0 < a.ratio.value.0 && 0.0 < a.ratio.value.1)
    && PositiveIfPresent(a.cash) && PositiveIfPresent(a.offer) && PositiveIfPresent(a.explicitFactor)
    && (forall f :: f in a.factors ==> 0.0 < f && (actionClass == Bonus ==> f < 1.0))
    && (!a.conflict ==> |a.factors| <= 1)
  }

  lemma {:induction false} AgreedTerms(actionClass: ActionClass, rows: set<Observation>)
    ensures PositiveAgreed(actionClass, Agree(actionClass, rows))
  {
    var a := Agree(actionClass, rows);
    forall f | f in a.factors ensures 0.0 < f && (actionClass == Bonus ==> f < 1.0) {
      var r :| r in rows && RatioFactor(actionClass, TermsOf(r).numerator, TermsOf(r).denominator) == Some(f);
      RatioFactorBounds(actionClass, TermsOf(r).numerator, TermsOf(r).denominator);
    }
    var terms := set r | r in rows :: TermsOf(r);
    if a.ratio.Some? { assert a.ratio.value in RatioTerms(terms); }
    if a.cash.Some? { assert a.cash.value in CashValues(terms); }
    if a.offer.Some? { assert a.offer.value in OfferValues(terms); }
    if a.explicitFactor.Some? { assert a.explicitFactor.value in ExplicitFactors(rows); }
  }

  lemma {:induction false} NonEmptyHasSize<T>(s: set<T>)
    ensures s != {} <==> |s| >= 1
  {
  }

  lemma {:induction false} StateAndFactorTerms(symbol: string, c: ActionClass, a: Agreed)
    requires PositiveAgreed(c, a)
    ensures var (state, factor) := StateAndFactor(symbol, c, a);
      && PositiveIfPresent(factor)
      && (state == Reconciled ==>
            && (c == Split || c == Bonus || c == Merger || c == Demerger <==> factor.Some?)
            && (c == Bonus ==> factor.value < 1.0)
            && (c == Dividend ==> a.cash.Some?)
            && (c == Rights ==> a.ratio.Some? && a.offer.Some?))
  {
    NonEmptyHasSize(a.factors);
    assert Sole(a.factors).Some? ==> Sole(a.factors).value in a.factors;
  }

  lemma {:induction false} SettledTerms(key: ActionKey, a: Agreed, ids: seq<int>, count: nat)
    requires PositiveAgreed(key.actionClass, a)
    ensures var r := Settle(key, a, ids, count);
      r.key == key && PositiveTerms(r) && (r.state == Reconciled ==> CompleteTerms(r))
  {
    StateAndFactorTerms(key.symbol, key.actionClass, a);
  }

  lemma {:induction false} DecidedTerms(key: ActionKey, rows: set<Observation>, ids: seq<int>, count: nat)
    ensures var r := Decide(key, rows, ids, count);
      r.key == key && PositiveTerms(r) && (r.state == Reconciled ==> CompleteTerms(r))
  {
    AgreedTerms(key.actionClass, rows);
    SettledTerms(key, Agree(key.actionClass, rows), ids, count);
  }

  // ---------- the whole list ----------

  lemma {:induction false} EntryOfKey(rows: seq<Observation>, asOf: int, i: nat)
    requires i < |SortDistinct(KeyLe, Keys(rows, asOf))|
    ensures var a := Reconcile(rows, asOf)[i];
      && a.key == SortDistinct(KeyLe, Keys(rows, asOf))[i]
      && PositiveTerms(a) && (a.state == Reconciled ==> CompleteTerms(a))
  {
    var keys := SortDistinct(KeyLe, Keys(rows, asOf));
    DecideEachAt(keys, rows, asOf, i);
    var selected := LatestBySource(Group(rows, asOf, keys[i]));
    DecidedTerms(keys[i], MembersOf(selected), IdsOf(selected), |selected|);
  }

  lemma {:induction false} ReconcileTerms(rows: seq<Observation>, asOf: int, a: Action)
    requires a in Reconcile(rows, asOf)
    ensures PositiveTerms(a) && (a.state == Reconciled ==> CompleteTerms(a))
  {
    var out := Reconcile(rows, asOf);
    var i :| 0 <= i < |out| && out[i] == a;
    EntryOfKey(rows, asOf, i);
  }

  lemma {:induction false} ReconcileKeysIdentify(rows: seq<Observation>, asOf: int)
    ensures KeysIdentify(Reconcile(rows, asOf))
  {
    var out, keys := Reconcile(rows, asOf), SortDistinct(KeyLe, Keys(rows, asOf));
    KeyLeIsTotal();
    SortDistinctIsSorted(KeyLe, Keys(rows, asOf));
    forall a, b | a in out && b in out && a.key == b.key ensures a == b {
      var i :| 0 <= i < |out| && out[i] == a;
      var j :| 0 <= j < |out| && out[j] == b;
      EntryOfKey(rows, asOf, i);
      EntryOfKey(rows, asOf, j);
      assert keys[i] == keys[j];
    }
  }

  lemma {:induction false} ReconcileKeys(rows: seq<Observation>, asOf: int)
    ensures forall a :: a in Reconcile(rows, asOf) ==> PositiveTerms(a) && (a.state == Reconciled ==> CompleteTerms(a))
    ensures KeysIdentify(Reconcile(rows, asOf))
    ensures RatiosDivisible(Reconcile(rows, asOf))
    ensures PositiveFactors(Reconcile(rows, asOf))
  {
    forall a | a in Reconcile(rows, asOf)
      ensures PositiveTerms(a) && (a.state == Reconciled ==> CompleteTerms(a))
    {
      ReconcileTerms(rows, asOf, a);
    }
    ReconcileKeysIdentify(rows, asOf);
  }

  /** The price a dividend is measured against; without one the action cannot be applied. */
  predicate CanBeMeasured(a: Action, candles: seq<Candle>)
    requires AllDivisible(candles)
  {
    || a.adjustmentFactor.Some?
    || (var reference := ReferenceClose(candles, a.EffectiveDate());
        reference.Some?
        && (a.key.actionClass == Dividend && a.cashAmount.Some? ==> a.cashAmount.value < reference.value))
  }

  lemma {:induction false} ReferenceIsPositive(candles: seq<Candle>, date: int)
    requires AllValid(candles)
    ensures AllDivisible(candles)
    ensures PositiveIfPresent(ReferenceClose(candles, date))
  {
    assert forall i :: 0 <= i < |candles| ==> candles[i].Valid() && candles[i].Divisible();
    var r := ReferenceIndex(candles, date);
    if r.Some? {
      assert candles[r.value].Valid();
    }
  }

  lemma {:induction false} PositiveQuotient(x: real, y: real)
    requires 0.0 < y
    ensures 0.0 < x / y <==> 0.0 < x
  {
    var q := x / y;
    assert q * y == x;
    if 0.0 < x { assert 0.0 < q; }
  }

  lemma {:induction false} SharesOfAWhole(p: real, q: real, x: real, y: real, z: real)
    requires 0.0 < z && p * z == x && q * z == y && x + y == z
    ensures p + q == 1.0
  {
    assert (p + q - 1.0) * z == 0.0;
  }

  lemma {:induction false} QuotientsAddUp(x: real, y: real, z: real)
    requires 0.0 < z && x + y == z
    ensures x / z + y / z == 1.0
  {
    var p, q := x / z, y / z;
    assert p * z == x;
    assert q * z == y;
    SharesOfAWhole(p, q, x, y, z);
  }

  lemma {:induction false} DividendFactor(reference: real, cash: real)
    requires 0.0 < reference && 0.0 < cash
    ensures 0.0 < Quotient(reference - cash, reference) < 1.0 <==> cash < reference
  {
    PositiveQuotient(reference - cash, reference);
    PositiveQuotient(cash, reference);
    QuotientsAddUp(reference - cash, cash, reference);
  }

  lemma {:induction false} RightsFactor(reference: real, numerator: real, denominator: real, offer: real)
    requires 0.0 < reference && 0.0 < numerator && 0.0 < denominator && 0.0 < offer
    ensures var total := Times(reference, denominator) + Times(offer, numerator);
      0.0 < Quotient(Quotient(total, denominator + numerator), reference)
  {
    var total := reference * denominator + offer * numerator;
    assert 0.0 < reference * denominator && 0.0 < offer * numerator;
    PositiveQuotient(total, denominator + numerator);
    PositiveQuotient(total / (denominator + numerator), reference);
  }

  /** The reference model on a positive reference: which terms give a factor, and in what range. */
  lemma {:induction false} ModelledFactor(a: Action, reference: real)
    requires PositiveTerms(a) && RatioDivisible(a) && 0.0 < reference
    ensures PositiveIfPresent(FactorFromReference(a, reference))
    ensures a.key.actionClass == Dividend && a.cashAmount.Some? ==>
              (FactorFromReference(a, reference).Some? <==> a.cashAmount.value < reference)
    ensures a.key.actionClass == Dividend && FactorFromReference(a, reference).Some? ==>
              FactorFromReference(a, reference).value < 1.0
    ensures a.key.actionClass == Rights && a.ratioNumerator.Some? && a.ratioDenominator.Some? && a.offerPrice.Some? ==>
              FactorFromReference(a, reference).Some?
  {
    if a.key.actionClass == Dividend && a.cashAmount.Some? {
      DividendFactor(reference, a.cashAmount.value);
    }
    if a.key.actionClass == Rights && a.ratioNumerator.Some? && a.ratioDenominator.Some? && a.offerPrice.Some? {
      RightsFactor(reference, a.ratioNumerator.value, a.ratioDenominator.value, a.offerPrice.value);
    }
  }

  /**
   Reconciled means usable: on candles with positive prices a reconciled price-adjusting action has a factor
   exactly when it carries one or a candle precedes it whose recovered close exceeds the dividend.  Every factor
   is positive; those of bonuses and dividends are also below one.
   */
  lemma {:induction false} ReconciledMeansUsable(rows: seq<Observation>, asOf: int, a: Action, candles: seq<Candle>)
    requires a in Reconcile(rows, asOf) && AllValid(candles)
    ensures AllDivisible(candles) && RatioDivisible(a)
    ensures a.state == Reconciled && a.AdjustsPrices() ==>
              (PriceFactor(a, candles).Some? <==> CanBeMeasured(a, candles))
    ensures PositiveIfPresent(PriceFactor(a, candles))
    ensures (a.key.actionClass == Bonus || a.key.actionClass == Dividend) && a.state == Reconciled ==>
              (PriceFactor(a, candles).Some? ==> PriceFactor(a, candles).value < 1.0)
  {
    ReconcileKeys(rows, asOf);
    ReferenceIsPositive(candles, a.EffectiveDate());
    var reference := ReferenceClose(candles, a.EffectiveDate());
    if reference.Some? {
      ModelledFactor(a, reference.value);
    }
  }

  lemma {:induction false} RequiredHasReference(candles: seq<Candle>, actions: seq<Action>, a: Action)
    requires candles != [] && AllDivisible(candles) && a in Required(candles, actions)
    ensures ReferenceClose(candles, a.EffectiveDate()).Some? && a.AdjustsPrices()
  {
    RequiredMembers(candles, actions, a);
    var first :| 0 <= first < |candles| && candles[first].date == FirstDate(candles);
    assert candles[first].date < a.EffectiveDate();
  }

  /** The cash of a dividend is below the close it is measured against. */
  predicate DividendBelowClose(a: Action, candles: seq<Candle>)
    requires AllDivisible(candles)
  {
    a.key.actionClass == Dividend ==>
      var reference := ReferenceClose(candles, a.EffectiveDate());
      a.cashAmount.Some? && reference.Some? && a.cashAmount.value < reference.value
  }

  /**
   The pipeline: reconcile, ingest, audit.  For any rows and any unadjusted history the rewritten candles are
   well formed, and the audit passes exactly when every action effective inside the history was reconciled and
   no cash dividend among them reaches the close it is measured against.
   */
  lemma {:induction false} PipelinePasses(rows: seq<Observation>, asOf: int, candles: seq<Candle>)
    requires candles != [] && AllValid(candles) && NoneAdjusted(candles)
    ensures Inputs(candles, Reconcile(rows, asOf))
    ensures AllValid(Applied(candles, Reconcile(rows, asOf)))
    ensures Verdict(Applied(candles, Reconcile(rows, asOf)), Reconcile(rows, asOf)) == Pass <==>
              forall a :: a in Required(candles, Reconcile(rows, asOf)) ==>
                a.state == Reconciled && DividendBelowClose(a, candles)
  {
    var actions := Reconcile(rows, asOf);
    ReconcileKeys(rows, asOf);
    ReferenceIsPositive(candles, 0);
    PositiveFactorsKeepGeometry(candles, actions);
    RawRoundTrip(candles, actions);
    forall a | a in Required(candles, actions)
      ensures RatioDivisible(a) && (Resolved(a, candles) <==> a.state == Reconciled && DividendBelowClose(a, candles))
    {
      RequiredHasReference(candles, actions, a);
      RequiredMembers(candles, actions, a);
      ReconciledMeansUsable(rows, asOf, a, candles);
    }
  }

  // ---------- ingesting twice ----------

  /** No candle records a price adjustment upwards, as a consolidation of shares would be. */
  ghost predicate NoRecordAboveOne(candles: seq<Candle>) {
    forall i :: 0 <= i < |candles| && candles[i].status == Adjusted ==> candles[i].factor <= 1.0
  }

  lemma {:induction false} QuotientGrows(x: real, y: real)
    requires 0.0 < x && 0.0 < y <= 1.0
    ensures x <= Quotient(x, y)
  {
    var q := Quotient(x, y);
    PositiveQuotient(x, y);
    assert q * y == x;
    assert 0.0 <= q * (1.0 - y);
  }

  /** Erasing the record of a candle does not raise the close it tells. */
  lemma {:induction false} ErasedCloseIsLower(c: Candle)
    requires c.Valid() && (c.status == Adjusted ==> c.factor <= 1.0)
    ensures 0.0 < c.(status := Unadjusted, factor := 1.0).RecoveredClose() <= c.RecoveredClose()
  {
    if c.status == Adjusted {
      QuotientGrows(c.close, c.factor);
    }
  }

  /** An action without a factor on a reference has none on a lower one. */
  lemma {:induction false} NoFactorBelow(a: Action, reference: real, lower: real)
    requires PositiveTerms(a) && RatioDivisible(a) && 0.0 < lower <= reference
    requires FactorFromReference(a, reference).None?
    ensures FactorFromReference(a, lower).None?
  {
    ModelledFactor(a, reference);
    ModelledFactor(a, lower);
  }

  /** What cannot be used with the records of the candles cannot be used without them. */
  lemma {:induction false} UnusableStaysSo(candles: seq<Candle>, actions: seq<Action>, a: Action)
    requires Inputs(candles, actions) && AllValid(candles) && NoRecordAboveOne(candles)
    requires PositiveTerms(a) && RatioDivisible(a) && PriceFactor(a, candles).None?
    ensures PriceFactor(a, Reset(candles, actions)).None?
  {
    var reset := Reset(candles, actions);
    SameDatesSameReference(candles, reset, a.EffectiveDate());
    var r := ReferenceIndex(candles, a.EffectiveDate());
    if r.Some? {
      assert candles[r.value].Valid();
      ErasedCloseIsLower(candles[r.value]);
      NoFactorBelow(a, candles[r.value].RecoveredClose(), reset[r.value].RecoveredClose());
    }
  }

  /**
   A plain condition for ingesting twice to change nothing: the candles are well formed, the terms of the actions
   are positive, and no candle came in with a recorded factor above one.
   */
  lemma {:induction false} IdempotentWithoutConsolidation(candles: seq<Candle>, actions: seq<Action>)
    requires Inputs(candles, actions) && AllValid(candles) && NoRecordAboveOne(candles)
    requires forall a :: a in actions ==> PositiveTerms(a)
    ensures Applied(Applied(candles, actions), actions) == Applied(candles, actions)
  {
    IdempotentExactly(candles, actions);
    forall i | 0 <= i < |candles| && Held(candles, actions, i)
      ensures !AllResolved(Prior(candles, actions, i), Reset(candles, actions))
    {
      HeldStaysSo(candles, actions, i);
    }
  }

  lemma {:induction false} HeldStaysSo(candles: seq<Candle>, actions: seq<Action>, i: nat)
    requires Inputs(candles, actions) && AllValid(candles) && NoRecordAboveOne(candles)
    requires forall a :: a in actions ==> PositiveTerms(a)
    requires i < |candles| && Held(candles, actions, i)
    ensures !AllResolved(Prior(candles, actions, i), Reset(candles, actions))
  {
    PriorRatios(candles, actions, i);
    var a :| a in Prior(candles, actions, i) && !(RatioDivisible(a) && Resolved(a, candles));
    PriorMembers(candles, actions, i, a);
    if a.state == Reconciled {
      UnusableStaysSo(candles, actions, a);
    }
  }
}
