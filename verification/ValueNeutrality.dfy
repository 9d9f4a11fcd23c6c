/**
 What one action does to a raw history, stated on the candles alone: the close before a dividend falls by the cash, the
 close before a rights issue falls to the value of old and new shares together, splits and bonuses keep price times
 volume, and every earlier candle moves with the reference candle.
 */
module ValueNeutrality {
  import opened Common
  import opened CorporateActions
  import opened Products
  import opened PriceAdjustment
  import opened AdjustmentAudit
  import opened AdjustmentLaws

  // ---------- which actions concern a candle ----------

  /** The classes that rewrite prices. */
  predicate RewritesPrices(c: ActionClass) {
    c == Split || c == Bonus || c == Dividend || c == Rights || c == Merger || c == Demerger
  }

  /** In force by some candle, not cancelled, and of a class that rewrites prices. */
  ghost predicate InForce(candles: seq<Candle>, a: Action) {
    && (exists i :: 0 <= i < |candles| && a.key.effectiveDate <= candles[i].date)
    && a.state != Cancelled
    && RewritesPrices(a.key.actionClass)
  }

  lemma {:induction false} MattersExactly(candles: seq<Candle>, a: Action)
    requires candles != []
    ensures Matters(a, LastDate(candles)) <==> InForce(candles, a)
  {
    if Matters(a, LastDate(candles)) {
      var i :| 0 <= i < |candles| && candles[i].date == LastDate(candles);
      assert a.key.effectiveDate <= candles[i].date;
    }
  }

  /** A candle is adjusted for exactly the listed actions in force that take effect after its date. */
  lemma {:induction false} ConcernsExactly(candles: seq<Candle>, actions: seq<Action>, i: nat, a: Action)
    requires i < |candles|
    ensures a in Prior(candles, actions, i) <==>
              a in actions && InForce(candles, a) && candles[i].date < a.key.effectiveDate
  {
    PriorMembers(candles, actions, i, a);
    MattersExactly(candles, a);
  }

  /** In force, and effective after some candle. */
  ghost predicate Demanded(candles: seq<Candle>, a: Action) {
    InForce(candles, a) && exists i :: 0 <= i < |candles| && candles[i].date < a.key.effectiveDate
  }

  /** The audit requires exactly the listed actions in force that take effect after some candle. */
  lemma {:induction false} RequiredExactly(candles: seq<Candle>, actions: seq<Action>, a: Action)
    requires candles != []
    ensures a in Required(candles, actions) <==>
              a in actions && Demanded(candles, a)
  {
    RequiredMembers(candles, actions, a);
    DemandedExactly(candles, a);
  }

  /** The required actions stand in the order of the list, each as often as it is listed. */
  lemma {:induction false} RequiredInOrder(candles: seq<Candle>, actions: seq<Action>, a: Action)
    requires candles != []
    ensures Required(candles, []) == []
    ensures Required(candles, actions + [a]) == Required(candles, actions) + if Demanded(candles, a) then [a] else []
  {
    var last, first := LastDate(candles), FirstDate(candles);
    RelevantSnoc(actions, a, last);
    AfterSnoc(Relevant(actions, last), a, first);
    MattersExactly(candles, a);
    DemandedExactly(candles, a);
  }

  lemma {:induction false} RelevantSnoc(actions: seq<Action>, a: Action, date: int)
    ensures Relevant(actions + [a], date) == Relevant(actions, date) + if Matters(a, date) then [a] else []
  {
    assert (actions + [a])[..|actions|] == actions;
  }

  lemma {:induction false} AfterSnoc(actions: seq<Action>, a: Action, date: int)
    ensures After(actions + [a], date) == After(actions, date) + if date < a.key.effectiveDate then [a] else []
  {
    assert (actions + [a])[..|actions|] == actions;
  }

  lemma {:induction false} DemandedExactly(candles: seq<Candle>, a: Action)
    requires candles != []
    ensures Demanded(candles, a) <==> Matters(a, LastDate(candles)) && FirstDate(candles) < a.key.effectiveDate
  {
    MattersExactly(candles, a);
    var first :| 0 <= first < |candles| && candles[first].date == FirstDate(candles);
  }

  // ---------- one action ----------

  /** A raw history and one reconciled price-adjusting action, in force by its last candle. */
  ghost predicate OneAction(candles: seq<Candle>, a: Action) {
    && Inputs(candles, [a]) && NoneAdjusted(candles)
    && a.state == Reconciled && RewritesPrices(a.key.actionClass)
    && exists i :: 0 <= i < |candles| && a.key.effectiveDate <= candles[i].date
  }

  lemma {:induction false} PriorOfSingle(candles: seq<Candle>, a: Action, i: nat)
    requires OneAction(candles, a) && i < |candles|
    ensures Prior(candles, [a], i) == if candles[i].date < a.key.effectiveDate then [a] else []
  {
    var last := LastDate(candles);
    MattersExactly(candles, a);
    assert [a][..0] == [];
    assert Relevant([a], last) == [a];
    assert After([a], candles[i].date) == if candles[i].date < a.key.effectiveDate then [a] else [];
  }

  lemma {:induction false} ProductOfOne(x: real)
    ensures Product([x]) == x
  {
    ProductSnoc([], x);
    assert [] + [x] == [x];
    assert Times(1.0, x) == x;
  }

  lemma {:induction false} ExpectedOfSingle(candles: seq<Candle>, a: Action, f: real)
    requires AllDivisible(candles) && RatioDivisible(a) && PriceFactor(a, candles) == Some(f) && f != 0.0
    ensures Expected([a], candles) == f
    ensures ExpectedVolume([a], candles) == if a.key.actionClass == Split || a.key.actionClass == Bonus then f else 1.0
  {
    assert Each(PriceOf(candles), [a]) == [f];
    var v := if a.key.actionClass == Split || a.key.actionClass == Bonus then f else 1.0;
    assert Each(VolumeOf(PriceOf(candles)), [a]) == [v];
    ProductOfOne(f);
    ProductOfOne(v);
  }

  /** A candle scaled by a factor, the volume against it for a split or a bonus only. */
  ghost predicate ScaledBy(c: Candle, out: Candle, f: real, rescales: bool) {
    && out.date == c.date && out.status == Adjusted && out.factor == f
    && out.open == Times(c.open, f) && out.high == Times(c.high, f) && out.low == Times(c.low, f)
    && out.close == Times(c.close, f)
    && if rescales then Times(out.volume, f) == c.volume else out.volume == c.volume
  }

  lemma {:induction false} QuotientBack(x: real, f: real)
    requires f != 0.0
    ensures Times(Quotient(x, f), f) == x
    ensures f == 1.0 ==> Quotient(x, f) == x
  {
  }

  lemma {:induction false} ScaledNumbers(c: Candle, f: real, v: real, rescales: bool)
    requires f != 0.0 && v == if rescales then f else 1.0
    ensures ScaledBy(c, Scaled(c, f, v), f, rescales)
  {
    QuotientBack(c.volume, v);
  }

  lemma {:induction false} SingleOutcome(candles: seq<Candle>, a: Action, i: nat, f: real)
    requires OneAction(candles, a) && i < |candles| && candles[i].date < a.key.effectiveDate
    requires RatioDivisible(a) && PriceFactor(a, candles).Some?
    requires Expected([a], candles) == f
    ensures ExpectedVolume([a], candles) != 0.0
    ensures Applied(candles, [a])[i] == Scaled(candles[i], f, ExpectedVolume([a], candles))
  {
    PriorOfSingle(candles, a, i);
    AppliedAt(candles, [a], i);
  }

  /** With a factor, every candle before the effective date is scaled by it. */
  lemma {:induction false} EarlierIsScaled(candles: seq<Candle>, a: Action, i: nat, f: real)
    requires OneAction(candles, a) && i < |candles| && candles[i].date < a.key.effectiveDate
    requires RatioDivisible(a) && PriceFactor(a, candles) == Some(f) && f != 0.0
    ensures ScaledBy(candles[i], Applied(candles, [a])[i], f, a.key.actionClass == Split || a.key.actionClass == Bonus)
  {
    ExpectedOfSingle(candles, a, f);
    SingleOutcome(candles, a, i, f);
    var rescales := a.key.actionClass == Split || a.key.actionClass == Bonus;
    ScaledNumbers(candles[i], f, ExpectedVolume([a], candles), rescales);
  }

  /** Prices and volume of a candle are what they were, and so is its date. */
  predicate SameNumbers(c: Candle, out: Candle) {
    && out.date == c.date && out.open == c.open && out.high == c.high && out.low == c.low && out.close == c.close
    && out.volume == c.volume
  }

  /** Without a factor, every candle before the effective date is marked unadjusted and keeps its numbers. */
  lemma {:induction false} EarlierIsHeld(candles: seq<Candle>, a: Action, i: nat)
    requires OneAction(candles, a) && i < |candles| && candles[i].date < a.key.effectiveDate
    requires RatioDivisible(a) && PriceFactor(a, candles).None?
    ensures var out := Applied(candles, [a])[i];
      SameNumbers(candles[i], out) && out.status == Unadjusted && out.factor == 1.0
  {
    PriorOfSingle(candles, a, i);
    AppliedAt(candles, [a], i);
    assert a in [a];
  }

  /** From the effective date on nothing is needed, whatever the action. */
  lemma {:induction false} LaterNeedsNothing(candles: seq<Candle>, a: Action, i: nat)
    requires OneAction(candles, a) && i < |candles| && a.key.effectiveDate <= candles[i].date
    ensures var out := Applied(candles, [a])[i];
      SameNumbers(candles[i], out) && out.status == NotRequired && out.factor == candles[i].factor
  {
    PriorOfSingle(candles, a, i);
    AppliedAt(candles, [a], i);
    MattersExactly(candles, a);
    assert [a][..0] == [];
    assert Relevant([a], LastDate(candles)) == [a];
  }

  // ---------- the reference candle ----------

  /** The candle that a dividend or a rights issue is measured on: the first of the latest before the effective date. */
  ghost predicate ReferenceCandle(candles: seq<Candle>, a: Action, r: nat) {
    && r < |candles| && candles[r].date < a.key.effectiveDate
    && forall i :: 0 <= i < |candles| && candles[i].date < a.key.effectiveDate ==>
         candles[i].date <= candles[r].date && (i < r ==> candles[i].date < candles[r].date)
  }

  lemma {:induction false} ReferenceIs(candles: seq<Candle>, a: Action, r: nat)
    requires AllDivisible(candles) && NoneAdjusted(candles) && ReferenceCandle(candles, a, r)
    ensures candles[r].close != 0.0 && ReferenceClose(candles, a.EffectiveDate()) == Some(candles[r].close)
  {
    assert candles[r].Divisible() && candles[r].status != Adjusted;
  }

  lemma {:induction false} ShareOfReference(p: real, f: real, part: real)
    requires p != 0.0 && f == Quotient(part, p)
    ensures Times(p, f) == part
  {
  }

  lemma {:induction false} SameSign(x: real, p: real)
    requires 0.0 < p
    ensures 0.0 < x <==> 0.0 < x * p
  {
  }

  lemma {:induction false} DividendShare(p: real, cash: real)
    requires 0.0 < p
    ensures 0.0 < Quotient(p - cash, p) < 1.0 <==> 0.0 < cash < p
  {
    var q := Quotient(p - cash, p);
    assert q * p == p - cash && (1.0 - q) * p == cash;
    SameSign(q, p);
    SameSign(1.0 - q, p);
  }

  /**
   A dividend takes its cash off the close it is measured on, if the cash is positive and below that close; otherwise
   nothing before the effective date is rewritten.
   */
  lemma {:induction false} DividendTakesItsCash(candles: seq<Candle>, a: Action, r: nat, cash: real)
    requires OneAction(candles, a) && AllValid(candles) && ReferenceCandle(candles, a, r)
    requires a.key.actionClass == Dividend && a.adjustmentFactor.None? && a.cashAmount == Some(cash)
    ensures var p, out := candles[r].close, Applied(candles, [a])[r];
      if 0.0 < cash < p then out.close + cash == p && out.volume == candles[r].volume && out.status == Adjusted
      else SameNumbers(candles[r], out) && out.status == Unadjusted
  {
    ReferenceIs(candles, a, r);
    var p := candles[r].close;
    assert candles[r].Valid();
    assert RatioDivisible(a) by {
      assert a in [a];
    }
    DividendShare(p, cash);
    if 0.0 < cash < p {
      var f := Quotient(p - cash, p);
      EarlierIsScaled(candles, a, r, f);
      ShareOfReference(p, f, p - cash);
    } else {
      EarlierIsHeld(candles, a, r);
    }
  }

  /** The value of `held` old shares at `p` and `issued` new ones at the offer, spread over all of them. */
  lemma {:induction false} TheoreticalPrice(p: real, held: real, issued: real, offer: real, theoretical: real)
    requires held + issued != 0.0
    requires theoretical == Quotient(Times(p, held) + Times(offer, issued), held + issued)
    ensures Times(theoretical, held + issued) == Times(p, held) + Times(offer, issued)
  {
  }

  lemma {:induction false} RightsFactorIs(candles: seq<Candle>, a: Action, r: nat, issued: real, held: real,
                                          offer: real)
    requires OneAction(candles, a) && AllValid(candles) && ReferenceCandle(candles, a, r)
    requires a.key.actionClass == Rights && a.adjustmentFactor.None?
    requires a.ratioNumerator == Some(issued) && a.ratioDenominator == Some(held) && a.offerPrice == Some(offer)
    requires 0.0 < issued && 0.0 < held && 0.0 < offer
    ensures RatioDivisible(a)
    ensures var p := candles[r].close;
      var theoretical := Quotient(Times(p, held) + Times(offer, issued), held + issued);
      p != 0.0 && 0.0 < Quotient(theoretical, p) && PriceFactor(a, candles) == Some(Quotient(theoretical, p))
  {
    ReferenceIs(candles, a, r);
    var p := candles[r].close;
    assert candles[r].Valid();
    TimesSigns(p, held);
    TimesSigns(offer, issued);
    PositiveShare(Times(p, held) + Times(offer, issued), held + issued);
    PositiveShare(Quotient(Times(p, held) + Times(offer, issued), held + issued), p);
  }

  lemma {:induction false} PositiveShare(x: real, y: real)
    requires 0.0 < x && 0.0 < y
    ensures 0.0 < Quotient(x, y)
  {
    assert Quotient(x, y) * y == x;
  }

  /**
   A rights issue of `issued` new shares for `held` old ones is value neutral: on the close it is measured on, all
   shares at the new price are worth the old shares at the old price and the new ones at the offer.
   */
  lemma {:induction false} RightsAreValueNeutral(candles: seq<Candle>, a: Action, r: nat, issued: real, held: real,
                                                 offer: real)
    requires OneAction(candles, a) && AllValid(candles) && ReferenceCandle(candles, a, r)
    requires a.key.actionClass == Rights && a.adjustmentFactor.None?
    requires a.ratioNumerator == Some(issued) && a.ratioDenominator == Some(held) && a.offerPrice == Some(offer)
    requires 0.0 < issued && 0.0 < held && 0.0 < offer
    ensures var p, out := candles[r].close, Applied(candles, [a])[r];
      && Times(out.close, held + issued) == Times(p, held) + Times(offer, issued)
      && out.volume == candles[r].volume && out.status == Adjusted
  {
    var p := candles[r].close;
    var theoretical := Quotient(Times(p, held) + Times(offer, issued), held + issued);
    RightsFactorIs(candles, a, r, issued, held, offer);
    var f := Quotient(theoretical, p);
    EarlierIsScaled(candles, a, r, f);
    ShareOfReference(p, f, theoretical);
    TheoreticalPrice(p, held, issued, offer, theoretical);
  }

  /** All candles before the effective date move together: their closes keep their ratio to the reference close. */
  lemma {:induction false} EarlierMoveTogether(candles: seq<Candle>, a: Action, r: nat, i: nat)
    requires OneAction(candles, a) && r < |candles| && i < |candles|
    requires candles[r].date < a.key.effectiveDate && candles[i].date < a.key.effectiveDate
    ensures var out := Applied(candles, [a]);
      && Times(out[i].close, candles[r].close) == Times(candles[i].close, out[r].close)
      && out[i].status == out[r].status && out[i].factor == out[r].factor
  {
    PriorOfSingle(candles, a, r);
    PriorOfSingle(candles, a, i);
    AppliedAt(candles, [a], r);
    AppliedAt(candles, [a], i);
    CrossScaled(candles[i].close, candles[r].close, Expected([a], candles));
  }

  lemma {:induction false} CrossScaled(x: real, y: real, f: real)
    ensures Times(Times(x, f), y) == Times(x, Times(y, f))
  {
  }

  // ---------- stored factors ----------

  /**
   A stored factor scales every earlier close; a split or a bonus rescales the volume against it, so that close times
   volume is kept, and any other class leaves the volume alone.  A stored zero counts as one.
   */
  lemma {:induction false} StoredFactorScales(candles: seq<Candle>, a: Action, i: nat, stored: real)
    requires OneAction(candles, a) && i < |candles| && candles[i].date < a.key.effectiveDate
    requires a.adjustmentFactor == Some(stored)
    ensures var out := Applied(candles, [a])[i];
      var f := if stored == 0.0 then 1.0 else stored;
      && out.close == Times(candles[i].close, f) && out.factor == f && out.status == Adjusted
      && (a.key.actionClass == Split || a.key.actionClass == Bonus ==>
            Times(out.close, out.volume) == Times(candles[i].close, candles[i].volume))
      && (a.key.actionClass != Split && a.key.actionClass != Bonus ==> out.volume == candles[i].volume)
  {
    var f := if stored == 0.0 then 1.0 else stored;
    var rescales := a.key.actionClass == Split || a.key.actionClass == Bonus;
    assert RatioDivisible(a) by {
      assert a in [a];
    }
    StoredExpected(candles, a, stored);
    SingleOutcome(candles, a, i, f);
    ScaledNumbers(candles[i], f, ExpectedVolume([a], candles), rescales);
    KeptTurnover(candles[i].close, candles[i].volume, f);
  }

  lemma {:induction false} StoredExpected(candles: seq<Candle>, a: Action, stored: real)
    requires AllDivisible(candles) && RatioDivisible(a) && a.adjustmentFactor == Some(stored)
    ensures var f := if stored == 0.0 then 1.0 else stored;
      && Expected([a], candles) == f
      && ExpectedVolume([a], candles) == if a.key.actionClass == Split || a.key.actionClass == Bonus then f else 1.0
  {
    var f := if stored == 0.0 then 1.0 else stored;
    var v := if a.key.actionClass == Split || a.key.actionClass == Bonus then f else 1.0;
    assert Each(PriceOf(candles), [a]) == [f];
    assert Each(VolumeOf(PriceOf(candles)), [a]) == [v];
    ProductOfOne(f);
    ProductOfOne(v);
  }

  lemma {:induction false} KeptTurnover(close: real, volume: real, f: real)
    requires f != 0.0
    ensures Times(Times(close, f), Quotient(volume, f)) == Times(close, volume)
  {
    assert Quotient(volume, f) * f == volume;
    assert Times(Times(close, f), Quotient(volume, f)) == close * (Quotient(volume, f) * f);
  }

  // ---------- any list of actions ----------

  /** The factor that a candle gets when an action is the only one. */
  ghost function Alone(candles: seq<Candle>, i: nat): Action -> real
    requires i < |candles|
  {
    (a: Action) => if OneAction(candles, a) then Applied(candles, [a])[i].factor else 1.0
  }

  lemma {:induction false} AloneIsOwn(candles: seq<Candle>, actions: seq<Action>, i: nat, a: Action)
    requires Inputs(candles, actions) && NoneAdjusted(candles) && i < |candles|
    requires a in Prior(candles, actions, i) && RatioDivisible(a) && Resolved(a, candles)
    ensures OneAction(candles, a)
    ensures Alone(candles, i)(a) == PriceOf(candles)(a)
  {
    ConcernsExactly(candles, actions, i, a);
    var f := SafeFactor(a, candles);
    assert Each(PriceOf(candles), [a]) == [f];
    ProductOfOne(f);
    SingleOutcome(candles, a, i, f);
  }

  /**
   Actions compound: on a raw history a candle whose actions are all usable gets the product of the factors that
   each of them gives it alone.
   */
  lemma {:induction false} ActionsCompound(candles: seq<Candle>, actions: seq<Action>, i: nat)
    requires Inputs(candles, actions) && NoneAdjusted(candles) && i < |candles|
    requires Prior(candles, actions, i) != [] && AllResolved(Prior(candles, actions, i), candles)
    ensures var out := Applied(candles, actions)[i];
      var compound := Product(Each(Alone(candles, i), Prior(candles, actions, i)));
      out.factor == compound && out.close == Times(candles[i].close, compound)
  {
    var prior := Prior(candles, actions, i);
    forall k | 0 <= k < |prior| ensures Alone(candles, i)(prior[k]) == PriceOf(candles)(prior[k]) {
      AloneIsOwn(candles, actions, i, prior[k]);
    }
    assert Each(Alone(candles, i), prior) == Each(PriceOf(candles), prior);
    AppliedAt(candles, actions, i);
  }

  /** Whatever the list: which of the four records a candle ends with, and that only one of them rewrites prices. */
  lemma {:induction false} RecordsExactly(candles: seq<Candle>, actions: seq<Action>, i: nat)
    requires Inputs(candles, actions) && i < |candles|
    ensures var c, out := candles[i], Applied(candles, actions)[i];
      var concerned := exists a :: a in actions && InForce(candles, a) && c.date < a.key.effectiveDate;
      var blocked := exists a :: a in actions && InForce(candles, a) && c.date < a.key.effectiveDate
                                 && !(a.state == Reconciled && PriceFactor(a, candles).Some?);
      && (blocked ==> out == c.(status := Unadjusted, factor := 1.0))
      && (!blocked && c.status == Adjusted ==> out == c)
      && (!concerned && c.status != Adjusted ==>
            SameNumbers(c, out) && out.factor == c.factor
            && (out.status == NotRequired
                || (out.status == c.status && forall a :: a in actions ==> !InForce(candles, a))))
      && (concerned && !blocked && c.status != Adjusted ==> out.status == Adjusted)
  {
    var prior := Prior(candles, actions, i);
    PriorRatios(candles, actions, i);
    forall a ensures a in prior <==> a in actions && InForce(candles, a) && candles[i].date < a.key.effectiveDate {
      ConcernsExactly(candles, actions, i, a);
    }
    forall a ensures a in Relevant(actions, LastDate(candles)) <==> a in actions && InForce(candles, a) {
      RelevantMembers(actions, LastDate(candles), a);
      MattersExactly(candles, a);
    }
    AppliedAt(candles, actions, i);
    if prior != [] {
      assert prior[0] in prior;
    }
  }

  // ---------- the verdict of the audit ----------

  /**
   The verdict, exactly: no candles leave the data weak; otherwise the history is rejected if an action required of it
   is not reconciled or has no factor, or if a candle does not record the product expected of it within 0.000001.
   */
  lemma {:induction false} VerdictExactly(candles: seq<Candle>, actions: seq<Action>)
    requires AllDivisible(candles) && RatiosDivisible(actions) && KeysIdentify(actions)
    ensures Verdict(candles, actions) == WaitDataWeak <==> candles == []
    ensures candles != [] ==>
      (Verdict(candles, actions) == RejectDataIntegrity <==>
         || (exists a :: a in actions && Demanded(candles, a)
                         && !(a.state == Reconciled && PriceFactor(a, candles).Some?))
         || exists i :: 0 <= i < |candles| && Prior(candles, actions, i) != []
                        && (candles[i].status != Adjusted
                            || candles[i].factor - Expected(Prior(candles, actions, i), candles) > 0.000001
                            || Expected(Prior(candles, actions, i), candles) - candles[i].factor > 0.000001))
  {
    if candles != [] {
      AuditPassesExactly(candles, actions);
      forall a ensures a in Required(candles, actions) <==> a in actions && Demanded(candles, a) {
        RequiredExactly(candles, actions, a);
      }
      forall i | 0 <= i < |candles|
        ensures Records(candles, actions, i) <==>
                  !(Prior(candles, actions, i) != []
                    && (candles[i].status != Adjusted
                        || candles[i].factor - Expected(Prior(candles, actions, i), candles) > 0.000001
                        || Expected(Prior(candles, actions, i), candles) - candles[i].factor > 0.000001))
      {
      }
    }
  }

  /** The event ids of an assessment are those of its required actions, action by action and in their order. */
  lemma {:induction false} EventIdsAreListed(actions: seq<Action>, a: Action)
    ensures EventIds([]) == [] && EventIds(actions + [a]) == EventIds(actions) + a.sourceEventIds
  {
    assert (actions + [a])[..|actions|] == actions;
  }
}
