/** How the rewritten prices, volumes and factors of different candles hang together. */
module AdjustmentShape {
  import opened Common
  import opened CorporateActions
  import opened Products
  import opened PriceAdjustment
  import opened AdjustmentLaws
  import opened AdjustmentTheorems

  // ---------- the factor chain ----------

  function UpTo(actions: seq<Action>, date: int): seq<Action> {
    if actions == [] then []
    else
      var n := |actions| - 1;
      var earlier := UpTo(actions[..n], date);
      if actions[n].EffectiveDate() <= date then earlier + [actions[n]] else earlier
  }

  /** The given numbers for the actions on one side of a date, one for the others. */
  ghost function Side(f: Action -> real, date: int, later: bool): (g: Action -> real)
    ensures forall a :: g(a) == if later == (date < a.EffectiveDate()) then f(a) else 1.0
  {
    (a: Action) => if later == (date < a.EffectiveDate()) then f(a) else 1.0
  }

  lemma {:induction false} EachSnoc(f: Action -> real, s: seq<Action>, a: Action)
    ensures Product(Each(f, s + [a])) == Times(Product(Each(f, s)), f(a))
  {
    assert Each(f, s + [a]) == Each(f, s) + [f(a)];
    ProductSnoc(Each(f, s), f(a));
  }

  lemma {:induction false} LaterSideIsAfter(f: Action -> real, s: seq<Action>, date: int)
    ensures Product(Each(Side(f, date, true), s)) == Product(Each(f, After(s, date)))
  {
    if s == [] {
      assert Each(Side(f, date, true), s) == Each(f, After(s, date));
    } else {
      var n := |s| - 1;
      assert s == s[..n] + [s[n]];
      LaterSideIsAfter(f, s[..n], date);
      EachSnoc(Side(f, date, true), s[..n], s[n]);
      TimesLaws(Product(Each(f, After(s[..n], date))), 1.0, 1.0);
      if date < s[n].EffectiveDate() {
        EachSnoc(f, After(s[..n], date), s[n]);
      }
    }
  }

  lemma {:induction false} EarlierSideIsUpTo(f: Action -> real, s: seq<Action>, date: int)
    ensures Product(Each(Side(f, date, false), s)) == Product(Each(f, UpTo(s, date)))
  {
    if s == [] {
      assert Each(Side(f, date, false), s) == Each(f, UpTo(s, date));
    } else {
      var n := |s| - 1;
      assert s == s[..n] + [s[n]];
      EarlierSideIsUpTo(f, s[..n], date);
      EachSnoc(Side(f, date, false), s[..n], s[n]);
      TimesLaws(Product(Each(f, UpTo(s[..n], date))), 1.0, 1.0);
      if s[n].EffectiveDate() <= date {
        EachSnoc(f, UpTo(s[..n], date), s[n]);
      }
    }
  }

  /** A product over the actions splits at any date. */
  lemma {:induction false} ProductSplits(f: Action -> real, s: seq<Action>, date: int)
    ensures Product(Each(f, s)) == Times(Product(Each(f, After(s, date))), Product(Each(f, UpTo(s, date))))
  {
    LaterSideIsAfter(f, s, date);
    EarlierSideIsUpTo(f, s, date);
    ProductDeals(Each(f, s), Each(Side(f, date, true), s), Each(Side(f, date, false), s));
  }

  /** The adjustment a written candle stands for: its factor when actions concern it, otherwise one. */
  ghost function Carried(candles: seq<Candle>, actions: seq<Action>, i: nat): real
    requires Inputs(candles, actions) && i < |candles|
  {
    if Prior(candles, actions, i) == [] then 1.0 else Applied(candles, actions)[i].factor
  }

  lemma {:induction false} CarriedIsExpected(candles: seq<Candle>, actions: seq<Action>, i: nat)
    requires Inputs(candles, actions) && i < |candles|
    requires candles[i].status != Adjusted && !Held(candles, actions, i)
    ensures Carried(candles, actions, i) == Expected(Prior(candles, actions, i), candles)
  {
    AppliedAt(candles, actions, i);
  }

  /** The actions that take effect after candle `i` and not after candle `j`. */
  function Between(candles: seq<Candle>, actions: seq<Action>, i: nat, j: nat): seq<Action>
    requires i < |candles| && j < |candles|
  {
    UpTo(Prior(candles, actions, i), candles[j].date)
  }

  /** The factor written on an earlier candle is the factor on a later one times the factors in between. */
  lemma {:induction false} FactorChain(candles: seq<Candle>, actions: seq<Action>, i: nat, j: nat)
    requires Inputs(candles, actions) && i < |candles| && j < |candles|
    requires candles[i].date <= candles[j].date
    requires candles[i].status != Adjusted && candles[j].status != Adjusted
    requires !Held(candles, actions, i)
    ensures Carried(candles, actions, i)
            == Times(Carried(candles, actions, j), Expected(Between(candles, actions, i, j), candles))
  {
    var relevant := Relevant(actions, LastDate(candles));
    AfterAfter(relevant, candles[i].date, candles[j].date);
    LaterHeldImpliesHeld(candles, actions, i, j);
    CarriedIsExpected(candles, actions, i);
    CarriedIsExpected(candles, actions, j);
    ProductSplits(PriceOf(candles), Prior(candles, actions, i), candles[j].date);
  }

  // ---------- turnover ----------

  /** One for splits and bonuses, the given number for the other actions. */
  ghost function OtherOf(f: Action -> real): (g: Action -> real)
    ensures forall a :: g(a) == if a.RescalesVolume() then 1.0 else f(a)
  {
    (a: Action) => if a.RescalesVolume() then 1.0 else f(a)
  }

  /** The product of the factors of the actions that are neither splits nor bonuses. */
  ghost function ExpectedOther(prior: seq<Action>, candles: seq<Candle>): (r: real)
    requires AllDivisible(candles)
    ensures (forall i :: 0 <= i < |prior| ==> prior[i].RescalesVolume()) ==> r == 1.0
  {
    if forall i :: 0 <= i < |prior| ==> prior[i].RescalesVolume() then
      ProductOfOnes(Each(OtherOf(PriceOf(candles)), prior));
      Product(Each(OtherOf(PriceOf(candles)), prior))
    else
      Product(Each(OtherOf(PriceOf(candles)), prior))
  }

  lemma {:induction false} PriceIsVolumeTimesOther(f: Action -> real, prior: seq<Action>)
    ensures Product(Each(f, prior)) == Times(Product(Each(VolumeOf(f), prior)), Product(Each(OtherOf(f), prior)))
  {
    ProductDeals(Each(f, prior), Each(VolumeOf(f), prior), Each(OtherOf(f), prior));
  }

  lemma {:induction false} TurnoverArithmetic(close: real, volume: real, v: real, other: real)
    requires v != 0.0
    ensures Times(Times(close, Times(v, other)), Quotient(volume, v)) == Times(Times(close, volume), other)
  {
    var q := Quotient(volume, v);
    assert Times(v, q) == volume;
    TimesLaws(close, Times(v, other), q);
    TimesLaws(v, other, q);
    TimesLaws(close, volume, other);
  }

  /**
   Splits and bonuses leave close times volume unchanged; the other actions scale it by exactly their factors.
   */
  lemma {:induction false} Turnover(candles: seq<Candle>, actions: seq<Action>, i: nat)
    requires Inputs(candles, actions) && i < |candles|
    requires candles[i].status != Adjusted && !Held(candles, actions, i)
    ensures var out := Applied(candles, actions)[i];
      Times(out.close, out.volume)
      == Times(Times(candles[i].close, candles[i].volume), ExpectedOther(Prior(candles, actions, i), candles))
  {
    var prior := Prior(candles, actions, i);
    AppliedAt(candles, actions, i);
    if prior == [] {
      TimesLaws(Times(candles[i].close, candles[i].volume), 1.0, 1.0);
    } else {
      PriceIsVolumeTimesOther(PriceOf(candles), prior);
      TurnoverArithmetic(candles[i].close, candles[i].volume, ExpectedVolume(prior, candles),
                         ExpectedOther(prior, candles));
    }
  }

  // ---------- price ratios ----------

  lemma {:induction false} ScaledRatio(price: real, close: real, factor: real)
    ensures Times(Times(price, factor), close) == Times(price, Times(close, factor))
  {
    TimesLaws(price, factor, close);
    TimesLaws(close, factor, 1.0);
  }

  /** Whatever the pass does to a candle, open, high and low keep their ratio to the close. */
  lemma {:induction false} PriceRatiosKept(candles: seq<Candle>, actions: seq<Action>, i: nat)
    requires Inputs(candles, actions) && i < |candles|
    ensures var c, out := candles[i], Applied(candles, actions)[i];
      && Times(out.open, c.close) == Times(c.open, out.close)
      && Times(out.high, c.close) == Times(c.high, out.close)
      && Times(out.low, c.close) == Times(c.low, out.close)
  {
    AppliedAt(candles, actions, i);
    var c := candles[i];
    var factor := Expected(Prior(candles, actions, i), candles);
    ScaledRatio(c.open, c.close, factor);
    ScaledRatio(c.high, c.close, factor);
    ScaledRatio(c.low, c.close, factor);
  }

  // ---------- locality ----------

  lemma {:induction false} AfterRelevantCommute(actions: seq<Action>, lastDate: int, date: int)
    ensures After(Relevant(actions, lastDate), date) == Relevant(After(actions, date), lastDate)
  {
    if actions != [] {
      var n := |actions| - 1;
      AfterRelevantCommute(actions[..n], lastDate, date);
    }
  }

  predicate SamePricesAndVolume(a: Candle, b: Candle) {
    && a.date == b.date && a.open == b.open && a.high == b.high && a.low == b.low && a.close == b.close
    && a.volume == b.volume && a.factor == b.factor
  }

  /** What is written for a candle depends on the actions after its date only. */
  lemma {:induction false} DependsOnLaterActions(candles: seq<Candle>, actions: seq<Action>, others: seq<Action>,
                                                 i: nat)
    requires Inputs(candles, actions) && Inputs(candles, others) && i < |candles|
    requires After(actions, candles[i].date) == After(others, candles[i].date)
    ensures SamePricesAndVolume(Applied(candles, actions)[i], Applied(candles, others)[i])
    ensures Prior(candles, actions, i) != [] ==> Applied(candles, actions)[i] == Applied(candles, others)[i]
  {
    AfterRelevantCommute(actions, LastDate(candles), candles[i].date);
    AfterRelevantCommute(others, LastDate(candles), candles[i].date);
    AppliedAt(candles, actions, i);
    AppliedAt(candles, others, i);
  }

  lemma {:induction false} AfterConcat(s: seq<Action>, t: seq<Action>, date: int)
    ensures After(s + t, date) == After(s, date) + After(t, date)
  {
    if t == [] {
      assert s + t == s;
    } else {
      var n := |t| - 1;
      assert (s + t)[..|s + t| - 1] == s + t[..n];
      AfterConcat(s, t[..n], date);
    }
  }

  /** Adding an action anywhere in the list changes no price, volume or factor from its effective date on. */
  lemma {:induction false} NewActionIsLocal(candles: seq<Candle>, before: seq<Action>, action: Action,
                                            rest: seq<Action>, i: nat)
    requires Inputs(candles, before + rest) && Inputs(candles, before + [action] + rest) && i < |candles|
    requires action.EffectiveDate() <= candles[i].date
    ensures SamePricesAndVolume(Applied(candles, before + [action] + rest)[i], Applied(candles, before + rest)[i])
  {
    var date := candles[i].date;
    AfterConcat(before, rest, date);
    AfterConcat(before + [action], rest, date);
    AfterConcat(before, [action], date);
    assert [action][..0] == [];
    assert After([action], date) == [];
    DependsOnLaterActions(candles, before + [action] + rest, before + rest, i);
  }

  // ---------- geometry ----------

  /** The factors the actions carry are positive. */
  ghost predicate PositiveFactors(actions: seq<Action>) {
    forall a :: a in actions && a.adjustmentFactor.Some? ==> 0.0 < a.adjustmentFactor.value
  }

  lemma {:induction false} ExpectedPositive(prior: seq<Action>, candles: seq<Candle>)
    requires AllDivisible(candles) && PositiveFactors(prior)
    ensures 0.0 < Expected(prior, candles)
    ensures 0.0 < ExpectedVolume(prior, candles)
  {
    assert forall i :: 0 <= i < |prior| ==> prior[i] in prior;
    ProductPositive(Each(PriceOf(candles), prior));
    ProductPositive(Each(VolumeOf(PriceOf(candles)), prior));
  }

  /** Scaling keeps a candle well formed exactly when prices stay positive and the volume does not turn negative. */
  lemma {:induction false} ScaledIsValid(c: Candle, factor: real, volumeFactor: real)
    requires c.Valid() && volumeFactor != 0.0
    ensures Scaled(c, factor, volumeFactor).Valid() <==> 0.0 < factor && (c.volume == 0.0 || 0.0 < volumeFactor)
  {
    if 0.0 < factor {
      TimesSigns(c.low, factor);
      TimesOrder(c.low, c.open, factor);
      TimesOrder(c.open, c.high, factor);
      TimesOrder(c.low, c.close, factor);
      TimesOrder(c.close, c.high, factor);
    }
    QuotientSign(c.volume, volumeFactor);
  }

  lemma {:induction false} QuotientSign(x: real, y: real)
    requires 0.0 <= x && y != 0.0
    ensures 0.0 <= Quotient(x, y) <==> x == 0.0 || 0.0 < y
  {
    var q := Quotient(x, y);
    assert q * y == x;
  }

  /** The pass writes new prices for candle `i`. */
  ghost predicate Rescaled(candles: seq<Candle>, actions: seq<Action>, i: nat)
    requires i < |candles| && AllDivisible(candles)
  {
    candles[i].status != Adjusted && !Held(candles, actions, i) && Prior(candles, actions, i) != []
  }

  /** The factors written for candle `i` keep its prices positive and turn no volume negative. */
  ghost predicate PositiveProducts(candles: seq<Candle>, actions: seq<Action>, i: nat)
    requires i < |candles| && AllDivisible(candles)
  {
    var prior := Prior(candles, actions, i);
    0.0 < Expected(prior, candles) && (candles[i].volume == 0.0 || 0.0 < ExpectedVolume(prior, candles))
  }

  lemma {:induction false} OutcomeIsValid(candles: seq<Candle>, actions: seq<Action>, i: nat)
    requires Inputs(candles, actions) && AllValid(candles) && i < |candles|
    ensures Outcome(candles, actions, i).Valid() <==>
              (Rescaled(candles, actions, i) ==> PositiveProducts(candles, actions, i))
  {
    assert candles[i].Valid();
    var prior := Prior(candles, actions, i);
    ScaledIsValid(candles[i], Expected(prior, candles), ExpectedVolume(prior, candles));
  }

  /**
   The pass keeps length, order and dates of any history.  Well-formed candles stay well formed exactly when the
   factors multiply to positive numbers on every candle that is rewritten.
   */
  lemma {:induction false} GeometryKept(candles: seq<Candle>, actions: seq<Action>)
    requires Inputs(candles, actions) && AllValid(candles)
    ensures SameDates(candles, Applied(candles, actions))
    ensures AllValid(Applied(candles, actions)) <==>
              forall i :: 0 <= i < |candles| && Rescaled(candles, actions, i) ==> PositiveProducts(candles, actions, i)
  {
    AppliedKeepsDates(candles, actions);
    var out := Applied(candles, actions);
    forall i | 0 <= i < |candles|
      ensures out[i].Valid() <==> (Rescaled(candles, actions, i) ==> PositiveProducts(candles, actions, i))
    {
      AppliedAt(candles, actions, i);
      OutcomeIsValid(candles, actions, i);
    }
  }

  /** Positive stored factors are enough; computed ones always are positive. */
  lemma {:induction false} PositiveFactorsKeepGeometry(candles: seq<Candle>, actions: seq<Action>)
    requires Inputs(candles, actions) && AllValid(candles) && PositiveFactors(actions)
    ensures AllValid(Applied(candles, actions))
  {
    GeometryKept(candles, actions);
    forall i | 0 <= i < |candles| ensures PositiveProducts(candles, actions, i) {
      forall a | a in Prior(candles, actions, i) ensures a in actions {
        PriorMembers(candles, actions, i, a);
      }
      ExpectedPositive(Prior(candles, actions, i), candles);
    }
  }

  // ---------- a factor that breaks the geometry ----------

  const NEGATIVE_MERGER := Action(ActionKey("S", Merger, 1), Reconciled, Some(-1.0), None, None, None, None, None, None,
                                  true, [1], 1)

  lemma {:induction false} NegativeExpected(candles: seq<Candle>)
    requires AllDivisible(candles)
    ensures RatioDivisible(NEGATIVE_MERGER) && Resolved(NEGATIVE_MERGER, candles)
    ensures Expected([NEGATIVE_MERGER], candles) == -1.0
  {
    assert Each(PriceOf(candles), [NEGATIVE_MERGER]) == [] + [-1.0];
    ProductSnoc([], -1.0);
    assert Times(1.0, -1.0) == -1.0;
  }

  /** A reconciled merger with a negative stored factor turns the prices of any valid raw candle before it negative. */
  lemma {:induction false} NegativeFactorBreaksGeometry(candles: seq<Candle>)
    requires |candles| == 2 && candles[0].date == 0 && candles[1].date == 2
    requires AllValid(candles) && NoneAdjusted(candles)
    ensures Inputs(candles, [NEGATIVE_MERGER])
    ensures !AllValid(Applied(candles, [NEGATIVE_MERGER]))
  {
    assert forall i :: 0 <= i < |candles| ==> candles[i].Valid() && candles[i].Divisible();
    SingleActionPrior(candles, NEGATIVE_MERGER);
    NegativeExpected(candles);
    assert Rescaled(candles, [NEGATIVE_MERGER], 0) && !PositiveProducts(candles, [NEGATIVE_MERGER], 0);
    GeometryKept(candles, [NEGATIVE_MERGER]);
  }
}
