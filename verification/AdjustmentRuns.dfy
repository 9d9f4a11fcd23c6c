/**
 Ingesting a history again, as stored candles are ingested whenever their adjustments are reconciled: what the audit
 says about it, and what the candles still tell about the closes they started from.
 */
module AdjustmentRuns {
  import opened Common
  import opened CorporateActions
  import opened Products
  import opened PriceAdjustment
  import opened AdjustmentAudit
  import opened AdjustmentLaws
  import opened AdjustmentTheorems

  // ---------- a second pass with other actions ----------

  /** The factors two lists expect on a candle that both concern are the same, within the audit's tolerance. */
  ghost predicate SameExpectation(candles: seq<Candle>, known: seq<Action>, all: seq<Action>, i: nat)
    requires AllDivisible(candles) && i < |candles|
  {
    Prior(candles, known, i) != [] && Prior(candles, all, i) != [] ==>
      Distance(Expected(Prior(candles, known, i), candles), Expected(Prior(candles, all, i), candles)) <= TOLERANCE
  }

  /** After ingestion with a resolved list a candle carries the list's factor exactly when the list concerns it. */
  lemma {:induction false} CarriesKnown(candles: seq<Candle>, known: seq<Action>, i: nat)
    requires Inputs(candles, known) && NoneAdjusted(candles) && i < |candles|
    requires AllResolved(Required(candles, known), candles)
    ensures var c := Applied(candles, known)[i];
      && (c.status == Adjusted <==> Prior(candles, known, i) != [])
      && (c.status == Adjusted ==> c.factor == Expected(Prior(candles, known, i), candles))
  {
    NoneHeldExactly(candles, known);
    AppliedAt(candles, known, i);
  }

  /** The actions of any list are measured on the ingested candles as on the raw ones. */
  lemma {:induction false} MeasuredAsRaw(candles: seq<Candle>, known: seq<Action>, all: seq<Action>)
    requires Inputs(candles, known) && Inputs(candles, all) && NoneAdjusted(candles)
    ensures var once := Applied(candles, known);
      && Inputs(once, all)
      && Required(once, all) == Required(candles, all)
      && (AllResolved(Required(once, all), once) <==> AllResolved(Required(candles, all), candles))
  {
    var once := Applied(candles, known);
    AppliedKeepsDates(candles, known);
    SameDatesSameRange(candles, once);
    forall a | a in Required(candles, all)
      ensures RatioDivisible(a) && PriceFactor(a, once) == PriceFactor(a, candles)
    {
      RequiredMembers(candles, all, a);
      RecomputedFactorsAgree(candles, known, a);
    }
  }

  /** So a list expects of an ingested candle what it expects of the raw one. */
  lemma {:induction false} ExpectedAsRaw(candles: seq<Candle>, known: seq<Action>, all: seq<Action>, i: nat)
    requires Inputs(candles, known) && Inputs(candles, all) && NoneAdjusted(candles) && i < |candles|
    ensures var once := Applied(candles, known);
      Prior(once, all, i) == Prior(candles, all, i)
      && Expected(Prior(once, all, i), once) == Expected(Prior(candles, all, i), candles)
  {
    var once := Applied(candles, known);
    AppliedKeepsDates(candles, known);
    SameDatesSameRange(candles, once);
    forall a | a in Prior(candles, all, i)
      ensures RatioDivisible(a) && PriceFactor(a, once) == PriceFactor(a, candles)
    {
      PriorMembers(candles, all, i, a);
      RecomputedFactorsAgree(candles, known, a);
    }
    ExpectedDependsOnFactors(Prior(candles, all, i), once, candles);
  }

  lemma {:induction false} LaterRecord(candles: seq<Candle>, known: seq<Action>, all: seq<Action>, i: nat)
    requires Inputs(candles, known) && Inputs(candles, all) && NoneAdjusted(candles) && i < |candles|
    requires AllResolved(Required(candles, known), candles)
    ensures var once := Applied(candles, known);
      (once[i].status == Adjusted ==> Records(once, all, i)) <==> SameExpectation(candles, known, all, i)
  {
    ExpectedAsRaw(candles, known, all, i);
    CarriesKnown(candles, known, i);
  }

  /**
   A raw history ingested with a resolved list and then again with any other list passes the audit of the other list
   if and only if that list is resolved on the raw history and expects, on every candle both lists concern, the factor
   that is already written there: an adjusted candle is not adjusted again for an action that became known later.
   */
  lemma {:induction false} LaterListPasses(candles: seq<Candle>, known: seq<Action>, all: seq<Action>)
    requires Inputs(candles, known) && Inputs(candles, all) && NoneAdjusted(candles)
    requires AllResolved(Required(candles, known), candles)
    ensures Verdict(Applied(Applied(candles, known), all), all) == Pass <==>
              AllResolved(Required(candles, all), candles)
              && forall i :: 0 <= i < |candles| ==> SameExpectation(candles, known, all, i)
  {
    var once := Applied(candles, known);
    MeasuredAsRaw(candles, known, all);
    RoundTrip(once, all);
    forall i | 0 <= i < |candles|
      ensures (once[i].status == Adjusted ==> Records(once, all, i)) <==> SameExpectation(candles, known, all, i)
    {
      LaterRecord(candles, known, all, i);
    }
  }

  // ---------- any number of passes ----------

  /** One pass after another, each with the actions known at its time. */
  function Reingested(candles: seq<Candle>, lists: seq<seq<Action>>): (out: seq<Candle>)
    requires AllDivisible(candles) && forall k :: 0 <= k < |lists| ==> RatiosDivisible(lists[k])
    ensures |out| == |candles| && AllDivisible(out)
  {
    if lists == [] then candles
    else Applied(Reingested(candles, lists[..|lists| - 1]), lists[|lists| - 1])
  }

  ghost predicate RunInputs(candles: seq<Candle>, lists: seq<seq<Action>>) {
    && candles != [] && AllDivisible(candles)
    && forall k :: 0 <= k < |lists| ==> RatiosDivisible(lists[k]) && KeysIdentify(lists[k])
  }

  /** The recorded factors that the passes erased from candle `i`, one where a pass erased none. */
  ghost function LostFactors(candles: seq<Candle>, lists: seq<seq<Action>>, i: nat): (r: seq<real>)
    requires RunInputs(candles, lists) && i < |candles|
    ensures |r| == |lists|
  {
    if lists == [] then []
    else
      var n := |lists| - 1;
      var before := Reingested(candles, lists[..n]);
      LostFactors(candles, lists[..n], i) + [if LosesRecord(before, lists[n], i) then before[i].factor else 1.0]
  }

  /**
   After any sequence of passes a candle tells the close it started from times the product of the records the passes
   erased from it.  So it is honest about that close if and only if this product is one; in particular when no pass
   erased a record.
   */
  lemma {:induction false} RecordLedger(candles: seq<Candle>, lists: seq<seq<Action>>, i: nat)
    requires RunInputs(candles, lists) && i < |candles|
    ensures Reingested(candles, lists)[i].RecoveredClose()
            == Times(candles[i].RecoveredClose(), Product(LostFactors(candles, lists, i)))
    ensures Reingested(candles, lists)[i].RecoveredClose() == candles[i].RecoveredClose() <==>
              Product(LostFactors(candles, lists, i)) == 1.0
  {
    assert candles[i].Divisible();
    if lists == [] {
      TimesLaws(candles[i].RecoveredClose(), 1.0, 1.0);
    } else {
      var n := |lists| - 1;
      RecordLedger(candles, lists[..n], i);
      LedgerStep(Reingested(candles, lists[..n]), lists[n], i);
      var lost := LostFactors(candles, lists, i);
      ProductSnoc(lost[..n], lost[n]);
      assert lost == lost[..n] + [lost[n]];
      TimesLaws(candles[i].RecoveredClose(), Product(lost[..n]), lost[n]);
    }
    CloseIsNotZero(candles[i]);
    OnlyOneKeeps(candles[i].RecoveredClose(), Product(LostFactors(candles, lists, i)));
  }

  /**
   After any sequence of passes over a raw candle, an adjusted close is the raw close times the recorded factor if and
   only if the records that the passes erased multiply to one.  The audit looks at the recorded factor alone.
   */
  lemma {:induction false} AdjustedCloseIsRightExactly(candles: seq<Candle>, lists: seq<seq<Action>>, i: nat)
    requires RunInputs(candles, lists) && i < |candles| && candles[i].status != Adjusted
    requires Reingested(candles, lists)[i].status == Adjusted
    ensures var c := Reingested(candles, lists)[i];
      c.close == Times(candles[i].close, c.factor) <==> Product(LostFactors(candles, lists, i)) == 1.0
  {
    var c := Reingested(candles, lists)[i];
    assert c.Divisible();
    RecordLedger(candles, lists, i);
    CloseOfRecord(c.close, c.factor, candles[i].close);
  }

  lemma {:induction false} CloseOfRecord(close: real, factor: real, raw: real)
    requires factor != 0.0
    ensures close == Times(raw, factor) <==> Quotient(close, factor) == raw
  {
    var q := Quotient(close, factor);
    assert q * factor == close;
    if close == Times(raw, factor) {
      assert (q - raw) * factor == 0.0;
    }
  }

  lemma {:induction false} LedgerStep(candles: seq<Candle>, actions: seq<Action>, i: nat)
    requires Inputs(candles, actions) && i < |candles|
    ensures Applied(candles, actions)[i].RecoveredClose()
            == Times(candles[i].RecoveredClose(), if LosesRecord(candles, actions, i) then candles[i].factor else 1.0)
  {
    AppliedAt(candles, actions, i);
    OutcomeRecovers(candles, actions, i);
    TimesLaws(candles[i].RecoveredClose(), 1.0, 1.0);
  }

  lemma {:induction false} CloseIsNotZero(c: Candle)
    requires c.Divisible()
    ensures c.RecoveredClose() != 0.0
  {
    if c.status == Adjusted {
      LostFactor(c.close, c.factor);
    }
  }

  lemma {:induction false} OnlyOneKeeps(x: real, p: real)
    requires x != 0.0
    ensures Times(x, p) == x <==> p == 1.0
  {
    if Times(x, p) == x {
      assert x * (p - 1.0) == 0.0;
    }
  }

  // ---------- records lost to a dispute ----------

  /** Whatever either list concerns is held back by the second, as when one of its actions is disputed. */
  ghost predicate Forgets(candles: seq<Candle>, known: seq<Action>, disputed: seq<Action>)
    requires AllDivisible(candles) && RatiosDivisible(known)
  {
    forall i :: 0 <= i < |candles| && (Prior(candles, known, i) != [] || Prior(candles, disputed, i) != []) ==>
      Held(Applied(candles, known), disputed, i)
  }

  lemma {:induction false} ForgottenAt(candles: seq<Candle>, known: seq<Action>, disputed: seq<Action>, i: nat)
    requires Inputs(candles, known) && Inputs(candles, disputed) && NoneAdjusted(candles) && i < |candles|
    requires AllResolved(Required(candles, known), candles) && Forgets(candles, known, disputed)
    ensures var once := Applied(candles, known);
      var c := Applied(once, disputed)[i];
      c.status != Adjusted && c.close == once[i].close && c.date == candles[i].date
  {
    var once := Applied(candles, known);
    MeasuredAsRaw(candles, known, disputed);
    ExpectedAsRaw(candles, known, disputed, i);
    CarriesKnown(candles, known, i);
    AppliedKeepsDates(candles, known);
    AppliedAt(once, disputed, i);
  }

  /** The history after both lists looks raw, with the prices that the first list wrote. */
  lemma {:induction false} ForgottenLooksRaw(candles: seq<Candle>, known: seq<Action>, disputed: seq<Action>)
    requires Inputs(candles, known) && Inputs(candles, disputed) && NoneAdjusted(candles)
    requires AllResolved(Required(candles, known), candles) && Forgets(candles, known, disputed)
    ensures var once := Applied(candles, known);
      var lost := Applied(once, disputed);
      && NoneAdjusted(lost) && SameDates(candles, lost)
      && forall i :: 0 <= i < |candles| ==> lost[i].close == once[i].close
  {
    forall i | 0 <= i < |candles|
      ensures var once := Applied(candles, known);
        var c := Applied(once, disputed)[i];
        c.status != Adjusted && c.close == once[i].close && c.date == candles[i].date
    {
      ForgottenAt(candles, known, disputed, i);
    }
  }

  lemma {:induction false} CloseAfter(candles: seq<Candle>, actions: seq<Action>, i: nat)
    requires Inputs(candles, actions) && NoneAdjusted(candles) && i < |candles|
    requires AllResolved(Required(candles, actions), candles) && Prior(candles, actions, i) != []
    ensures Applied(candles, actions)[i].close == Times(candles[i].close, Expected(Prior(candles, actions, i), candles))
  {
    NoneHeldExactly(candles, actions);
    AppliedAt(candles, actions, i);
  }

  /**
   Three passes over a raw history: a resolved list, one that forgets it, and any third list.  The audit of the third
   list passes exactly when that list is resolved on the forgotten history, and then the closes that both lists
   concern are scaled by the factors of both, for the actions the lists share as well.
   */
  lemma {:induction false} ForgottenIsScaledTwice(candles: seq<Candle>, known: seq<Action>, disputed: seq<Action>,
                                                  settled: seq<Action>)
    requires Inputs(candles, known) && Inputs(candles, disputed) && Inputs(candles, settled) && NoneAdjusted(candles)
    requires AllResolved(Required(candles, known), candles) && Forgets(candles, known, disputed)
    ensures var lost := Applied(Applied(candles, known), disputed);
      var final := Applied(lost, settled);
      && (Verdict(final, settled) == Pass <==> AllResolved(Required(lost, settled), lost))
      && (Verdict(final, settled) == Pass ==>
            forall i :: 0 <= i < |candles| && Prior(candles, known, i) != [] && Prior(candles, settled, i) != [] ==>
              final[i].close == Times(Times(candles[i].close, Expected(Prior(candles, known, i), candles)),
                                      Expected(Prior(candles, settled, i), lost)))
  {
    var lost := Applied(Applied(candles, known), disputed);
    ForgottenLooksRaw(candles, known, disputed);
    SameDatesSameRange(candles, lost);
    RawRoundTrip(lost, settled);
    if Verdict(Applied(lost, settled), settled) == Pass {
      forall i | 0 <= i < |candles| && Prior(candles, known, i) != [] && Prior(candles, settled, i) != []
        ensures Applied(lost, settled)[i].close
                == Times(Times(candles[i].close, Expected(Prior(candles, known, i), candles)),
                         Expected(Prior(candles, settled, i), lost))
      {
        CloseAfter(candles, known, i);
        CloseAfter(lost, settled, i);
      }
    }
  }

  // ---------- such a run ----------

  const HALVING := Action(ActionKey("S", Split, 1), Reconciled, Some(0.5), Some(2.0), Some(1.0), None, None, None, None,
                          false, [1], 1)
  const DISPUTED := Action(ActionKey("S", Bonus, 1), Conflict, None, None, None, None, None, None, None, false, [2], 1)
  const WITHDRAWN := DISPUTED.(state := Cancelled)

  /** Two candles around the day of the actions. */
  predicate Around(candles: seq<Candle>) {
    |candles| == 2 && candles[0].date == 0 && candles[1].date == 2
  }

  lemma {:induction false} RelevantPair(a: Action, b: Action, date: int)
    requires Matters(a, date)
    ensures Relevant([a], date) == [a]
    ensures Relevant([a, b], date) == if Matters(b, date) then [a, b] else [a]
  {
    assert [a, b][..1] == [a] && [a][..0] == [];
  }

  /** Actions of day one concern the first candle and not the second. */
  lemma {:induction false} AfterDayOne(actions: seq<Action>)
    requires forall i :: 0 <= i < |actions| ==> actions[i].EffectiveDate() == 1
    ensures After(actions, 0) == actions && After(actions, 2) == []
  {
    if actions != [] {
      AfterDayOne(actions[..|actions| - 1]);
    }
  }

  /** Two actions of day one, the second one possibly without effect. */
  lemma {:induction false} PriorOfPair(candles: seq<Candle>, a: Action, b: Action)
    requires Around(candles) && a.EffectiveDate() == 1 && b.EffectiveDate() == 1 && Matters(a, 2)
    ensures Prior(candles, [a], 0) == [a] && Prior(candles, [a], 1) == []
    ensures Prior(candles, [a, b], 0) == (if Matters(b, 2) then [a, b] else [a]) && Prior(candles, [a, b], 1) == []
  {
    assert LastDate(candles) == 2;
    RelevantPair(a, b, 2);
    AfterDayOne([a]);
    AfterDayOne([a, b]);
  }

  lemma {:induction false} HalvingExpected(candles: seq<Candle>)
    requires AllDivisible(candles)
    ensures RatioDivisible(HALVING) && Resolved(HALVING, candles)
    ensures Expected([HALVING], candles) == 0.5
  {
    assert Each(PriceOf(candles), [HALVING]) == [] + [0.5];
    ProductSnoc([], 0.5);
    assert Times(1.0, 0.5) == 0.5;
  }

  lemma {:induction false} HalvingResolved(candles: seq<Candle>, actions: seq<Action>)
    requires Around(candles) && AllDivisible(candles)
    requires actions == [HALVING] || actions == [HALVING, WITHDRAWN]
    ensures Inputs(candles, actions) && AllResolved(Required(candles, actions), candles)
  {
    HalvingExpected(candles);
    forall a | a in Required(candles, actions) ensures a == HALVING {
      RequiredMembers(candles, actions, a);
    }
  }

  lemma {:induction false} DisputeHolds(candles: seq<Candle>)
    requires Around(candles) && AllDivisible(candles)
    ensures Held(candles, [HALVING, DISPUTED], 0) && Prior(candles, [HALVING, DISPUTED], 1) == []
  {
    PriorOfPair(candles, HALVING, DISPUTED);
    assert DISPUTED in [HALVING, DISPUTED];
  }

  lemma {:induction false} DisputeInputs(candles: seq<Candle>)
    requires Around(candles) && AllDivisible(candles)
    ensures Inputs(candles, [HALVING, DISPUTED])
  {
  }

  lemma {:induction false} DisputeForgets(candles: seq<Candle>)
    requires Around(candles) && AllDivisible(candles) && Inputs(candles, [HALVING])
    ensures Forgets(candles, [HALVING], [HALVING, DISPUTED])
  {
    AppliedKeepsDates(candles, [HALVING]);
    var once := Applied(candles, [HALVING]);
    DisputeHolds(candles);
    DisputeHolds(once);
    PriorOfPair(candles, HALVING, DISPUTED);
    forall i | 0 <= i < |candles| && i != 0
      ensures Prior(candles, [HALVING], i) == [] && Prior(candles, [HALVING, DISPUTED], i) == []
    {
      assert i == 1;
    }
  }

  /**
   A split is ingested, then ingested again while a bonus of the same day is disputed, and once more when the bonus
   has been withdrawn.  The close of a valid raw history is scaled by a half twice; with or without the detour the
   audit of the last list passes.
   */
  lemma {:induction false} DisputeAppliesASplitTwice(candles: seq<Candle>)
    requires Around(candles) && AllValid(candles) && NoneAdjusted(candles)
    ensures AllDivisible(candles)
    ensures var last := [HALVING, WITHDRAWN];
      var final := Reingested(candles, [[HALVING], [HALVING, DISPUTED], last]);
      && final[0].close == candles[0].close / 4.0 && Verdict(final, last) == Pass
      && Applied(candles, last)[0].close == candles[0].close / 2.0 && Verdict(Applied(candles, last), last) == Pass
  {
    var last := [HALVING, WITHDRAWN];
    assert forall i :: 0 <= i < |candles| ==> candles[i].Valid() && candles[i].Divisible();
    HalvingResolved(candles, [HALVING]);
    HalvingResolved(candles, last);
    DisputeInputs(candles);
    DisputeForgets(candles);
    var lost := Applied(Applied(candles, [HALVING]), [HALVING, DISPUTED]);
    ForgottenLooksRaw(candles, [HALVING], [HALVING, DISPUTED]);
    HalvingResolved(lost, last);
    ForgottenIsScaledTwice(candles, [HALVING], [HALVING, DISPUTED], last);
    RawRoundTrip(candles, last);
    PriorOfPair(candles, HALVING, WITHDRAWN);
    CloseAfter(candles, last, 0);
    HalvingExpected(candles);
    HalvingExpected(lost);
    ReingestedThrice(candles, [HALVING], [HALVING, DISPUTED], last);
  }

  lemma {:induction false} OneMorePass(candles: seq<Candle>, lists: seq<seq<Action>>, actions: seq<Action>)
    requires AllDivisible(candles) && RatiosDivisible(actions)
    requires forall k :: 0 <= k < |lists| ==> RatiosDivisible(lists[k])
    ensures forall k :: 0 <= k < |lists + [actions]| ==> RatiosDivisible((lists + [actions])[k])
    ensures Reingested(candles, lists + [actions]) == Applied(Reingested(candles, lists), actions)
  {
    assert (lists + [actions])[..|lists|] == lists;
  }

  lemma {:induction false} ReingestedThrice(candles: seq<Candle>, a: seq<Action>, b: seq<Action>, c: seq<Action>)
    requires AllDivisible(candles) && RatiosDivisible(a) && RatiosDivisible(b) && RatiosDivisible(c)
    ensures Reingested(candles, [a, b, c]) == Applied(Applied(Applied(candles, a), b), c)
  {
    OneMorePass(candles, [], a);
    OneMorePass(candles, [] + [a], b);
    OneMorePass(candles, [] + [a] + [b], c);
    assert [a, b, c] == [] + [a] + [b] + [c];
  }
}
