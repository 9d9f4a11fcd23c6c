/** The main results about price adjustment: ingest-then-audit round trip and idempotence. */
module AdjustmentTheorems {
  import opened Common
  import opened CorporateActions
  import opened PriceAdjustment
  import opened AdjustmentAudit
  import opened AdjustmentLaws

  // ---------- ingest, then audit ----------

  lemma {:induction false} ExpectedDependsOnFactors(prior: seq<Action>, s: seq<Candle>, t: seq<Candle>)
    requires AllDivisible(s) && AllDivisible(t)
    requires forall a :: a in prior ==> RatioDivisible(a) && PriceFactor(a, s) == PriceFactor(a, t)
    ensures Expected(prior, s) == Expected(prior, t)
  {
    assert forall i :: 0 <= i < |prior| ==> prior[i] in prior;
    assert Each(PriceOf(s), prior) == Each(PriceOf(t), prior);
  }

  /** The rewritten history has the same dates, so the same actions concern the same candles. */
  lemma {:induction false} SameConcerns(candles: seq<Candle>, actions: seq<Action>)
    requires Inputs(candles, actions)
    ensures var out := Applied(candles, actions);
      && Inputs(out, actions)
      && Required(out, actions) == Required(candles, actions)
      && Relevant(actions, LastDate(out)) == Relevant(actions, LastDate(candles))
      && forall i :: 0 <= i < |candles| ==> Prior(out, actions, i) == Prior(candles, actions, i)
  {
    AppliedKeepsDates(candles, actions);
    SameDatesSameRange(candles, Applied(candles, actions));
  }

  lemma {:induction false} NoneHeldKeepsFactors(candles: seq<Candle>, actions: seq<Action>)
    requires Inputs(candles, actions)
    requires forall i :: 0 <= i < |candles| ==> !Held(candles, actions, i)
    ensures forall a :: a in actions ==>
              RatioDivisible(a) && PriceFactor(a, Applied(candles, actions)) == PriceFactor(a, candles)
  {
    AppliedKeepsDates(candles, actions);
    forall a | a in actions
      ensures RatioDivisible(a) && PriceFactor(a, Applied(candles, actions)) == PriceFactor(a, candles)
    {
      FactorKept(candles, actions, a);
    }
  }

  /** When nothing is held back, the pass leaves on candle `i` the record the audit will look for. */
  lemma {:induction false} RecordsAfterApplying(candles: seq<Candle>, actions: seq<Action>, i: nat)
    requires Inputs(candles, actions) && i < |candles|
    requires forall k :: 0 <= k < |candles| ==> !Held(candles, actions, k)
    ensures Records(Applied(candles, actions), actions, i) <==>
              (candles[i].status == Adjusted ==> Records(candles, actions, i))
  {
    var out := Applied(candles, actions);
    NoneHeldKeepsFactors(candles, actions);
    SameConcerns(candles, actions);
    AppliedAt(candles, actions, i);
    var prior := Prior(candles, actions, i);
    forall a | a in prior ensures a in actions {
      PriorMembers(candles, actions, i, a);
    }
    ExpectedDependsOnFactors(prior, out, candles);
  }

  /** A candle that was held back carries an unadjusted record, which the audit refuses. */
  lemma {:induction false} HeldFailsTheAudit(candles: seq<Candle>, actions: seq<Action>, i: nat)
    requires Inputs(candles, actions) && i < |candles|
    requires Held(candles, actions, i)
    ensures !Records(Applied(candles, actions), actions, i)
  {
    SameConcerns(candles, actions);
    AppliedAt(candles, actions, i);
    assert Prior(candles, actions, i) != [];
  }

  lemma {:induction false} ResolvedAfterApplying(candles: seq<Candle>, actions: seq<Action>)
    requires Inputs(candles, actions)
    requires forall i :: 0 <= i < |candles| ==> !Held(candles, actions, i)
    ensures AllResolved(Required(candles, actions), Applied(candles, actions))
  {
    NoneHeldKeepsFactors(candles, actions);
    NoneHeldExactly(candles, actions);
    var out := Applied(candles, actions);
    forall a | a in Required(candles, actions) ensures RatioDivisible(a) && Resolved(a, out) {
      RequiredMembers(candles, actions, a);
      assert Resolved(a, candles);
    }
  }

  lemma {:induction false} RoundTripWhenNoneHeld(candles: seq<Candle>, actions: seq<Action>)
    requires Inputs(candles, actions)
    requires forall i :: 0 <= i < |candles| ==> !Held(candles, actions, i)
    ensures Verdict(Applied(candles, actions), actions) == Pass <==>
              forall i :: 0 <= i < |candles| && candles[i].status == Adjusted ==> Records(candles, actions, i)
  {
    var out := Applied(candles, actions);
    SameConcerns(candles, actions);
    AuditPassesExactly(out, actions);
    ResolvedAfterApplying(candles, actions);
    forall i | 0 <= i < |candles|
      ensures Records(out, actions, i) <==> (candles[i].status == Adjusted ==> Records(candles, actions, i))
    {
      RecordsAfterApplying(candles, actions, i);
    }
  }

  /**
   The round trip, for any history: the audit of an ingested history passes exactly when every required
   action was reconciled and had a factor on the raw candles, and every candle that came in already
   adjusted carried the expected factor.
   */
  lemma {:induction false} RoundTrip(candles: seq<Candle>, actions: seq<Action>)
    requires Inputs(candles, actions)
    ensures Verdict(Applied(candles, actions), actions) == Pass <==>
              AllResolved(Required(candles, actions), candles)
              && forall i :: 0 <= i < |candles| && candles[i].status == Adjusted ==> Records(candles, actions, i)
  {
    NoneHeldExactly(candles, actions);
    if i :| 0 <= i < |candles| && Held(candles, actions, i) {
      HeldFailsTheAudit(candles, actions, i);
      SameConcerns(candles, actions);
      AuditPassesExactly(Applied(candles, actions), actions);
    } else {
      RoundTripWhenNoneHeld(candles, actions);
    }
  }

  /** On a history that came in unadjusted, the audit passes exactly when every required action was usable. */
  lemma {:induction false} RawRoundTrip(candles: seq<Candle>, actions: seq<Action>)
    requires Inputs(candles, actions) && NoneAdjusted(candles)
    ensures Verdict(Applied(candles, actions), actions) == Pass <==> AllResolved(Required(candles, actions), candles)
  {
    RoundTrip(candles, actions);
  }

  /** The audit is not fooled by a history nobody adjusted: it passes only if nothing was required. */
  lemma {:induction false} UnadjustedHistoryIsRejected(candles: seq<Candle>, actions: seq<Action>)
    requires Inputs(candles, actions) && NoneAdjusted(candles)
    ensures Verdict(candles, actions) == Pass <==> Required(candles, actions) == []
  {
    AuditPassesExactly(candles, actions);
    var first :| 0 <= first < |candles| && candles[first].date == FirstDate(candles);
    assert Required(candles, actions) == Prior(candles, actions, first);
    if Required(candles, actions) == [] {
      forall i | 0 <= i < |candles| ensures Prior(candles, actions, i) == [] {
        AfterAfter(Relevant(actions, LastDate(candles)), FirstDate(candles), candles[i].date);
      }
    } else {
      assert !Records(candles, actions, first);
    }
  }

  // ---------- applying twice ----------

  /** The candles with the adjustment record of the held-back ones erased, prices untouched. */
  ghost function Reset(candles: seq<Candle>, actions: seq<Action>): (r: seq<Candle>)
    requires AllDivisible(candles)
    ensures |r| == |candles| && AllDivisible(r) && SameDates(candles, r)
  {
    var r := seq(|candles|, i requires 0 <= i < |candles| =>
      if Held(candles, actions, i) then candles[i].(status := Unadjusted, factor := 1.0) else candles[i]);
    assert forall i :: 0 <= i < |candles| ==> candles[i].Divisible();
    r
  }

  lemma {:induction false} SecondPassFactors(candles: seq<Candle>, actions: seq<Action>, a: Action)
    requires Inputs(candles, actions) && RatioDivisible(a)
    ensures PriceFactor(a, Applied(candles, actions)) == PriceFactor(a, Reset(candles, actions))
  {
    var out, reset := Applied(candles, actions), Reset(candles, actions);
    AppliedKeepsDates(candles, actions);
    SameDatesSameReference(candles, out, a.EffectiveDate());
    SameDatesSameReference(candles, reset, a.EffectiveDate());
    var r := ReferenceIndex(candles, a.EffectiveDate());
    if r.Some? {
      AppliedAt(candles, actions, r.value);
      OutcomeRecovers(candles, actions, r.value);
      assert candles[r.value].Divisible();
    }
  }

  lemma {:induction false} SecondPassHolds(candles: seq<Candle>, actions: seq<Action>, i: nat)
    requires Inputs(candles, actions) && i < |candles|
    ensures Held(Applied(candles, actions), actions, i) <==>
              !AllResolved(Prior(candles, actions, i), Reset(candles, actions))
  {
    SameConcerns(candles, actions);
    PriorRatios(candles, actions, i);
    forall a | a in Prior(candles, actions, i)
      ensures PriceFactor(a, Applied(candles, actions)) == PriceFactor(a, Reset(candles, actions))
    {
      SecondPassFactors(candles, actions, a);
    }
  }

  /** A candle rewritten by the first pass is never held back by the second. */
  lemma {:induction false} NotHeldStaysSo(candles: seq<Candle>, actions: seq<Action>, i: nat)
    requires Inputs(candles, actions) && i < |candles|
    requires !Held(candles, actions, i)
    ensures AllResolved(Prior(candles, actions, i), Reset(candles, actions))
  {
    var prior := Prior(candles, actions, i);
    var reset := Reset(candles, actions);
    forall a | a in prior ensures RatioDivisible(a) && Resolved(a, reset) {
      assert Resolved(a, candles);
      SameDatesSameReference(candles, reset, a.EffectiveDate());
      PriorMembers(candles, actions, i, a);
      var r := ReferenceIndex(candles, a.EffectiveDate());
      if r.Some? {
        LaterHeldImpliesHeld(candles, actions, i, r.value);
      }
    }
  }

  lemma {:induction false} LaterHeldImpliesHeld(candles: seq<Candle>, actions: seq<Action>, i: nat, j: nat)
    requires Inputs(candles, actions) && i < |candles| && j < |candles|
    requires candles[i].date <= candles[j].date && !Held(candles, actions, i)
    ensures !Held(candles, actions, j)
  {
    forall a | a in Prior(candles, actions, j) ensures a in Prior(candles, actions, i) {
      PriorMembers(candles, actions, i, a);
      PriorMembers(candles, actions, j, a);
    }
  }

  /** When the pass leaves a candle as it is. */
  ghost predicate Settled(c: Candle, held: bool, prior: seq<Action>, relevant: seq<Action>) {
    if held then c.status == Unadjusted && c.factor == 1.0
    else if prior == [] then c.status == Adjusted || c.status == NotRequired || relevant == []
    else c.status == Adjusted
  }

  lemma {:induction false} SettledIsFixed(candles: seq<Candle>, actions: seq<Action>, i: nat)
    requires Inputs(candles, actions) && i < |candles|
    ensures Applied(candles, actions)[i] == candles[i] <==>
              Settled(candles[i], Held(candles, actions, i), Prior(candles, actions, i),
                      Relevant(actions, LastDate(candles)))
  {
    AppliedAt(candles, actions, i);
  }

  /** What the first pass wrote is settled with respect to the first pass. */
  lemma {:induction false} OutcomeIsSettled(candles: seq<Candle>, actions: seq<Action>, i: nat)
    requires Inputs(candles, actions) && i < |candles|
    ensures Settled(Applied(candles, actions)[i], Held(candles, actions, i), Prior(candles, actions, i),
                    Relevant(actions, LastDate(candles)))
    ensures Held(candles, actions, i) ==> Prior(candles, actions, i) != []
  {
    AppliedAt(candles, actions, i);
  }

  lemma {:induction false} SecondPassAt(candles: seq<Candle>, actions: seq<Action>, i: nat)
    requires Inputs(candles, actions) && i < |candles|
    ensures Applied(Applied(candles, actions), actions)[i] == Applied(candles, actions)[i] <==>
              (Held(candles, actions, i) ==> !AllResolved(Prior(candles, actions, i), Reset(candles, actions)))
  {
    SameConcerns(candles, actions);
    SecondPassHolds(candles, actions, i);
    OutcomeIsSettled(candles, actions, i);
    SettledIsFixed(Applied(candles, actions), actions, i);
    if !Held(candles, actions, i) {
      NotHeldStaysSo(candles, actions, i);
    }
  }

  /**
   Applying the same actions twice changes nothing exactly when every candle the first pass holds back still
   meets an unusable action once its own adjustment record is erased.
   */
  lemma {:induction false} IdempotentExactly(candles: seq<Candle>, actions: seq<Action>)
    requires Inputs(candles, actions)
    ensures Applied(Applied(candles, actions), actions) == Applied(candles, actions) <==>
              forall i :: 0 <= i < |candles| && Held(candles, actions, i) ==>
                !AllResolved(Prior(candles, actions, i), Reset(candles, actions))
  {
    var once := Applied(candles, actions);
    var twice := Applied(once, actions);
    forall i | 0 <= i < |candles|
      ensures twice[i] == once[i] <==>
              (Held(candles, actions, i) ==> !AllResolved(Prior(candles, actions, i), Reset(candles, actions)))
    {
      SecondPassAt(candles, actions, i);
    }
  }

  lemma {:induction false} ResetKeepsFactors(candles: seq<Candle>, actions: seq<Action>, a: Action)
    requires Inputs(candles, actions) && NoneAdjusted(candles) && RatioDivisible(a)
    ensures PriceFactor(a, Reset(candles, actions)) == PriceFactor(a, candles)
  {
    SameDatesSameReference(candles, Reset(candles, actions), a.EffectiveDate());
  }

  lemma {:induction false} RawStaysHeld(candles: seq<Candle>, actions: seq<Action>, i: nat)
    requires Inputs(candles, actions) && NoneAdjusted(candles)
    requires i < |candles| && Held(candles, actions, i)
    ensures !AllResolved(Prior(candles, actions, i), Reset(candles, actions))
  {
    PriorRatios(candles, actions, i);
    var a :| a in Prior(candles, actions, i) && !Resolved(a, candles);
    ResetKeepsFactors(candles, actions, a);
  }

  /** In particular on a history that came in unadjusted. */
  lemma {:induction false} RawIdempotent(candles: seq<Candle>, actions: seq<Action>)
    requires Inputs(candles, actions) && NoneAdjusted(candles)
    ensures Applied(Applied(candles, actions), actions) == Applied(candles, actions)
  {
    forall i | 0 <= i < |candles| && Held(candles, actions, i)
      ensures !AllResolved(Prior(candles, actions, i), Reset(candles, actions))
    {
      RawStaysHeld(candles, actions, i);
    }
    IdempotentExactly(candles, actions);
  }

  // ---------- an input on which the second pass differs ----------

  const EARLY := Candle(0, 10.0, 10.0, 10.0, 10.0, 1.0, Adjusted, 2.0)
  const LATE := Candle(2, 10.0, 10.0, 10.0, 10.0, 1.0, NotRequired, 1.0)
  const DIVIDEND_OF_EIGHT := Action(ActionKey("S", Dividend, 1), Reconciled, None, None, None, Some(8.0), None,
                                    None, None, false, [1], 1)

  lemma {:induction false} DividendFactor(first: Candle)
    requires first.date == 0 && first.Divisible()
    ensures AllDivisible([first, LATE])
    ensures PriceFactor(DIVIDEND_OF_EIGHT, [first, LATE])
            == FactorFromReference(DIVIDEND_OF_EIGHT, first.RecoveredClose())
  {
    var candles := [first, LATE];
    assert candles[0].date < 1;
    assert ReferenceIndex(candles, 1) == Some(0);
  }

  lemma {:induction false} SingleActionPrior(candles: seq<Candle>, a: Action)
    requires |candles| == 2 && candles[0].date == 0 && candles[1].date == 2
    requires a.EffectiveDate() == 1 && a.state == Reconciled && a.AdjustsPrices()
    ensures Prior(candles, [a], 0) == [a]
  {
    assert [a][..0] == [];
    assert LastDate(candles) == 2;
    assert Relevant([a], 2) == [a];
    assert After([a], 0) == [a];
  }

  lemma {:induction false} ResetExample()
    ensures AllDivisible([EARLY, LATE])
    ensures Held([EARLY, LATE], [DIVIDEND_OF_EIGHT], 0)
    ensures Reset([EARLY, LATE], [DIVIDEND_OF_EIGHT])[0] == EARLY.(status := Unadjusted, factor := 1.0)
  {
    DividendFactor(EARLY);
    SingleActionPrior([EARLY, LATE], DIVIDEND_OF_EIGHT);
    assert EARLY.RecoveredClose() == 5.0;
    assert FactorFromReference(DIVIDEND_OF_EIGHT, 5.0) == None;
    assert DIVIDEND_OF_EIGHT in Prior([EARLY, LATE], [DIVIDEND_OF_EIGHT], 0);
  }

  lemma {:induction false} ResetIsResolved()
    ensures AllDivisible([EARLY, LATE])
    ensures Resolved(DIVIDEND_OF_EIGHT, Reset([EARLY, LATE], [DIVIDEND_OF_EIGHT]))
  {
    ResetExample();
    var reset := Reset([EARLY, LATE], [DIVIDEND_OF_EIGHT]);
    assert reset[0].date < 1;
    assert ReferenceIndex(reset, 1) == Some(0) by {
      assert reset[1].date == LATE.date;
    }
    assert FactorFromReference(DIVIDEND_OF_EIGHT, 10.0) == Some(0.2);
  }

  lemma {:induction false} ExampleInputs()
    ensures Inputs([EARLY, LATE], [DIVIDEND_OF_EIGHT]) && AllValid([EARLY, LATE])
  {
  }

  lemma {:induction false} RevivedExample() returns (candles: seq<Candle>, actions: seq<Action>)
    ensures Inputs(candles, actions) && AllValid(candles) && |candles| == 2
    ensures Held(candles, actions, 0) && AllResolved(Prior(candles, actions, 0), Reset(candles, actions))
  {
    ExampleInputs();
    ResetExample();
    ResetIsResolved();
    SingleActionPrior([EARLY, LATE], DIVIDEND_OF_EIGHT);
    candles, actions := [EARLY, LATE], [DIVIDEND_OF_EIGHT];
  }

  /**
   Without that condition a second pass can change the history: a candle that came in with a record of its
   adjustment loses the record in the first pass, and the second pass then takes its price for a raw one.
   */
  lemma {:induction false} SecondPassCanDiffer() returns (candles: seq<Candle>, actions: seq<Action>)
    ensures Inputs(candles, actions) && AllValid(candles)
    ensures Applied(Applied(candles, actions), actions) != Applied(candles, actions)
  {
    candles, actions := RevivedExample();
    IdempotentExactly(candles, actions);
  }
}
