/** The integrity audit of a stored candle history (`assess_adjustment_integrity`). */
module AdjustmentAudit {
  import opened Common
  import opened CorporateActions
  import opened PriceAdjustment

  datatype AuditState = Pass | RejectDataIntegrity | WaitDataWeak

  datatype Assessment = Assessment(state: AuditState, requiredActionCount: nat, eventIds: seq<int>)

  const TOLERANCE := 0.000001

  /** The actions the audit asks for: in force after the first candle and up to the last one. */
  function Required(candles: seq<Candle>, actions: seq<Action>): seq<Action>
    requires candles != []
  {
    After(Relevant(actions, LastDate(candles)), FirstDate(candles))
  }

  lemma {:induction false} RequiredMembers(candles: seq<Candle>, actions: seq<Action>, a: Action)
    requires candles != []
    ensures a in Required(candles, actions) <==>
              a in actions && Matters(a, LastDate(candles)) && FirstDate(candles) < a.EffectiveDate()
  {
    RelevantMembers(actions, LastDate(candles), a);
    AfterMembers(Relevant(actions, LastDate(candles)), FirstDate(candles), a);
  }

  lemma {:induction false} RequiredRatios(candles: seq<Candle>, actions: seq<Action>)
    requires candles != [] && RatiosDivisible(actions)
    ensures RatiosDivisible(Required(candles, actions))
  {
    forall a | a in Required(candles, actions) ensures RatioDivisible(a) {
      RequiredMembers(candles, actions, a);
    }
  }

  /** The recorded adjustment of one candle is the expected one. */
  predicate RecordsExpected(candle: Candle, required: seq<Action>, factors: FactorTable)
  {
    var prior := After(required, candle.date);
    prior != [] ==>
      candle.status == Adjusted && Distance(candle.factor, CumulativeFactor(prior, factors)) <= TOLERANCE
  }

  function Verdict(candles: seq<Candle>, actions: seq<Action>): AuditState
    requires AllDivisible(candles) && RatiosDivisible(actions)
  {
    if candles == [] then WaitDataWeak
    else
      var required := Required(candles, actions);
      RequiredRatios(candles, actions);
      var factors := FactorsOf(required, candles);
      if exists a :: a in required && Blocks(a, factors) then RejectDataIntegrity
      else if forall i :: 0 <= i < |candles| ==> RecordsExpected(candles[i], required, factors) then Pass
      else RejectDataIntegrity
  }

  function EventIds(actions: seq<Action>): seq<int> {
    if actions == [] then []
    else EventIds(actions[..|actions| - 1]) + actions[|actions| - 1].sourceEventIds
  }

  /** The audit loop: it stops at the first candle that does not record the expected factor. */
  method AllRecorded(candles: seq<Candle>, required: seq<Action>, factors: FactorTable) returns (ok: bool)
    ensures ok <==> forall i :: 0 <= i < |candles| ==> RecordsExpected(candles[i], required, factors)
  {
    for i := 0 to |candles|
      invariant forall j :: 0 <= j < i ==> RecordsExpected(candles[j], required, factors)
    {
      var candle := candles[i];
      var prior := After(required, candle.date);
      var expected, _ := AccumulateFactors(prior, factors);
      if prior != [] && (candle.status != Adjusted || Distance(candle.factor, expected) > TOLERANCE) {
        assert !RecordsExpected(candles[i], required, factors);
        return false;
      }
      assert RecordsExpected(candles[i], required, factors);
    }
    return true;
  }

  method Assess(candles: seq<Candle>, actions: seq<Action>) returns (r: Assessment)
    requires AllDivisible(candles) && RatiosDivisible(actions)
    ensures r.state == Verdict(candles, actions)
    ensures candles != [] ==>
      var required := Required(candles, actions);
      r.requiredActionCount == |required| && r.eventIds == EventIds(required)
    ensures candles == [] ==> r.requiredActionCount == 0 && r.eventIds == []
  {
    if candles == [] {
      return Assessment(WaitDataWeak, 0, []);
    }
    var required := Required(candles, actions);
    RequiredRatios(candles, actions);
    var eventIds := EventIds(required);
    var factors := FactorsOf(required, candles);
    if exists a :: a in required && Blocks(a, factors) {
      return Assessment(RejectDataIntegrity, |required|, eventIds);
    }
    var ok := AllRecorded(candles, required, factors);
    return Assessment(if ok then Pass else RejectDataIntegrity, |required|, eventIds);
  }
}
