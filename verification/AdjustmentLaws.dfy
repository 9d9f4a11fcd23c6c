/**
 What the ingestion pass and the audit promise each other.  The writer computes dividend and rights factors
 from raw closes; the auditor recomputes them from closes the writer has already rewritten.
 */
module AdjustmentLaws {
  import opened Common
  import opened CorporateActions
  import opened Products
  import opened PriceAdjustment
  import opened AdjustmentAudit

  // ---------- a description of both passes without dictionaries ----------

  ghost predicate Inputs(candles: seq<Candle>, actions: seq<Action>) {
    candles != [] && AllDivisible(candles) && RatiosDivisible(actions) && KeysIdentify(actions)
  }

  ghost predicate Resolved(action: Action, candles: seq<Candle>)
    requires AllDivisible(candles) && RatioDivisible(action)
  {
    action.state == Reconciled && PriceFactor(action, candles).Some?
  }

  ghost predicate AllResolved(actions: seq<Action>, candles: seq<Candle>)
    requires AllDivisible(candles)
  {
    forall a :: a in actions ==> RatioDivisible(a) && Resolved(a, candles)
  }

  /** The actions that concern candle `i`. */
  function Prior(candles: seq<Candle>, actions: seq<Action>, i: nat): seq<Action>
    requires i < |candles|
  {
    After(Relevant(actions, LastDate(candles)), candles[i].date)
  }

  /** One number for each action, in the order of the actions. */
  ghost function Each(f: Action -> real, actions: seq<Action>): (r: seq<real>)
    ensures |r| == |actions|
  {
    seq(|actions|, i requires 0 <= i < |actions| => f(actions[i]))
  }

  /** The price factor of an action, read from the candles. */
  ghost function PriceOf(candles: seq<Candle>): (f: Action -> real)
    requires AllDivisible(candles)
    ensures forall a :: f(a) == SafeFactor(a, candles)
  {
    (a: Action) => SafeFactor(a, candles)
  }

  /** The same for splits and bonuses, one for the other actions. */
  ghost function VolumeOf(f: Action -> real): (g: Action -> real)
    ensures forall a :: g(a) == if a.RescalesVolume() then f(a) else 1.0
  {
    (a: Action) => if a.RescalesVolume() then f(a) else 1.0
  }

  ghost function Expected(prior: seq<Action>, candles: seq<Candle>): (r: real)
    requires AllDivisible(candles)
    ensures r != 0.0
  {
    ProductNonZero(Each(PriceOf(candles), prior));
    Product(Each(PriceOf(candles), prior))
  }

  ghost function ExpectedVolume(prior: seq<Action>, candles: seq<Candle>): (r: real)
    requires AllDivisible(candles)
    ensures r != 0.0
  {
    ProductNonZero(Each(VolumeOf(PriceOf(candles)), prior));
    Product(Each(VolumeOf(PriceOf(candles)), prior))
  }

  ghost function SafeFactor(action: Action, candles: seq<Candle>): (r: real)
    requires AllDivisible(candles)
    ensures r != 0.0
  {
    if RatioDivisible(action) then FactorOrOne(PriceFactor(action, candles)) else 1.0
  }

  ghost predicate Fits(table: FactorTable, actions: seq<Action>, candles: seq<Candle>)
    requires AllDivisible(candles)
  {
    forall a :: a in actions ==> RatioDivisible(a) && FactorAt(table, a) == PriceFactor(a, candles)
  }

  lemma {:induction false} TableFits(actions: seq<Action>, candles: seq<Candle>)
    requires AllDivisible(candles) && RatiosDivisible(actions) && KeysIdentify(actions)
    ensures Fits(FactorsOf(actions, candles), actions, candles)
  {
    if actions != [] {
      var n := |actions| - 1;
      assert forall a :: a in actions <==> a in actions[..n] || a == actions[n];
      TableFits(actions[..n], candles);
    }
  }

  lemma {:induction false} TableGivesExpected(prior: seq<Action>, table: FactorTable, candles: seq<Candle>)
    requires AllDivisible(candles) && Fits(table, prior, candles)
    ensures CumulativeFactor(prior, table) == Expected(prior, candles)
    ensures VolumeFactor(prior, table) == ExpectedVolume(prior, candles)
  {
    assert forall i :: 0 <= i < |prior| ==> prior[i] in prior;
    assert FactorList(prior, table) == Each(PriceOf(candles), prior);
    assert VolumeFactorList(prior, table) == Each(VolumeOf(PriceOf(candles)), prior);
  }

  ghost predicate Held(candles: seq<Candle>, actions: seq<Action>, i: nat)
    requires i < |candles| && AllDivisible(candles)
  {
    !AllResolved(Prior(candles, actions, i), candles)
  }

  lemma {:induction false} PriorMembers(candles: seq<Candle>, actions: seq<Action>, i: nat, a: Action)
    requires i < |candles|
    ensures a in Prior(candles, actions, i) <==>
              a in actions && Matters(a, LastDate(candles)) && candles[i].date < a.EffectiveDate()
  {
    RelevantMembers(actions, LastDate(candles), a);
    AfterMembers(Relevant(actions, LastDate(candles)), candles[i].date, a);
  }

  lemma {:induction false} PriorRatios(candles: seq<Candle>, actions: seq<Action>, i: nat)
    requires i < |candles| && RatiosDivisible(actions)
    ensures RatiosDivisible(Prior(candles, actions, i))
  {
    forall a | a in Prior(candles, actions, i) ensures RatioDivisible(a) {
      PriorMembers(candles, actions, i, a);
    }
  }

  /** What the pass writes for candle `i`, in the four cases of the source. */
  ghost function Outcome(candles: seq<Candle>, actions: seq<Action>, i: nat): Candle
    requires i < |candles| && AllDivisible(candles)
  {
    var c := candles[i];
    var prior := Prior(candles, actions, i);
    if Held(candles, actions, i) then c.(status := Unadjusted, factor := 1.0)
    else if prior == [] then
      c.(status := if c.status == Adjusted || Relevant(actions, LastDate(candles)) == [] then c.status else NotRequired)
    else if c.status == Adjusted then c
    else Scaled(c, Expected(prior, candles), ExpectedVolume(prior, candles))
  }

  lemma {:induction false} AppliedAt(candles: seq<Candle>, actions: seq<Action>, i: nat)
    requires Inputs(candles, actions) && i < |candles|
    ensures Applied(candles, actions)[i] == Outcome(candles, actions, i)
  {
    var relevant := Relevant(actions, LastDate(candles));
    var prior := Prior(candles, actions, i);
    if relevant != [] {
      RelevantRatios(actions, LastDate(candles));
      RelevantKeys(actions, LastDate(candles));
      TableFits(relevant, candles);
      var table := FactorsOf(relevant, candles);
      AfterFits(table, relevant, candles[i].date, candles);
      TableGivesExpected(prior, table, candles);
      RewrittenEachAt(candles, relevant, table, i);
      assert HeldBack(prior, table) <==> Held(candles, actions, i);
    }
  }

  lemma {:induction false} RelevantKeys(actions: seq<Action>, lastDate: int)
    requires KeysIdentify(actions)
    ensures KeysIdentify(Relevant(actions, lastDate))
  {
    forall a | a in Relevant(actions, lastDate) ensures a in actions {
      RelevantMembers(actions, lastDate, a);
    }
  }

  lemma {:induction false} AfterFits(table: FactorTable, actions: seq<Action>, date: int, candles: seq<Candle>)
    requires AllDivisible(candles) && Fits(table, actions, candles)
    ensures Fits(table, After(actions, date), candles)
  {
    forall a | a in After(actions, date) ensures a in actions {
      AfterMembers(actions, date, a);
    }
  }

  /** The pass erases the record of an adjustment that the candle came in with. */
  ghost predicate LosesRecord(candles: seq<Candle>, actions: seq<Action>, i: nat)
    requires i < |candles| && AllDivisible(candles)
  {
    candles[i].status == Adjusted && Held(candles, actions, i)
  }

  /** A rewritten candle keeps its date, and still tells the close it had unless it lost a record other than one. */
  lemma {:induction false} OutcomeRecovers(candles: seq<Candle>, actions: seq<Action>, i: nat)
    requires i < |candles| && AllDivisible(candles)
    ensures var out := Outcome(candles, actions, i);
      && out.date == candles[i].date
      && out.Divisible()
      && (out.RecoveredClose() == candles[i].RecoveredClose() <==>
            !(LosesRecord(candles, actions, i) && candles[i].factor != 1.0))
      && (LosesRecord(candles, actions, i) ==>
            out.RecoveredClose() == Times(candles[i].RecoveredClose(), candles[i].factor))
  {
    var c := candles[i];
    assert c.Divisible();
    var prior := Prior(candles, actions, i);
    if !Held(candles, actions, i) && prior != [] && c.status != Adjusted {
      ScaledRecovers(c, Expected(prior, candles), ExpectedVolume(prior, candles));
    }
    LostFactor(c.close, c.factor);
  }

  lemma {:induction false} LostFactor(close: real, factor: real)
    requires close != 0.0 && factor != 0.0
    ensures Times(Quotient(close, factor), factor) == close
    ensures Quotient(close, factor) == close <==> factor == 1.0
  {
    var q := Quotient(close, factor);
    assert q * factor == close;
    if q == close {
      assert close * (factor - 1.0) == 0.0;
    }
  }

  lemma {:induction false} ScaledRecovers(c: Candle, factor: real, volumeFactor: real)
    requires c.Divisible() && factor != 0.0 && volumeFactor != 0.0
    ensures Scaled(c, factor, volumeFactor).Divisible()
    ensures Scaled(c, factor, volumeFactor).RecoveredClose() == c.close
  {
    NonZeroProduct(c.close, factor);
  }

  lemma {:induction false} AppliedKeepsDates(candles: seq<Candle>, actions: seq<Action>)
    requires Inputs(candles, actions)
    ensures SameDates(candles, Applied(candles, actions))
  {
    var out := Applied(candles, actions);
    forall i | 0 <= i < |out| ensures out[i].Divisible() && candles[i].date == out[i].date {
      AppliedAt(candles, actions, i);
      OutcomeRecovers(candles, actions, i);
    }
  }

  lemma {:induction false} NonZeroProduct(x: real, y: real)
    requires x != 0.0 && y != 0.0
    ensures Times(x, y) != 0.0 && Quotient(Times(x, y), y) == x
  {
  }

  // ---------- dates, references and factors after the rewrite ----------

  ghost predicate SameDates(s: seq<Candle>, t: seq<Candle>) {
    |s| == |t| && forall i :: 0 <= i < |s| ==> s[i].date == t[i].date
  }

  lemma {:induction false} SameDatesSameRange(s: seq<Candle>, t: seq<Candle>)
    requires SameDates(s, t) && s != []
    ensures FirstDate(s) == FirstDate(t) && LastDate(s) == LastDate(t)
  {
  }

  lemma {:induction false} SameDatesSameReference(s: seq<Candle>, t: seq<Candle>, before: int)
    requires SameDates(s, t)
    ensures ReferenceIndex(s, before) == ReferenceIndex(t, before)
  {
    var i, j := ReferenceIndex(s, before), ReferenceIndex(t, before);
    if i.Some? && j.Some? {
      assert s[j.value].date == t[j.value].date && s[i.value].date == t[i.value].date;
    }
  }

  lemma {:induction false} FactorKept(candles: seq<Candle>, actions: seq<Action>, action: Action)
    requires Inputs(candles, actions) && RatioDivisible(action)
    requires forall i :: 0 <= i < |candles| && candles[i].date < action.EffectiveDate() ==>
               candles[i].status != Adjusted || !Held(candles, actions, i)
    ensures PriceFactor(action, Applied(candles, actions)) == PriceFactor(action, candles)
  {
    AppliedKeepsDates(candles, actions);
    SameDatesSameReference(candles, Applied(candles, actions), action.EffectiveDate());
    var r := ReferenceIndex(candles, action.EffectiveDate());
    if r.Some? {
      AppliedAt(candles, actions, r.value);
      OutcomeRecovers(candles, actions, r.value);
    }
  }

  /** Factors recomputed from rewritten candles are the factors of the raw candles, for every action. */
  lemma {:induction false} RecomputedFactorsAgree(candles: seq<Candle>, actions: seq<Action>, action: Action)
    requires Inputs(candles, actions) && RatioDivisible(action) && NoneAdjusted(candles)
    ensures PriceFactor(action, Applied(candles, actions)) == PriceFactor(action, candles)
  {
    FactorKept(candles, actions, action);
  }

  // ---------- the audit without dictionaries ----------

  lemma {:induction false} AfterAfter(actions: seq<Action>, d: int, e: int)
    requires d <= e
    ensures After(After(actions, d), e) == After(actions, e)
  {
    if actions != [] {
      var n := |actions| - 1;
      AfterAfter(actions[..n], d, e);
      if d < actions[n].EffectiveDate() {
        var s := After(actions, d);
        assert s[..|s| - 1] == After(actions[..n], d);
      } else {
        assert After(actions, d) == After(actions[..n], d);
      }
    }
  }

  /** Candle `i` records the product of the factors of the actions that concern it. */
  ghost predicate Records(candles: seq<Candle>, actions: seq<Action>, i: nat)
    requires i < |candles| && AllDivisible(candles)
  {
    var prior := Prior(candles, actions, i);
    prior != [] ==>
      candles[i].status == Adjusted && Distance(candles[i].factor, Expected(prior, candles)) <= TOLERANCE
  }

  lemma {:induction false} AuditPassesExactly(candles: seq<Candle>, actions: seq<Action>)
    requires Inputs(candles, actions)
    ensures Verdict(candles, actions) == Pass <==>
      AllResolved(Required(candles, actions), candles)
      && forall i :: 0 <= i < |candles| ==> Records(candles, actions, i)
  {
    var required := Required(candles, actions);
    RequiredRatios(candles, actions);
    RequiredKeys(candles, actions);
    TableFits(required, candles);
    var table := FactorsOf(required, candles);
    forall i | 0 <= i < |candles|
      ensures RecordsExpected(candles[i], required, table) <==> Records(candles, actions, i)
    {
      AfterAfter(Relevant(actions, LastDate(candles)), FirstDate(candles), candles[i].date);
      AfterFits(table, required, candles[i].date, candles);
      TableGivesExpected(Prior(candles, actions, i), table, candles);
    }
  }

  lemma {:induction false} RequiredKeys(candles: seq<Candle>, actions: seq<Action>)
    requires candles != [] && KeysIdentify(actions)
    ensures KeysIdentify(Required(candles, actions))
  {
    forall a | a in Required(candles, actions) ensures a in actions {
      RequiredMembers(candles, actions, a);
    }
  }

  /** No candle is held back exactly when every action the audit requires is resolved. */
  lemma {:induction false} NoneHeldExactly(candles: seq<Candle>, actions: seq<Action>)
    requires Inputs(candles, actions)
    ensures AllResolved(Required(candles, actions), candles) <==>
      forall i :: 0 <= i < |candles| ==> !Held(candles, actions, i)
  {
    if AllResolved(Required(candles, actions), candles) {
      forall i, a | 0 <= i < |candles| && a in Prior(candles, actions, i)
        ensures RatioDivisible(a) && Resolved(a, candles)
      {
        PriorMembers(candles, actions, i, a);
        RequiredMembers(candles, actions, a);
      }
    }
    if forall i :: 0 <= i < |candles| ==> !Held(candles, actions, i) {
      var first :| 0 <= first < |candles| && candles[first].date == FirstDate(candles);
      assert !Held(candles, actions, first);
      assert Required(candles, actions) == Prior(candles, actions, first);
    }
  }
}
