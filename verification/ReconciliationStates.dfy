/**
 What reconciliation decides, read from the input rows: which rows are selected, when the action is reconciled and
 when it waits for details, and which terms it carries.
 */
module ReconciliationStates {
  import opened Common
  import opened Ordering
  import opened Products
  import opened CorporateActions
  import opened Reconciliation
  import opened ReconciliationLaws
  import opened ReconciliationOutcome
  import ReconciledActions

  // ---------- what one row states ----------

  function Stated(x: Option<real>): Option<real> {
    if x.Some? && x.value > 0.0 then x else None
  }

  function StatedCash(r: Observation): Option<real> { Stated(r.cashAmount) }

  function StatedOffer(r: Observation): Option<real> { Stated(r.offerPrice) }

  function StatedFactor(r: Observation): Option<real> { Stated(r.adjustmentFactor) }

  /** Numerator and denominator, in this order; a ratio with a missing or non-positive term is not stated at all. */
  function StatedRatio(r: Observation): Option<(real, real)> {
    if Stated(r.ratioNumerator).Some? && Stated(r.ratioDenominator).Some? then
      Some((r.ratioNumerator.value, r.ratioDenominator.value))
    else
      None
  }

  function StatedPredecessor(r: Observation): Option<string> { r.predecessor }

  function StatedSuccessor(r: Observation): Option<string> { r.successor }

  function StatedContinuity(r: Observation): Option<bool> { r.continuity }

  ghost predicate SomeState<T(!new)>(rows: set<Observation>, stated: Observation -> Option<T>) {
    exists r :: r in rows && stated(r).Some?
  }

  ghost predicate Unanimous<T(!new)>(rows: set<Observation>, stated: Observation -> Option<T>) {
    forall r, o :: r in rows && o in rows && stated(r).Some? && stated(o).Some? ==> stated(r) == stated(o)
  }

  /** `x` is what the rows state when they agree, and nothing when none states it or two differ. */
  ghost predicate Carries<T(!new)>(rows: set<Observation>, stated: Observation -> Option<T>, x: Option<T>) {
    && (x.Some? <==> SomeState(rows, stated) && Unanimous(rows, stated))
    && (x.Some? ==> forall r :: r in rows && stated(r).Some? ==> stated(r) == x)
  }

  ghost predicate AllUnanimous(rows: set<Observation>) {
    && Unanimous(rows, StatedRatio)
    && Unanimous(rows, StatedCash)
    && Unanimous(rows, StatedOffer)
    && Unanimous(rows, StatedFactor)
    && Unanimous(rows, StatedPredecessor)
    && Unanimous(rows, StatedSuccessor)
    && Unanimous(rows, StatedContinuity)
  }

  /** What the rows have to state before an action of each class may rewrite prices. */
  ghost predicate Complete(key: ActionKey, rows: set<Observation>) {
    match key.actionClass
    case Split => SomeState(rows, StatedRatio)
    case Bonus => SomeState(rows, StatedRatio)
    case Dividend => SomeState(rows, StatedCash)
    case Rights => SomeState(rows, StatedRatio) && SomeState(rows, StatedOffer)
    case Merger => Authorised(key.symbol, rows)
    case Demerger => Authorised(key.symbol, rows)
    case Other => true
  }

  /** An explicit factor, confirmed continuity, and the action's own symbol on both sides. */
  ghost predicate Authorised(symbol: string, rows: set<Observation>) {
    && SomeState(rows, StatedFactor)
    && (exists r :: r in rows && r.continuity == Some(true))
    && (exists r :: r in rows && r.predecessor == Some(symbol))
    && (exists r :: r in rows && r.successor == Some(symbol))
  }

  // ---------- the agreed terms ----------

  lemma {:induction false} SoleIsCarried<T(!new)>(rows: set<Observation>, stated: Observation -> Option<T>,
                                                  values: set<T>)
    requires forall x :: x in values <==> exists r :: r in rows && stated(r) == Some(x)
    ensures Carries(rows, stated, Sole(values))
    ensures |values| > 1 <==> !Unanimous(rows, stated)
    ensures values == {} <==> !SomeState(rows, stated)
  {
    if SomeState(rows, stated) {
      var r :| r in rows && stated(r).Some?;
      assert stated(r) == Some(stated(r).value);
      assert stated(r).value in values;
      if !Unanimous(rows, stated) {
        var p, o :| p in rows && o in rows && stated(p).Some? && stated(o).Some? && stated(p) != stated(o);
        assert stated(p) == Some(stated(p).value) && stated(o) == Some(stated(o).value);
        DifferentMembers(values, stated(p).value, stated(o).value);
      } else {
        forall x | x in values ensures x == stated(r).value {
          var o :| o in rows && stated(o) == Some(x);
        }
        assert values == {stated(r).value};
      }
    }
    if x :| x in values {
      var r :| r in rows && stated(r) == Some(x);
      assert SomeState(rows, stated);
    }
  }

  lemma {:induction false} CarriedTerms(actionClass: ActionClass, rows: set<Observation>)
    ensures var a := Agree(actionClass, rows);
      && Carries(rows, StatedCash, a.cash)
      && Carries(rows, StatedOffer, a.offer)
      && (|CashValues(set r | r in rows :: TermsOf(r))| > 1 <==> !Unanimous(rows, StatedCash))
      && (|OfferValues(set r | r in rows :: TermsOf(r))| > 1 <==> !Unanimous(rows, StatedOffer))
  {
    var terms := set r | r in rows :: TermsOf(r);
    forall x ensures x in CashValues(terms) <==> exists r :: r in rows && StatedCash(r) == Some(x) {
      if r :| r in rows && StatedCash(r) == Some(x) {
        assert TermsOf(r) in terms;
      }
    }
    SoleIsCarried(rows, StatedCash, CashValues(terms));
    forall x ensures x in OfferValues(terms) <==> exists r :: r in rows && StatedOffer(r) == Some(x) {
      if r :| r in rows && StatedOffer(r) == Some(x) {
        assert TermsOf(r) in terms;
      }
    }
    SoleIsCarried(rows, StatedOffer, OfferValues(terms));
  }

  lemma {:induction false} CarriedRatio(actionClass: ActionClass, rows: set<Observation>)
    ensures Carries(rows, StatedRatio, Agree(actionClass, rows).ratio)
    ensures |RatioTerms(set r | r in rows :: TermsOf(r))| > 1 <==> !Unanimous(rows, StatedRatio)
  {
    var terms := set r | r in rows :: TermsOf(r);
    forall x ensures x in RatioTerms(terms) <==> exists r :: r in rows && StatedRatio(r) == Some(x) {
      if r :| r in rows && StatedRatio(r) == Some(x) {
        assert TermsOf(r) in terms;
      }
    }
    SoleIsCarried(rows, StatedRatio, RatioTerms(terms));
  }

  lemma {:induction false} CarriedReconstruction(actionClass: ActionClass, rows: set<Observation>)
    ensures var a := Agree(actionClass, rows);
      && Carries(rows, StatedFactor, a.explicitFactor)
      && Carries(rows, StatedPredecessor, a.predecessor)
      && Carries(rows, StatedSuccessor, a.successor)
    ensures |ExplicitFactors(rows)| > 1 <==> !Unanimous(rows, StatedFactor)
    ensures |Predecessors(rows)| > 1 <==> !Unanimous(rows, StatedPredecessor)
    ensures |Successors(rows)| > 1 <==> !Unanimous(rows, StatedSuccessor)
  {
    SoleIsCarried(rows, StatedFactor, ExplicitFactors(rows));
    SoleIsCarried(rows, StatedPredecessor, Predecessors(rows));
    SoleIsCarried(rows, StatedSuccessor, Successors(rows));
  }

  lemma {:induction false} CarriedContinuity(actionClass: ActionClass, rows: set<Observation>)
    ensures |Continuities(rows)| > 1 <==> !Unanimous(rows, StatedContinuity)
    ensures Agree(actionClass, rows).continuity <==>
              Unanimous(rows, StatedContinuity) && exists r :: r in rows && r.continuity == Some(true)
  {
    var values := Continuities(rows);
    SoleIsCarried(rows, StatedContinuity, values);
    if r :| r in rows && r.continuity == Some(true) {
      assert true in values;
      if Unanimous(rows, StatedContinuity) {
        ReconciledActions.NonEmptyHasSize(values);
        assert values == {Sole(values).value};
      } else {
        assert |values| > 1;
      }
    } else {
      assert true !in values;
    }
  }

  /** Ratios with different factors are different. */
  lemma {:induction false} FactorsFollowRatios(actionClass: ActionClass, rows: set<Observation>)
    requires |Factors(actionClass, set r | r in rows :: TermsOf(r))| > 1
    ensures !Unanimous(rows, StatedRatio)
  {
    var x, y := TwoMembers(Factors(actionClass, set r | r in rows :: TermsOf(r)));
    var r :| r in rows && RatioFactor(actionClass, TermsOf(r).numerator, TermsOf(r).denominator) == Some(x);
    var o :| o in rows && RatioFactor(actionClass, TermsOf(o).numerator, TermsOf(o).denominator) == Some(y);
    assert StatedRatio(r).Some? && StatedRatio(o).Some? && StatedRatio(r) != StatedRatio(o);
  }

  /** A stated ratio of a split or bonus has a factor. */
  lemma {:induction false} RatiosHaveFactors(actionClass: ActionClass, rows: set<Observation>)
    requires actionClass == Split || actionClass == Bonus
    ensures Agree(actionClass, rows).factors != {} <==> SomeState(rows, StatedRatio)
  {
    var terms := set r | r in rows :: TermsOf(r);
    var factors := Factors(actionClass, terms);
    if r :| r in rows && StatedRatio(r).Some? {
      assert TermsOf(r) in terms;
      assert RatioFactor(actionClass, TermsOf(r).numerator, TermsOf(r).denominator).value in factors;
    }
    if f :| f in factors {
      var r :| r in rows && RatioFactor(actionClass, TermsOf(r).numerator, TermsOf(r).denominator) == Some(f);
      assert StatedRatio(r).Some?;
    }
  }

  lemma {:induction false} ConflictIsDisagreement(actionClass: ActionClass, rows: set<Observation>)
    ensures Agree(actionClass, rows).conflict <==> !AllUnanimous(rows)
  {
    CarriedTerms(actionClass, rows);
    CarriedRatio(actionClass, rows);
    CarriedReconstruction(actionClass, rows);
    CarriedContinuity(actionClass, rows);
    if |Factors(actionClass, set r | r in rows :: TermsOf(r))| > 1 {
      FactorsFollowRatios(actionClass, rows);
    }
  }

  // ---------- the decision ----------

  ghost predicate NoneCancels(rows: set<Observation>) {
    forall r :: r in rows ==> r.revision != "CANCELLED"
  }

  ghost predicate SomeCancels(rows: set<Observation>) {
    exists r :: r in rows && r.revision == "CANCELLED"
  }

  ghost predicate AllCancel(rows: set<Observation>) {
    forall r :: r in rows ==> r.revision == "CANCELLED"
  }

  /** The state of an action, from the rows selected for it. */
  ghost predicate StateIs(a: Action, rows: set<Observation>) {
    && (a.state == Cancelled <==> AllCancel(rows))
    && (a.state == Conflict <==> (SomeCancels(rows) && !AllCancel(rows)) || (NoneCancels(rows) && !AllUnanimous(rows)))
    && (a.state == Reconciled <==> NoneCancels(rows) && AllUnanimous(rows) && Complete(a.key, rows))
    && (a.state == WaitDetails <==> NoneCancels(rows) && AllUnanimous(rows) && !Complete(a.key, rows))
  }

  /** The terms of an action: those the rows agree on, and none once a source cancels. */
  ghost predicate TermsAre(a: Action, rows: set<Observation>) {
    if SomeCancels(rows) then
      && a.ratioNumerator.None? && a.ratioDenominator.None? && a.cashAmount.None? && a.offerPrice.None?
      && a.predecessor.None? && a.successor.None? && !a.continuityConfirmed
    else
      && Carries(rows, StatedRatio, RatioPair(a))
      && a.ratioNumerator.Some? == a.ratioDenominator.Some?
      && Carries(rows, StatedCash, a.cashAmount)
      && Carries(rows, StatedOffer, a.offerPrice)
      && Carries(rows, StatedPredecessor, a.predecessor)
      && Carries(rows, StatedSuccessor, a.successor)
      && (a.continuityConfirmed <==>
            Unanimous(rows, StatedContinuity) && exists r :: r in rows && r.continuity == Some(true))
  }

  function RatioPair(a: Action): Option<(real, real)> {
    if a.ratioNumerator.Some? && a.ratioDenominator.Some? then Some((a.ratioNumerator.value, a.ratioDenominator.value))
    else None
  }

  /** The stored factor: the share ratio of a split or bonus, the stated factor of a merger or demerger. */
  ghost predicate FactorIs(a: Action, rows: set<Observation>) {
    var c := a.key.actionClass;
    && (a.adjustmentFactor.Some? <==>
          a.state == Reconciled && (c == Split || c == Bonus || c == Merger || c == Demerger))
    && (a.adjustmentFactor.Some? && c == Split ==>
          && a.ratioNumerator.Some? && a.ratioDenominator.Some?
          && a.adjustmentFactor.value * a.ratioNumerator.value == a.ratioDenominator.value)
    && (a.adjustmentFactor.Some? && c == Bonus ==>
          && a.ratioNumerator.Some? && a.ratioDenominator.Some?
          && a.adjustmentFactor.value * (a.ratioNumerator.value + a.ratioDenominator.value)
             == a.ratioDenominator.value)
    && (a.adjustmentFactor.Some? && (c == Merger || c == Demerger) ==> Carries(rows, StatedFactor, a.adjustmentFactor))
  }

  lemma {:induction false} NamesTheSymbol(rows: set<Observation>, stated: Observation -> Option<string>,
                                          x: Option<string>, symbol: string)
    requires Carries(rows, stated, x) && Unanimous(rows, stated)
    ensures x == Some(symbol) <==> exists r :: r in rows && stated(r) == Some(symbol)
  {
    if r :| r in rows && stated(r) == Some(symbol) {
      assert stated(r).Some?;
    }
  }

  lemma {:induction false} AuthorisedExactly(key: ActionKey, rows: set<Observation>)
    requires AllUnanimous(rows)
    ensures ReconstructionAgreed(key.symbol, Agree(key.actionClass, rows)) <==> Authorised(key.symbol, rows)
  {
    var a := Agree(key.actionClass, rows);
    CarriedReconstruction(key.actionClass, rows);
    CarriedContinuity(key.actionClass, rows);
    NamesTheSymbol(rows, StatedPredecessor, a.predecessor, key.symbol);
    NamesTheSymbol(rows, StatedSuccessor, a.successor, key.symbol);
    assert forall r :: StatedPredecessor(r) == r.predecessor && StatedSuccessor(r) == r.successor;
  }

  /** The agreed terms are complete exactly when the rows state what the class needs. */
  ghost predicate Mirrors(key: ActionKey, rows: set<Observation>, a: Agreed) {
    match key.actionClass
    case Split => a.factors != {} <==> SomeState(rows, StatedRatio)
    case Bonus => a.factors != {} <==> SomeState(rows, StatedRatio)
    case Dividend => a.cash.Some? <==> SomeState(rows, StatedCash)
    case Rights => a.ratio.Some? && a.offer.Some? <==> SomeState(rows, StatedRatio) && SomeState(rows, StatedOffer)
    case Merger => ReconstructionAgreed(key.symbol, a) <==> Authorised(key.symbol, rows)
    case Demerger => ReconstructionAgreed(key.symbol, a) <==> Authorised(key.symbol, rows)
    case Other => true
  }

  predicate ReconstructionAgreed(symbol: string, a: Agreed) {
    a.explicitFactor.Some? && a.continuity && a.predecessor == Some(symbol) && a.successor == Some(symbol)
  }

  lemma {:induction false} AgreedTermsMirrorTheRows(key: ActionKey, rows: set<Observation>)
    requires AllUnanimous(rows)
    ensures Mirrors(key, rows, Agree(key.actionClass, rows))
  {
    match key.actionClass
    case Split => RatiosHaveFactors(Split, rows);
    case Bonus => RatiosHaveFactors(Bonus, rows);
    case Dividend => CarriedTerms(Dividend, rows);
    case Rights =>
      CarriedTerms(Rights, rows);
      CarriedRatio(Rights, rows);
    case Merger => AuthorisedExactly(key, rows);
    case Demerger => AuthorisedExactly(key, rows);
    case Other =>
  }

  lemma {:induction false} StateFollowsTerms(key: ActionKey, rows: set<Observation>, a: Agreed)
    requires !a.conflict && Mirrors(key, rows, a)
    ensures StateAndFactor(key.symbol, key.actionClass, a).0 == if Complete(key, rows) then Reconciled else WaitDetails
  {
  }

  lemma {:induction false} UncancelledState(key: ActionKey, rows: set<Observation>)
    ensures StateAndFactor(key.symbol, key.actionClass, Agree(key.actionClass, rows)).0 ==
              if !AllUnanimous(rows) then Conflict
              else if Complete(key, rows) then Reconciled
              else WaitDetails
  {
    ConflictIsDisagreement(key.actionClass, rows);
    if AllUnanimous(rows) {
      AgreedTermsMirrorTheRows(key, rows);
      StateFollowsTerms(key, rows, Agree(key.actionClass, rows));
    }
  }

  lemma {:induction false} CancellationIs(rows: set<Observation>)
    requires rows != {}
    ensures Revisions(rows) == {CANCELLED} <==> AllCancel(rows)
    ensures CANCELLED in Revisions(rows) <==> SomeCancels(rows)
    ensures NoneCancels(rows) <==> !SomeCancels(rows)
    ensures AllCancel(rows) ==> SomeCancels(rows)
  {
    RevisionsAre(rows);
    var r :| r in rows;
    assert r.revision == "CANCELLED" || r.revision != "CANCELLED";
  }

  /**
   The state, exactly.  A dividend needs a cash amount, a split or bonus a ratio, a rights issue a ratio and an
   offer, a merger or demerger an explicit factor with confirmed continuity of the same symbol; what lacks them
   waits for details, and what does not adjust prices is reconciled at once.
   */
  lemma {:induction false} StateExactly(key: ActionKey, rows: set<Observation>, ids: seq<int>, count: nat)
    requires rows != {}
    ensures StateIs(Decide(key, rows, ids, count), rows)
  {
    CancellationIs(rows);
    UncancelledState(key, rows);
  }

  /** The terms, exactly: no amount is lost, invented or exchanged for another. */
  lemma {:induction false} TermsExactly(key: ActionKey, rows: set<Observation>, ids: seq<int>, count: nat)
    requires rows != {}
    ensures TermsAre(Decide(key, rows, ids, count), rows)
  {
    CancellationIs(rows);
    CarriedTerms(key.actionClass, rows);
    CarriedRatio(key.actionClass, rows);
    CarriedReconstruction(key.actionClass, rows);
    CarriedContinuity(key.actionClass, rows);
    assert !SomeCancels(rows) ==> RatioPair(Decide(key, rows, ids, count)) == Agree(key.actionClass, rows).ratio;
  }

  lemma {:induction false} SettledFactor(key: ActionKey, a: Agreed, ids: seq<int>, count: nat)
    requires ReconciledActions.PositiveAgreed(key.actionClass, a)
    ensures var r, c := Settle(key, a, ids, count), key.actionClass;
      r.adjustmentFactor.Some? <==> r.state == Reconciled && (c == Split || c == Bonus || c == Merger || c == Demerger)
  {
    ReconciledActions.StateAndFactorTerms(key.symbol, key.actionClass, a);
  }

  lemma {:induction false} FactorIsStored(key: ActionKey, rows: set<Observation>, ids: seq<int>, count: nat)
    requires rows != {}
    ensures var a, c := Decide(key, rows, ids, count), key.actionClass;
      a.adjustmentFactor.Some? <==> a.state == Reconciled && (c == Split || c == Bonus || c == Merger || c == Demerger)
  {
    ReconciledActions.AgreedTerms(key.actionClass, rows);
    SettledFactor(key, Agree(key.actionClass, rows), ids, count);
  }

  lemma {:induction false} StatedFactorIsStored(key: ActionKey, rows: set<Observation>, ids: seq<int>, count: nat)
    requires key.actionClass == Merger || key.actionClass == Demerger
    requires Decide(key, rows, ids, count).state == Reconciled
    ensures Carries(rows, StatedFactor, Decide(key, rows, ids, count).adjustmentFactor)
  {
    CarriedReconstruction(key.actionClass, rows);
  }

  lemma {:induction false} FactorOfTheRows(a: Action, rows: set<Observation>)
    requires a.adjustmentFactor.Some? <==>
               a.state == Reconciled && a.key.actionClass in {Split, Bonus, Merger, Demerger}
    requires a.adjustmentFactor.Some? && (a.key.actionClass == Split || a.key.actionClass == Bonus) ==>
               && a.ratioNumerator.Some? && a.ratioDenominator.Some?
               && Times(a.adjustmentFactor.value,
                        if a.key.actionClass == Split then a.ratioNumerator.value
                        else a.ratioNumerator.value + a.ratioDenominator.value)
                  == a.ratioDenominator.value
    requires a.adjustmentFactor.Some? && (a.key.actionClass == Merger || a.key.actionClass == Demerger) ==>
               Carries(rows, StatedFactor, a.adjustmentFactor)
    ensures FactorIs(a, rows)
  {
  }

  /** The stored factor, exactly. */
  lemma {:induction false} FactorExactly(key: ActionKey, rows: set<Observation>, ids: seq<int>, count: nat)
    requires rows != {}
    ensures FactorIs(Decide(key, rows, ids, count), rows)
  {
    var a := Decide(key, rows, ids, count);
    FactorIsStored(key, rows, ids, count);
    if a.state == Reconciled && (key.actionClass == Split || key.actionClass == Bonus) {
      FactorMatchesTerms(key, rows, ids, count);
    }
    if a.state == Reconciled && (key.actionClass == Merger || key.actionClass == Demerger) {
      StatedFactorIsStored(key, rows, ids, count);
    }
    FactorOfTheRows(a, rows);
  }

  // ---------- the selected rows ----------

  /** A row that counts for an action: parsed in time, with its symbol, its class and its effective date. */
  predicate Counts(row: Observation, asOf: int, key: ActionKey) {
    && row.parsedAt.Some? && row.parsedAt.value <= asOf
    && row.symbol != "" && row.symbol == key.symbol
    && row.actionClass == key.actionClass
    && row.effectiveDate == Some(key.effectiveDate)
  }

  /** Row `k` counts, and of the rows of its source no earlier one is newer and no later one is as new. */
  ghost predicate LastNewest(rows: seq<Observation>, asOf: int, key: ActionKey, k: int) {
    && 0 <= k < |rows| && Counts(rows[k], asOf, key)
    && forall j :: 0 <= j < |rows| && Counts(rows[j], asOf, key) && rows[j].source == rows[k].source ==>
         if j <= k then rows[j].parsedAt.value <= rows[k].parsedAt.value
         else rows[j].parsedAt.value < rows[k].parsedAt.value
  }

  ghost predicate IsLastNewest(rows: seq<Observation>, asOf: int, key: ActionKey, r: Observation) {
    exists k :: LastNewest(rows, asOf, key, k) && rows[k] == r
  }

  predicate HasSource(selected: seq<Observation>, source: string) {
    exists i :: 0 <= i < |selected| && selected[i].source == source
  }

  /** One row for each source of the action: the newest, and of equally new ones the one listed last. */
  ghost predicate Selection(rows: seq<Observation>, asOf: int, key: ActionKey, selected: seq<Observation>) {
    && (forall i, j :: 0 <= i < j < |selected| ==> selected[i].source != selected[j].source)
    && (forall i :: 0 <= i < |selected| ==> IsLastNewest(rows, asOf, key, selected[i]))
    && (forall k :: 0 <= k < |rows| && Counts(rows[k], asOf, key) ==> HasSource(selected, rows[k].source))
  }

  lemma {:induction false} PositionOf(rows: seq<Observation>, asOf: int, key: ActionKey, r: Observation)
    returns (k: int)
    requires IsLastNewest(rows, asOf, key, r)
    ensures LastNewest(rows, asOf, key, k) && rows[k] == r
  {
    k :| LastNewest(rows, asOf, key, k) && rows[k] == r;
  }

  lemma {:induction false} StaysNewest(rows: seq<Observation>, row: Observation, asOf: int, key: ActionKey,
                                       r: Observation)
    requires IsLastNewest(rows, asOf, key, r)
    requires Counts(row, asOf, key) && row.source == r.source ==>
               r.parsedAt.Some? && row.parsedAt.value < r.parsedAt.value
    ensures IsLastNewest(rows + [row], asOf, key, r)
  {
    var k := PositionOf(rows, asOf, key, r);
    assert (rows + [row])[k] == r;
    assert LastNewest(rows + [row], asOf, key, k);
  }

  lemma {:induction false} LastIsNewest(rows: seq<Observation>, row: Observation, asOf: int, key: ActionKey)
    requires Counts(row, asOf, key)
    requires forall j :: 0 <= j < |rows| && Counts(rows[j], asOf, key) && rows[j].source == row.source ==>
               rows[j].parsedAt.value <= row.parsedAt.value
    ensures IsLastNewest(rows + [row], asOf, key, row)
  {
    assert (rows + [row])[|rows|] == row;
    assert LastNewest(rows + [row], asOf, key, |rows|);
  }

  lemma {:induction false} UncountedRow(rows: seq<Observation>, row: Observation, asOf: int, key: ActionKey,
                                        selected: seq<Observation>)
    requires Selection(rows, asOf, key, selected)
    requires Counts(row, asOf, key) ==>
               && HasSource(selected, row.source)
               && forall i :: 0 <= i < |selected| && selected[i].source == row.source ==>
                    selected[i].parsedAt.Some? && row.parsedAt.value < selected[i].parsedAt.value
    ensures Selection(rows + [row], asOf, key, selected)
  {
    forall i | 0 <= i < |selected| ensures IsLastNewest(rows + [row], asOf, key, selected[i]) {
      StaysNewest(rows, row, asOf, key, selected[i]);
    }
  }

  lemma {:induction false} SupersedingRow(rows: seq<Observation>, row: Observation, asOf: int, key: ActionKey,
                                          selected: seq<Observation>, at: nat)
    requires Selection(rows, asOf, key, selected) && Counts(row, asOf, key)
    requires at < |selected| && selected[at].source == row.source && NotOlder(row, selected[at])
    ensures Selection(rows + [row], asOf, key, selected[at := row])
  {
    var after := selected[at := row];
    var mine := PositionOf(rows, asOf, key, selected[at]);
    LastIsNewest(rows, row, asOf, key);
    forall i | 0 <= i < |after| ensures IsLastNewest(rows + [row], asOf, key, after[i]) {
      if i != at {
        assert selected[i].source != row.source;
        StaysNewest(rows, row, asOf, key, selected[i]);
      }
    }
    SourcesStay(rows, row, asOf, key, selected, after, at);
  }

  lemma {:induction false} SourcesStay(rows: seq<Observation>, row: Observation, asOf: int, key: ActionKey,
                                       selected: seq<Observation>, after: seq<Observation>, at: nat)
    requires Selection(rows, asOf, key, selected) && at < |after|
    requires |selected| <= |after| && forall i :: 0 <= i < |selected| ==> after[i].source == selected[i].source
    requires after[at].source == row.source
    ensures forall k :: 0 <= k < |rows + [row]| && Counts((rows + [row])[k], asOf, key) ==>
              HasSource(after, (rows + [row])[k].source)
  {
    forall k | 0 <= k < |rows + [row]| && Counts((rows + [row])[k], asOf, key)
      ensures HasSource(after, (rows + [row])[k].source)
    {
      if k < |rows| {
        var i :| 0 <= i < |selected| && selected[i].source == rows[k].source;
        assert after[i].source == rows[k].source;
      }
    }
  }

  lemma {:induction false} RowOfNewSource(rows: seq<Observation>, row: Observation, asOf: int, key: ActionKey,
                                          selected: seq<Observation>)
    requires Selection(rows, asOf, key, selected) && Counts(row, asOf, key) && !HasSource(selected, row.source)
    ensures Selection(rows + [row], asOf, key, selected + [row])
  {
    var after := selected + [row];
    LastIsNewest(rows, row, asOf, key);
    forall i | 0 <= i < |after| ensures IsLastNewest(rows + [row], asOf, key, after[i]) {
      if i < |selected| {
        assert selected[i].source != row.source;
        StaysNewest(rows, row, asOf, key, selected[i]);
      }
    }
    SourcesStay(rows, row, asOf, key, selected, after, |selected|);
  }

  /** The dictionary of latest rows holds exactly the rows the selection rule names. */
  lemma {:induction false} SelectedExactly(rows: seq<Observation>, asOf: int, key: ActionKey)
    ensures Selection(rows, asOf, key, LatestBySource(Group(rows, asOf, key)))
  {
    if rows != [] {
      var n := |rows| - 1;
      SelectedExactly(rows[..n], asOf, key);
      assert rows == rows[..n] + [rows[n]];
      SelectionStep(rows[..n], rows[n], asOf, key);
    }
  }

  lemma {:induction false} SelectionStep(rows: seq<Observation>, row: Observation, asOf: int, key: ActionKey)
    requires Selection(rows, asOf, key, LatestBySource(Group(rows, asOf, key)))
    ensures Selection(rows + [row], asOf, key, LatestBySource(Group(rows + [row], asOf, key)))
  {
    var earlier := Group(rows, asOf, key);
    var selected := LatestBySource(earlier);
    assert (rows + [row])[..|rows|] == rows;
    if !Counts(row, asOf, key) {
      UncountedRow(rows, row, asOf, key, selected);
    } else {
      assert Group(rows + [row], asOf, key) == earlier + [row];
      assert (earlier + [row])[..|earlier|] == earlier;
      match SourceIndex(selected, row.source)
      case None => RowOfNewSource(rows, row, asOf, key, selected);
      case Some(at) =>
        assert IsLastNewest(rows, asOf, key, selected[at]);
        if NotOlder(row, selected[at]) {
          SupersedingRow(rows, row, asOf, key, selected, at);
        } else {
          assert HasSource(selected, row.source);
          UncountedRow(rows, row, asOf, key, selected);
        }
    }
  }

  /** Some row of source `x` counts before any row of source `y` does. */
  ghost predicate SeenBefore(rows: seq<Observation>, asOf: int, key: ActionKey, x: string, y: string) {
    exists p :: 0 <= p < |rows| && Counts(rows[p], asOf, key) && rows[p].source == x
                && forall q :: 0 <= q <= p && Counts(rows[q], asOf, key) ==> rows[q].source != y
  }

  /** The selected rows stand in the order in which their sources first appear. */
  ghost predicate InOrderOfAppearance(rows: seq<Observation>, asOf: int, key: ActionKey, selected: seq<Observation>) {
    forall i, j :: 0 <= i < j < |selected| ==> SeenBefore(rows, asOf, key, selected[i].source, selected[j].source)
  }

  lemma {:induction false} SeenBeforeStays(rows: seq<Observation>, row: Observation, asOf: int, key: ActionKey,
                                           x: string, y: string)
    requires SeenBefore(rows, asOf, key, x, y)
    ensures SeenBefore(rows + [row], asOf, key, x, y)
  {
    var p :| 0 <= p < |rows| && Counts(rows[p], asOf, key) && rows[p].source == x
             && forall q :: 0 <= q <= p && Counts(rows[q], asOf, key) ==> rows[q].source != y;
    assert (rows + [row])[..|rows|] == rows;
    assert forall q :: 0 <= q <= p ==> (rows + [row])[q] == rows[q];
  }

  lemma {:induction false} SeenBeforeNewSource(rows: seq<Observation>, row: Observation, asOf: int, key: ActionKey,
                                               selected: seq<Observation>, i: nat)
    requires Selection(rows, asOf, key, selected) && i < |selected|
    requires forall j :: 0 <= j < |selected| ==> selected[j].source != row.source
    ensures SeenBefore(rows, asOf, key, selected[i].source, row.source)
  {
    var k := PositionOf(rows, asOf, key, selected[i]);
    forall q | 0 <= q <= k && Counts(rows[q], asOf, key) ensures rows[q].source != row.source {
      assert HasSource(selected, rows[q].source);
    }
  }

  /** A step keeps the sources selected so far, and a source it adds stands last. */
  ghost predicate SourcesGrow(selected: seq<Observation>, row: Observation, after: seq<Observation>) {
    && |selected| <= |after| <= |selected| + 1
    && (forall i :: 0 <= i < |selected| ==> after[i].source == selected[i].source)
    && (|selected| < |after| ==>
          && after[|selected|].source == row.source
          && forall i :: 0 <= i < |selected| ==> selected[i].source != row.source)
  }

  lemma {:induction false} SupersedeGrows(selected: seq<Observation>, row: Observation)
    ensures SourcesGrow(selected, row, Supersede(selected, row))
  {
  }

  lemma {:induction false} PairInOrder(rows: seq<Observation>, row: Observation, asOf: int, key: ActionKey,
                                       selected: seq<Observation>, after: seq<Observation>, i: nat, j: nat)
    requires Selection(rows, asOf, key, selected) && InOrderOfAppearance(rows, asOf, key, selected)
    requires SourcesGrow(selected, row, after) && i < j < |after|
    ensures SeenBefore(rows + [row], asOf, key, after[i].source, after[j].source)
  {
    if j == |selected| {
      SeenBeforeNewSource(rows, row, asOf, key, selected, i);
    } else {
      assert SeenBefore(rows, asOf, key, selected[i].source, selected[j].source);
    }
    SeenBeforeStays(rows, row, asOf, key, after[i].source, after[j].source);
  }

  lemma {:induction false} OrderStep(rows: seq<Observation>, row: Observation, asOf: int, key: ActionKey,
                                     selected: seq<Observation>, after: seq<Observation>)
    requires Selection(rows, asOf, key, selected) && InOrderOfAppearance(rows, asOf, key, selected)
    requires SourcesGrow(selected, row, after)
    ensures InOrderOfAppearance(rows + [row], asOf, key, after)
  {
    forall i, j | 0 <= i < j < |after|
      ensures SeenBefore(rows + [row], asOf, key, after[i].source, after[j].source)
    {
      PairInOrder(rows, row, asOf, key, selected, after, i, j);
    }
  }

  lemma {:induction false} SelectedInOrder(rows: seq<Observation>, asOf: int, key: ActionKey)
    ensures InOrderOfAppearance(rows, asOf, key, LatestBySource(Group(rows, asOf, key)))
  {
    if rows != [] {
      var n := |rows| - 1;
      var earlier, all := Group(rows[..n], asOf, key), Group(rows, asOf, key);
      SelectedInOrder(rows[..n], asOf, key);
      SelectedExactly(rows[..n], asOf, key);
      assert rows == rows[..n] + [rows[n]];
      assert all == earlier || (all == earlier + [rows[n]] && all[..|earlier|] == earlier);
      SupersedeGrows(LatestBySource(earlier), rows[n]);
      OrderStep(rows[..n], rows[n], asOf, key, LatestBySource(earlier), LatestBySource(all));
    }
  }

  // ---------- the whole list ----------

  /** An action of the list and the rows it was decided from. */
  ghost predicate DecidedFrom(a: Action, selected: seq<Observation>) {
    var rows := set r | r in selected;
    && a.sourceCount == |selected|
    && |a.sourceEventIds| == |selected|
    && (forall i :: 0 <= i < |selected| ==> a.sourceEventIds[i] == selected[i].id)
    && StateIs(a, rows)
    && TermsAre(a, rows)
    && FactorIs(a, rows)
  }

  lemma {:induction false} ActionFromSelection(key: ActionKey, selected: seq<Observation>)
    requires selected != []
    ensures DecideOn(key, selected).key == key && DecidedFrom(DecideOn(key, selected), selected)
  {
    assert selected[0] in MembersOf(selected);
    assert MembersOf(selected) == set r | r in selected;
    StateExactly(key, MembersOf(selected), IdsOf(selected), |selected|);
    TermsExactly(key, MembersOf(selected), IdsOf(selected), |selected|);
    FactorExactly(key, MembersOf(selected), IdsOf(selected), |selected|);
  }

  lemma {:induction false} CountsExactly(rows: seq<Observation>, asOf: int, key: ActionKey)
    ensures key in Keys(rows, asOf) <==> exists r :: r in rows && Counts(r, asOf, key)
  {
    KeysMembers(rows, asOf, key);
    assert forall r :: Counts(r, asOf, key) <==> Admitted(r, asOf) && KeyOf(r) == key;
  }

  /**
   Every action of the list comes from the selected rows of its own key: the newest row of each source that was
   parsed by the cutoff, in the order in which the sources appear.  Its state, terms, factor, event ids and source
   count are what those rows say.
   */
  lemma {:induction false} ReconciledExactly(rows: seq<Observation>, asOf: int, a: Action)
    returns (selected: seq<Observation>)
    requires a in Reconcile(rows, asOf)
    ensures selected != [] && Selection(rows, asOf, a.key, selected)
    ensures InOrderOfAppearance(rows, asOf, a.key, selected)
    ensures DecidedFrom(a, selected)
  {
    var keys := SortDistinct(KeyLe, Keys(rows, asOf));
    var out := Reconcile(rows, asOf);
    var i :| 0 <= i < |out| && out[i] == a;
    DecideEachAt(keys, rows, asOf, i);
    selected := LatestBySource(Group(rows, asOf, keys[i]));
    SelectedExactly(rows, asOf, keys[i]);
    SelectedInOrder(rows, asOf, keys[i]);
    KeyLeIsTotal();
    SortDistinctIsSorted(KeyLe, Keys(rows, asOf));
    assert keys[i] in keys;
    CountsExactly(rows, asOf, keys[i]);
    var r :| r in rows && Counts(r, asOf, keys[i]);
    var k :| 0 <= k < |rows| && rows[k] == r;
    assert HasSource(selected, rows[k].source);
    ActionFromSelection(keys[i], selected);
  }

  /** There is an action for a key exactly when some row counts for it. */
  lemma {:induction false} ActionExistsExactly(rows: seq<Observation>, asOf: int, key: ActionKey)
    ensures (exists a :: a in Reconcile(rows, asOf) && a.key == key) <==>
            exists r :: r in rows && Counts(r, asOf, key)
  {
    var keys, out := SortDistinct(KeyLe, Keys(rows, asOf)), Reconcile(rows, asOf);
    KeyLeIsTotal();
    SortDistinctIsSorted(KeyLe, Keys(rows, asOf));
    CountsExactly(rows, asOf, key);
    if key in Keys(rows, asOf) {
      var i :| 0 <= i < |keys| && keys[i] == key;
      ReconciledActions.EntryOfKey(rows, asOf, i);
      assert out[i] in out && out[i].key == key;
    }
    if a :| a in out && a.key == key {
      var i :| 0 <= i < |out| && out[i] == a;
      ReconciledActions.EntryOfKey(rows, asOf, i);
      assert keys[i] in keys;
    }
  }

  // ---------- the order of the list ----------

  function ClassName(c: ActionClass): string {
    match c
    case Split => "SPLIT"
    case Bonus => "BONUS"
    case Dividend => "DIVIDEND"
    case Rights => "RIGHTS"
    case Merger => "MERGER"
    case Demerger => "DEMERGER"
    case Other => "OTHER"
  }

  lemma {:induction false} RankFollowsName(a: ActionClass, b: ActionClass)
    requires ClassRank(a) < ClassRank(b)
    ensures Ascending(ClassName(a), ClassName(b))
  {
    var x, y := ClassName(a), ClassName(b);
    if x[0] == y[0] {
      assert x[1] < y[1] && x[..1] == [x[0]] && y[..1] == [y[0]];
    } else {
      assert x[0] < y[0] && x[..0] == y[..0];
    }
  }

  /** The list is in ascending order of symbol, then class name, then effective date, each key at most once. */
  lemma {:induction false} ListIsAscending(rows: seq<Observation>, asOf: int, i: nat, j: nat)
    requires i < j < |Reconcile(rows, asOf)|
    ensures var a, b := Reconcile(rows, asOf)[i].key, Reconcile(rows, asOf)[j].key;
      && a != b
      && Ascending(a.symbol, b.symbol)
      && (a.symbol == b.symbol ==> Ascending(ClassName(a.actionClass), ClassName(b.actionClass)))
      && (a.symbol == b.symbol && a.actionClass == b.actionClass ==> a.effectiveDate < b.effectiveDate)
  {
    var keys := SortDistinct(KeyLe, Keys(rows, asOf));
    KeyLeIsTotal();
    SortDistinctIsSorted(KeyLe, Keys(rows, asOf));
    ReconciledActions.EntryOfKey(rows, asOf, i);
    ReconciledActions.EntryOfKey(rows, asOf, j);
    var a, b := keys[i], keys[j];
    assert KeyLe(a, b) && a != b;
    if a.symbol != b.symbol {
      StringLeIsAscending(a.symbol, b.symbol);
    } else if a.actionClass != b.actionClass {
      RankFollowsName(a.actionClass, b.actionClass);
    }
  }
}
