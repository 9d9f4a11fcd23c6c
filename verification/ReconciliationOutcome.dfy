/** Exactly when an action is cancelled, in conflict, or authorised to rewrite prices, and what its factor means. */
module ReconciliationOutcome {
  import opened Common
  import opened Products
  import opened CorporateActions
  import opened Reconciliation
  import opened ReconciledActions

  predicate Differ<T(==)>(x: Option<T>, y: Option<T>) {
    x.Some? && y.Some? && x != y
  }

  /** The complete ratio of a row: both terms present and positive. */
  function RatioOf(row: Observation): Option<(real, real)> {
    var t := TermsOf(row);
    if t.numerator.Some? && t.denominator.Some? then Some((t.numerator.value, t.denominator.value)) else None
  }

  /** Two rows that both state a term, and state it differently. */
  predicate Disagree(r: Observation, o: Observation) {
    || Differ(RatioOf(r), RatioOf(o))
    || Differ(Positive(r.cashAmount), Positive(o.cashAmount))
    || Differ(Positive(r.offerPrice), Positive(o.offerPrice))
    || Differ(Positive(r.adjustmentFactor), Positive(o.adjustmentFactor))
    || Differ(r.predecessor, o.predecessor)
    || Differ(r.successor, o.successor)
    || Differ(r.continuity, o.continuity)
  }

  ghost predicate SomeDisagree(rows: set<Observation>) {
    exists r, o :: r in rows && o in rows && Disagree(r, o)
  }

  lemma {:induction false} TwoMembers<T>(s: set<T>) returns (x: T, y: T)
    requires |s| > 1
    ensures x in s && y in s && x != y
  {
    x :| x in s;
    var rest := s - {x};
    assert |rest| == |s| - 1;
    y :| y in rest;
  }

  lemma {:induction false} RatioConflict(actionClass: ActionClass, rows: set<Observation>)
    requires var terms := set r | r in rows :: TermsOf(r);
      |Factors(actionClass, terms)| > 1 || |RatioTerms(terms)| > 1
    ensures SomeDisagree(rows)
  {
    var terms := set r | r in rows :: TermsOf(r);
    if |RatioTerms(terms)| > 1 {
      var x, y := TwoMembers(RatioTerms(terms));
      var r :| r in rows && RatioOf(r) == Some(x);
      var o :| o in rows && RatioOf(o) == Some(y);
      assert Disagree(r, o);
    } else {
      var x, y := TwoMembers(Factors(actionClass, terms));
      var r :| r in rows && RatioFactor(actionClass, TermsOf(r).numerator, TermsOf(r).denominator) == Some(x);
      var o :| o in rows && RatioFactor(actionClass, TermsOf(o).numerator, TermsOf(o).denominator) == Some(y);
      assert Disagree(r, o);
    }
  }

  lemma {:induction false} AmountConflict(rows: set<Observation>)
    requires var terms := set r | r in rows :: TermsOf(r);
      |CashValues(terms)| > 1 || |OfferValues(terms)| > 1
    ensures SomeDisagree(rows)
  {
    var terms := set r | r in rows :: TermsOf(r);
    if |CashValues(terms)| > 1 {
      var x, y := TwoMembers(CashValues(terms));
      var r :| r in rows && TermsOf(r).cash == Some(x);
      var o :| o in rows && TermsOf(o).cash == Some(y);
      assert Disagree(r, o);
    } else {
      var x, y := TwoMembers(OfferValues(terms));
      var r :| r in rows && TermsOf(r).offer == Some(x);
      var o :| o in rows && TermsOf(o).offer == Some(y);
      assert Disagree(r, o);
    }
  }

  lemma {:induction false} ConflictHasDisagreement(actionClass: ActionClass, rows: set<Observation>)
    requires Agree(actionClass, rows).conflict
    ensures SomeDisagree(rows)
  {
    var terms := set r | r in rows :: TermsOf(r);
    if |Factors(actionClass, terms)| > 1 || |RatioTerms(terms)| > 1 {
      RatioConflict(actionClass, rows);
    } else if |CashValues(terms)| > 1 || |OfferValues(terms)| > 1 {
      AmountConflict(rows);
    } else {
      StatedConflict(rows);
    }
  }

  lemma {:induction false} StatedConflict(rows: set<Observation>)
    requires |ExplicitFactors(rows)| > 1 || |Predecessors(rows)| > 1 || |Successors(rows)| > 1
             || |Continuities(rows)| > 1
    ensures SomeDisagree(rows)
  {
    if |ExplicitFactors(rows)| > 1 {
      var x, y := TwoMembers(ExplicitFactors(rows));
      var r :| r in rows && Positive(r.adjustmentFactor) == Some(x);
      var o :| o in rows && Positive(o.adjustmentFactor) == Some(y);
      assert Disagree(r, o);
    } else if |Predecessors(rows)| > 1 {
      var x, y := TwoMembers(Predecessors(rows));
      var r :| r in rows && r.predecessor == Some(x);
      var o :| o in rows && o.predecessor == Some(y);
      assert Disagree(r, o);
    } else if |Successors(rows)| > 1 {
      var x, y := TwoMembers(Successors(rows));
      var r :| r in rows && r.successor == Some(x);
      var o :| o in rows && o.successor == Some(y);
      assert Disagree(r, o);
    } else {
      var x, y := TwoMembers(Continuities(rows));
      var r :| r in rows && r.continuity == Some(x);
      var o :| o in rows && o.continuity == Some(y);
      assert Disagree(r, o);
    }
  }

  lemma {:induction false} DifferentMembers<T>(s: set<T>, x: T, y: T)
    requires x in s && y in s && x != y
    ensures |s| > 1
  {
    assert x in s - {y};
    assert |s - {y}| == |s| - 1;
  }

  lemma {:induction false} DisagreementIsConflict(actionClass: ActionClass, rows: set<Observation>, r: Observation,
                                                  o: Observation)
    requires r in rows && o in rows && Disagree(r, o)
    ensures Agree(actionClass, rows).conflict
  {
    var terms := set x | x in rows :: TermsOf(x);
    assert TermsOf(r) in terms && TermsOf(o) in terms;
    if Differ(RatioOf(r), RatioOf(o)) {
      DifferentMembers(RatioTerms(terms), RatioOf(r).value, RatioOf(o).value);
    } else if Differ(Positive(r.cashAmount), Positive(o.cashAmount)) {
      DifferentMembers(CashValues(terms), Positive(r.cashAmount).value, Positive(o.cashAmount).value);
    } else if Differ(Positive(r.offerPrice), Positive(o.offerPrice)) {
      DifferentMembers(OfferValues(terms), Positive(r.offerPrice).value, Positive(o.offerPrice).value);
    } else if Differ(Positive(r.adjustmentFactor), Positive(o.adjustmentFactor)) {
      DifferentMembers(ExplicitFactors(rows), Positive(r.adjustmentFactor).value, Positive(o.adjustmentFactor).value);
    } else if Differ(r.predecessor, o.predecessor) {
      DifferentMembers(Predecessors(rows), r.predecessor.value, o.predecessor.value);
    } else if Differ(r.successor, o.successor) {
      DifferentMembers(Successors(rows), r.successor.value, o.successor.value);
    } else {
      DifferentMembers(Continuities(rows), r.continuity.value, o.continuity.value);
    }
  }

  lemma {:induction false} RevisionsAre(rows: set<Observation>)
    requires rows != {}
    ensures Revisions(rows) == {CANCELLED} <==> forall r :: r in rows ==> r.revision == CANCELLED
    ensures CANCELLED in Revisions(rows) <==> exists r :: r in rows && r.revision == CANCELLED
  {
    var r :| r in rows;
    assert r.revision in Revisions(rows);
    if forall r :: r in rows ==> r.revision == CANCELLED {
      assert forall v :: v in Revisions(rows) ==> v == CANCELLED;
    }
    if Revisions(rows) == {CANCELLED} {
      forall r | r in rows ensures r.revision == CANCELLED {
        assert r.revision in Revisions(rows);
      }
    }
  }

  /**
   Fail closed, exactly: an action is cancelled when every selected source says so, and in conflict when only some
   do or when two sources state a term differently; in no other case.
   */
  lemma {:induction false} CancelledOrConflictExactly(key: ActionKey, rows: set<Observation>, ids: seq<int>, count: nat)
    requires rows != {}
    ensures Decide(key, rows, ids, count).state == Cancelled <==> forall r :: r in rows ==> r.revision == CANCELLED
    ensures Decide(key, rows, ids, count).state == Conflict <==>
      || ((exists r :: r in rows && r.revision == CANCELLED) && exists r :: r in rows && r.revision != CANCELLED)
      || ((forall r :: r in rows ==> r.revision != CANCELLED) && SomeDisagree(rows))
  {
    RevisionsAre(rows);
    if Agree(key.actionClass, rows).conflict {
      ConflictHasDisagreement(key.actionClass, rows);
    } else if SomeDisagree(rows) {
      var r, o :| r in rows && o in rows && Disagree(r, o);
      DisagreementIsConflict(key.actionClass, rows, r, o);
    }
  }

  // ---------- what a reconciled action stands for ----------

  /**
   A merger or demerger rewrites prices only on an explicit factor and confirmed continuity of the same symbol;
   a share-exchange ratio alone, or another symbol on either side, never does.
   */
  lemma {:induction false} ReconstructionIsAuthorised(key: ActionKey, rows: set<Observation>, ids: seq<int>, count: nat)
    requires key.actionClass == Merger || key.actionClass == Demerger
    requires Decide(key, rows, ids, count).state == Reconciled
    ensures var a := Decide(key, rows, ids, count);
      && a.adjustmentFactor.Some?
      && (exists r :: r in rows && Positive(r.adjustmentFactor) == a.adjustmentFactor)
      && (exists r :: r in rows && r.continuity == Some(true))
      && forall r :: r in rows ==>
           && (Positive(r.adjustmentFactor).Some? ==> Positive(r.adjustmentFactor) == a.adjustmentFactor)
           && (r.continuity.Some? ==> r.continuity.value)
           && (r.predecessor.Some? ==> r.predecessor.value == key.symbol)
           && (r.successor.Some? ==> r.successor.value == key.symbol)
  {
    var a := Agree(key.actionClass, rows);
    assert a.explicitFactor.value in ExplicitFactors(rows);
    assert true in Continuities(rows);
    forall r | r in rows
      ensures (Positive(r.adjustmentFactor).Some? ==> Positive(r.adjustmentFactor).value in ExplicitFactors(rows))
              && (r.continuity.Some? ==> r.continuity.value in Continuities(rows))
              && (r.predecessor.Some? ==> r.predecessor.value in Predecessors(rows))
              && (r.successor.Some? ==> r.successor.value in Successors(rows))
    {
    }
  }

  lemma {:induction false} FactorOfRatio(c: ActionClass, numerator: real, denominator: real)
    requires 0.0 < numerator && 0.0 < denominator
    ensures c == Split ==> RatioFactor(c, Some(numerator), Some(denominator)).Some?
                           && Times(RatioFactor(c, Some(numerator), Some(denominator)).value, numerator) == denominator
    ensures c == Bonus ==> RatioFactor(c, Some(numerator), Some(denominator)).Some?
                           && Times(RatioFactor(c, Some(numerator), Some(denominator)).value, numerator + denominator)
                              == denominator
  {
  }

  lemma {:induction false} SoleFactor(actionClass: ActionClass, rows: set<Observation>)
    requires actionClass == Split || actionClass == Bonus
    requires !Agree(actionClass, rows).conflict && Agree(actionClass, rows).factors != {}
    ensures var a := Agree(actionClass, rows);
      a.ratio.Some? && Sole(a.factors) == RatioFactor(actionClass, Some(a.ratio.value.0), Some(a.ratio.value.1))
      && 0.0 < a.ratio.value.0 && 0.0 < a.ratio.value.1
  {
    var a := Agree(actionClass, rows);
    AgreedTerms(actionClass, rows);
    NonEmptyHasSize(a.factors);
    var terms := set r | r in rows :: TermsOf(r);
    var f := Sole(a.factors).value;
    assert f in a.factors;
    var r :| r in rows && RatioFactor(actionClass, TermsOf(r).numerator, TermsOf(r).denominator) == Some(f);
    assert RatioOf(r).value in RatioTerms(terms);
    NonEmptyHasSize(RatioTerms(terms));
    assert RatioOf(r).value in {a.ratio.value};
  }

  /**
   The stored factor turns old share counts into new ones: a split of `d` shares into `n` has factor `d / n`, a
   bonus of `n` shares for every `d` held has factor `d / (n + d)`.
   */
  lemma {:induction false} FactorMatchesTerms(key: ActionKey, rows: set<Observation>, ids: seq<int>, count: nat)
    requires key.actionClass == Split || key.actionClass == Bonus
    requires Decide(key, rows, ids, count).state == Reconciled
    ensures var a := Decide(key, rows, ids, count);
      && a.adjustmentFactor.Some? && a.ratioNumerator.Some? && a.ratioDenominator.Some?
      && Times(a.adjustmentFactor.value,
               if key.actionClass == Split then a.ratioNumerator.value
               else a.ratioNumerator.value + a.ratioDenominator.value)
         == a.ratioDenominator.value
  {
    SoleFactor(key.actionClass, rows);
    var a := Agree(key.actionClass, rows);
    FactorOfRatio(key.actionClass, a.ratio.value.0, a.ratio.value.1);
  }
}
