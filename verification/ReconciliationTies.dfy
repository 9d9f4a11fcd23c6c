/** Ties between rows of one source: when they make the order of the rows matter, and an example. */
module ReconciliationTies {
  import opened Common
  import opened Ordering
  import opened Products
  import opened CorporateActions
  import opened Reconciliation
  import opened ReconciliationLaws
  import opened ReconciliationOutcome
  import opened ReconciliationChoices
  import opened ReconciliationOrder

  // ---------- ties and ids ----------

  ghost predicate IdsIdentify(rows: seq<Observation>) {
    forall r, o :: r in rows && o in rows && r.id == o.id ==> r == o
  }

  /** Without ties there is one choice, up to its order. */
  lemma {:induction false} NoTiesMeansAgreement(key: ActionKey, observations: seq<Observation>)
    requires OneNewest(observations)
    ensures ChoicesAgree(SameUpToIdOrder, key, observations)
  {
    forall s, t | Choice(observations, s) && Choice(observations, t)
      ensures SameUpToIdOrder(DecideOn(key, s), DecideOn(key, t))
    {
      DecisionDependsOnMembers(key, s, t);
    }
  }

  /** The newest row chosen for a source may be exchanged for another newest row of it. */
  lemma {:induction false} ExchangedChoice(observations: seq<Observation>, s: seq<Observation>, i: nat, r: Observation)
    requires Choice(observations, s) && i < |s| && Newest(observations, r) && r.source == s[i].source
    ensures Choice(observations, s[i := r])
  {
    var t := s[i := r];
    forall o | o in t ensures Newest(observations, o) {
      var j :| 0 <= j < |t| && t[j] == o;
      assert j == i || s[j] in s;
    }
    forall o | o in observations ensures SourceIndex(t, o.source).Some? {
      var j := SourceIndex(s, o.source).value;
      assert t[j].source == o.source;
    }
  }

  /** A tie between rows with different ids gives decisions with different ids. */
  lemma {:induction false} AgreementMeansNoTies(key: ActionKey, observations: seq<Observation>)
    requires Timed(observations) && IdsIdentify(observations) && ChoicesAgree(SameUpToIdOrder, key, observations)
    ensures OneNewest(observations)
  {
    var s := LatestBySource(observations);
    SelectionIsChoice(observations, observations);
    forall r, o | Newest(observations, r) && Newest(observations, o) && r.source == o.source ensures r == o {
      TiedIds(key, observations, s, r, o);
    }
  }

  lemma {:induction false} TiedIds(key: ActionKey, observations: seq<Observation>, s: seq<Observation>,
                                   r: Observation, o: Observation)
    requires ChoicesAgree(SameUpToIdOrder, key, observations) && Choice(observations, s)
    requires Newest(observations, r) && Newest(observations, o) && r.source == o.source
    ensures r.id == o.id
  {
    var i := SourceIndex(s, r.source).value;
    ExchangedChoice(observations, s, i, r);
    ExchangedChoice(observations, s, i, o);
    assert SameUpToIdOrder(DecideOn(key, s[i := r]), DecideOn(key, s[i := o]));
    ExchangedIds(s, i, r, o);
  }

  lemma {:induction false} ExchangedIds(s: seq<Observation>, i: nat, r: Observation, o: Observation)
    requires i < |s|
    ensures multiset(IdsOf(s[i := r])) == multiset(IdsOf(s[i := o])) ==> r.id == o.id
  {
    var ids := IdsOf(s);
    assert IdsOf(s[i := r]) == ids[i := r.id];
    assert IdsOf(s[i := o]) == ids[i := o.id];
    if r.id != o.id {
      assert multiset(ids[i := r.id])[r.id] == multiset(ids[i := o.id])[r.id] + 1;
    }
  }

  lemma {:induction false} GroupTies(rows: seq<Observation>, asOf: int, key: ActionKey)
    requires IdsIdentify(rows)
    ensures ChoicesAgree(SameUpToIdOrder, key, Group(rows, asOf, key)) <==> OneNewest(Group(rows, asOf, key))
  {
    var group := Group(rows, asOf, key);
    GroupIsTimed(rows, asOf, key);
    if OneNewest(group) {
      NoTiesMeansAgreement(key, group);
    }
    if ChoicesAgree(SameUpToIdOrder, key, group) {
      forall r | r in group ensures r in rows {
        GroupMembers(rows, asOf, key, r);
      }
      AgreementMeansNoTies(key, group);
    }
  }

  ghost predicate NoTies(rows: seq<Observation>, asOf: int) {
    forall k :: k in Keys(rows, asOf) ==> OneNewest(Group(rows, asOf, k))
  }

  lemma {:induction false} AgreementIsNoTies(rows: seq<Observation>, asOf: int)
    requires IdsIdentify(rows)
    ensures AllChoicesAgree(SameUpToIdOrder, rows, asOf) <==> NoTies(rows, asOf)
  {
    if NoTies(rows, asOf) {
      forall k | k in Keys(rows, asOf) ensures ChoicesAgree(SameUpToIdOrder, k, Group(rows, asOf, k)) {
        GroupTies(rows, asOf, k);
      }
    }
    if AllChoicesAgree(SameUpToIdOrder, rows, asOf) {
      forall k | k in Keys(rows, asOf) ensures OneNewest(Group(rows, asOf, k)) {
        GroupTies(rows, asOf, k);
      }
    }
  }

  /**
   When rows are told apart by their ids, the order of the rows changes no action, up to the order of its ids, if and
   only if no two different rows of one action and one source tie for the latest parse time.
   */
  lemma {:induction false} TiesMatterExactly(rows: seq<Observation>, asOf: int)
    requires IdsIdentify(rows)
    ensures EveryOrderGives(SameUpToIdOrder, rows, asOf) <==> NoTies(rows, asOf)
  {
    OrderIgnoredExactly(SameUpToIdOrder, rows, asOf);
    AgreementIsNoTies(rows, asOf);
  }

  // ---------- a tie that matters ----------

  function SplitRow(id: int, numerator: real): Observation {
    Observation(id, "nse", "ABC", Split, Some(10), Some(5), "NEW", Some(numerator), Some(1.0), None, None, None, None,
                None, None)
  }

  const SPLIT_KEY := ActionKey("ABC", Split, 10)

  predicate CompleteRatio(row: Observation) {
    && row.ratioNumerator.Some? && 0.0 < row.ratioNumerator.value
    && row.ratioDenominator.Some? && 0.0 < row.ratioDenominator.value
  }

  lemma {:induction false} LoneTerms(rows: set<Observation>, row: Observation)
    requires rows == {row} && CompleteRatio(row)
    ensures Agree(Split, rows).factors != {}
    ensures Agree(Split, rows).ratio == Some((row.ratioNumerator.value, row.ratioDenominator.value))
  {
    var terms := set r | r in rows :: TermsOf(r);
    assert TermsOf(row) in terms;
    assert RatioTerms(terms) == {(row.ratioNumerator.value, row.ratioDenominator.value)};
    assert RatioFactor(Split, row.ratioNumerator, row.ratioDenominator).value in Factors(Split, terms);
  }

  lemma {:induction false} LoneState(rows: set<Observation>, row: Observation)
    requires rows == {row} && CompleteRatio(row) && row.revision != CANCELLED
    ensures var a := Decide(SPLIT_KEY, rows, [row.id], 1);
      a.state == Reconciled && a.ratioNumerator == row.ratioNumerator && a.ratioDenominator == row.ratioDenominator
  {
    LoneTerms(rows, row);
    CancelledOrConflictExactly(SPLIT_KEY, rows, [row.id], 1);
    assert !SomeDisagree(rows);
  }

  /** A single row with a complete ratio decides a split. */
  lemma {:induction false} LoneSplit(row: Observation)
    requires CompleteRatio(row) && row.revision != CANCELLED
    ensures var a := DecideOn(SPLIT_KEY, [row]);
      && a.state == Reconciled && a.adjustmentFactor.Some?
      && Times(a.adjustmentFactor.value, row.ratioNumerator.value) == row.ratioDenominator.value
  {
    var rows := MembersOf([row]);
    assert rows == {row} && IdsOf([row]) == [row.id];
    LoneState(rows, row);
    FactorMatchesTerms(SPLIT_KEY, rows, [row.id], 1);
  }

  predicate IsSplitRow(row: Observation)
    requires row.ratioNumerator.Some?
  {
    row == SplitRow(row.id, row.ratioNumerator.value)
  }

  /** Of two split rows of one source and one parse time the later one in the list decides. */
  lemma {:induction false} LaterOfTwoDecides(first: Observation, second: Observation)
    requires first.ratioNumerator.Some? && second.ratioNumerator.Some? && IsSplitRow(first) && IsSplitRow(second)
    ensures Reconcile([first, second], 5) == [DecideOn(SPLIT_KEY, [second])]
  {
    var rows := [first, second];
    assert rows[..1] == [first] && [first][..0] == [];
    assert Admitted(first, 5) && Admitted(second, 5);
    assert Keys([first], 5) == [SPLIT_KEY];
    assert Keys(rows, 5) == [SPLIT_KEY] + [SPLIT_KEY];
    assert Group([first], 5, SPLIT_KEY) == [first];
    assert Group(rows, 5, SPLIT_KEY) == [first] + [second];
    assert LatestBySource([first]) == [first];
    assert LatestBySource(rows) == [second];
    assert SortDistinct(KeyLe, [SPLIT_KEY]) == [SPLIT_KEY];
    assert [SPLIT_KEY, SPLIT_KEY][1..] == [SPLIT_KEY];
    assert SortDistinct(KeyLe, [SPLIT_KEY, SPLIT_KEY]) == [SPLIT_KEY];
    assert [SPLIT_KEY][..0] == [];
  }

  lemma {:induction false} TiedFactor(first: Observation, second: Observation)
    requires first.ratioNumerator.Some? && second.ratioNumerator.Some? && IsSplitRow(first) && IsSplitRow(second)
    requires 0.0 < second.ratioNumerator.value
    ensures var r := Reconcile([first, second], 5);
      && |r| == 1 && r[0].state == Reconciled && r[0].adjustmentFactor.Some?
      && Times(r[0].adjustmentFactor.value, second.ratioNumerator.value) == 1.0
  {
    LaterOfTwoDecides(first, second);
    assert second.revision[0] != CANCELLED[0];
    LoneSplit(second);
  }

  /**
   One source, one parse time, two split ratios: no conflict is reported, and the factor is a half or a fifth as the
   order of the two rows has it.
   */
  lemma {:induction false} TiedSplitsDependOnOrder()
    ensures var s := Reconcile([SplitRow(2, 5.0), SplitRow(1, 2.0)], 5);
      |s| == 1 && s[0].state == Reconciled && s[0].adjustmentFactor == Some(0.5)
    ensures var t := Reconcile([SplitRow(1, 2.0), SplitRow(2, 5.0)], 5);
      |t| == 1 && t[0].state == Reconciled && t[0].adjustmentFactor == Some(0.2)
    ensures !EveryOrderGives(SameOutcome, [SplitRow(1, 2.0), SplitRow(2, 5.0)], 5)
  {
    var p, rows := [SplitRow(2, 5.0), SplitRow(1, 2.0)], [SplitRow(1, 2.0), SplitRow(2, 5.0)];
    TiedFactor(p[0], p[1]);
    TiedFactor(rows[0], rows[1]);
    assert p == [p[0], p[1]] && rows == [rows[0], rows[1]];
    assert multiset(p) == multiset(rows);
    assert !SameOutcome(Reconcile(p, 5)[0], Reconcile(rows, 5)[0]);
  }
}
