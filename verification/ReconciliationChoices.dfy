/**
 Rows of one source that tie for the latest parse time leave the reconciliation a choice.  Whatever the order of the
 rows, what is selected is a choice, and every choice is what some order selects.
 */
module ReconciliationChoices {
  import opened Ordering
  import opened Reconciliation
  import opened ReconciliationLaws

  // ---------- choices ----------

  /** One newest row for each source of the observations. */
  ghost predicate Choice(observations: seq<Observation>, selected: seq<Observation>) {
    && OneRowPerSource(selected)
    && (forall r :: r in selected ==> Newest(observations, r))
    && forall o :: o in observations ==> SourceIndex(selected, o.source).Some?
  }

  /** Whatever the order of the observations, the selection is a choice. */
  lemma {:induction false} SelectionIsChoice(observations: seq<Observation>, p: seq<Observation>)
    requires Timed(observations) && SameMembers(observations, p)
    ensures Choice(observations, LatestBySource(p))
  {
    LatestCovers(p);
    forall r | r in LatestBySource(p) ensures Newest(observations, r) {
      SelectedIsNewest(p, r);
    }
    forall o | o in observations ensures SourceIndex(LatestBySource(p), o.source).Some? {
      assert HasNotOlder(LatestBySource(p), o);
    }
  }

  lemma {:induction false} SupersedeKeeps(latest: seq<Observation>, i: nat, next: Observation)
    requires i < |latest| && next.source != latest[i].source
    ensures latest[i] in Supersede(latest, next)
  {
    assert Supersede(latest, next)[i] == latest[i];
  }

  /** A selected row stays selected while rows of other sources follow. */
  lemma {:induction false} StaysSelected(observations: seq<Observation>, r: Observation, next: Observation)
    requires r in LatestBySource(observations) && next.source != r.source
    ensures r in LatestBySource(observations + [next])
  {
    var latest := LatestBySource(observations);
    var i :| 0 <= i < |latest| && latest[i] == r;
    SupersedeKeeps(latest, i, next);
  }

  /** A choice listed after everything else is what gets selected. */
  lemma {:induction false} ListedLastIsSelected(rest: seq<Observation>, chosen: seq<Observation>)
    requires Timed(rest + chosen) && OneRowPerSource(chosen)
    requires forall r, o :: r in chosen && o in rest && o.source == r.source ==> NotOlder(r, o)
    ensures forall r :: r in chosen ==> r in LatestBySource(rest + chosen)
  {
    if chosen != [] {
      var front, last := chosen[..|chosen| - 1], chosen[|chosen| - 1];
      assert chosen == front + [last];
      assert rest + chosen == (rest + front) + [last];
      assert forall o :: o in rest + front ==> o in rest + chosen;
      assert last in rest + chosen;
      ListedLastIsSelected(rest, front);
      LastNewestWins(rest + front, last);
      forall r | r in front ensures r in LatestBySource(rest + chosen) {
        StaysSelected(rest + front, r, last);
      }
    }
  }

  lemma {:induction false} LastIsLeft(observations: seq<Observation>, front: seq<Observation>, last: Observation,
                                      wider: seq<Observation>)
    requires OneRowPerSource(front + [last]) && last in observations
    requires multiset(wider) + multiset(front) == multiset(observations)
    ensures last in wider
  {
    forall i | 0 <= i < |front| ensures front[i] != last {
      assert (front + [last])[i] == front[i] && (front + [last])[|front|] == last;
    }
    assert last in multiset(observations) && last !in multiset(front);
    assert last in multiset(wider);
  }

  /** The observations without one occurrence of each chosen row. */
  lemma {:induction false} SetAside(observations: seq<Observation>, chosen: seq<Observation>)
    returns (rest: seq<Observation>)
    requires OneRowPerSource(chosen) && forall r :: r in chosen ==> r in observations
    ensures multiset(rest) + multiset(chosen) == multiset(observations)
  {
    if chosen == [] {
      rest := observations;
    } else {
      var front, last := chosen[..|chosen| - 1], chosen[|chosen| - 1];
      assert chosen == front + [last];
      var wider := SetAside(observations, front);
      LastIsLeft(observations, front, last, wider);
      var i :| 0 <= i < |wider| && wider[i] == last;
      rest := wider[..i] + wider[i + 1..];
      RemoveAt(wider, i);
      assert multiset(chosen) == multiset(front) + multiset{last};
    }
  }

  lemma {:induction false} ChoiceHoldsSelection(observations: seq<Observation>, chosen: seq<Observation>,
                                                selected: seq<Observation>)
    requires Choice(observations, chosen) && Choice(observations, selected)
    requires forall r :: r in chosen ==> r in selected
    ensures SameMembers(selected, chosen)
  {
    forall r | r in selected ensures r in chosen {
      assert Newest(observations, r);
      var i := SourceIndex(chosen, r.source).value;
      assert chosen[i] in selected;
    }
  }

  /** Every choice is made by some order of the rows. */
  lemma {:induction false} ChoiceIsMade(observations: seq<Observation>, chosen: seq<Observation>)
    returns (p: seq<Observation>)
    requires Timed(observations) && Choice(observations, chosen)
    ensures multiset(p) == multiset(observations)
    ensures SameMembers(LatestBySource(p), chosen)
  {
    assert forall r :: r in chosen ==> Newest(observations, r);
    var rest := SetAside(observations, chosen);
    p := rest + chosen;
    PermutationHasSameMembers(observations, p);
    assert forall o :: o in rest ==> o in p;
    ListedLastIsSelected(rest, chosen);
    SelectionIsChoice(observations, p);
    ChoiceHoldsSelection(observations, chosen, LatestBySource(p));
  }

}
