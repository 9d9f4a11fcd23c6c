/** What reconciliation promises: order independence, point-in-time cutoff, and actions the price model can use. */
module ReconciliationLaws {
  import opened Common
  import opened Ordering
  import opened CorporateActions
  import opened Reconciliation

  // ---------- membership ----------

  lemma {:induction false} KeysMembers(rows: seq<Observation>, asOf: int, k: ActionKey)
    ensures k in Keys(rows, asOf) <==> exists r :: r in rows && Admitted(r, asOf) && KeyOf(r) == k
  {
    if rows != [] {
      var n := |rows| - 1;
      KeysMembers(rows[..n], asOf, k);
      assert forall r :: r in rows <==> r in rows[..n] || r == rows[n];
    }
  }

  lemma {:induction false} GroupMembers(rows: seq<Observation>, asOf: int, k: ActionKey, r: Observation)
    ensures r in Group(rows, asOf, k) <==> r in rows && Admitted(r, asOf) && KeyOf(r) == k
  {
    if rows != [] {
      var n := |rows| - 1;
      GroupMembers(rows[..n], asOf, k, r);
      assert r in rows <==> r in rows[..n] || r == rows[n];
    }
  }

  // ---------- the latest row of each source ----------

  ghost predicate Timed(observations: seq<Observation>) {
    forall o :: o in observations ==> o.parsedAt.Some?
  }

  lemma {:induction false} GroupIsTimed(rows: seq<Observation>, asOf: int, k: ActionKey)
    ensures Timed(Group(rows, asOf, k))
  {
    forall o | o in Group(rows, asOf, k) ensures o.parsedAt.Some? {
      GroupMembers(rows, asOf, k, o);
    }
  }

  ghost predicate OneRowPerSource(latest: seq<Observation>) {
    forall i, j :: 0 <= i < j < |latest| ==> latest[i].source != latest[j].source
  }

  predicate HasNotOlder(latest: seq<Observation>, o: Observation) {
    var i := SourceIndex(latest, o.source);
    i.Some? && NotOlder(latest[i.value], o)
  }

  /** `latest` holds one row per source, none older than any observation of its source. */
  ghost predicate Covers(observations: seq<Observation>, latest: seq<Observation>) {
    && OneRowPerSource(latest)
    && (forall i :: 0 <= i < |latest| ==> latest[i] in observations)
    && forall o :: o in observations ==> HasNotOlder(latest, o)
  }

  lemma {:induction false} LatestCovers(observations: seq<Observation>)
    requires Timed(observations)
    ensures Covers(observations, LatestBySource(observations))
  {
    if observations != [] {
      var n := |observations| - 1;
      assert forall o :: o in observations[..n] ==> o in observations;
      LatestCovers(observations[..n]);
      SupersedeCovers(observations[..n], LatestBySource(observations[..n]), observations[n]);
      assert observations == observations[..n] + [observations[n]];
    }
  }

  lemma {:induction false} SourceIndexIs(latest: seq<Observation>, i: nat)
    requires OneRowPerSource(latest) && i < |latest|
    ensures SourceIndex(latest, latest[i].source) == Some(i)
  {
  }

  lemma {:induction false} SupersedeCovers(observations: seq<Observation>, latest: seq<Observation>, row: Observation)
    requires Timed(observations) && row.parsedAt.Some? && Covers(observations, latest)
    ensures Covers(observations + [row], Supersede(latest, row))
  {
    var after := Supersede(latest, row);
    var position := SourceIndex(latest, row.source);
    assert OneRowPerSource(after);
    if position.Some? {
      assert latest[position.value] in observations;
    }
    forall o | o in observations + [row] ensures HasNotOlder(after, o) {
      var i := if o in observations then SourceIndex(latest, o.source) else position;
      if i.Some? {
        SourceIndexIs(after, i.value);
      } else {
        SourceIndexIs(after, |latest|);
      }
    }
  }

  ghost predicate Newest(observations: seq<Observation>, r: Observation) {
    r in observations && forall o :: o in observations && o.source == r.source ==> NotOlder(r, o)
  }

  /** No two different rows of one source tie for the latest parse time. */
  ghost predicate OneNewest(observations: seq<Observation>) {
    forall r, o :: Newest(observations, r) && Newest(observations, o) && r.source == o.source ==> r == o
  }

  lemma {:induction false} SelectedIsNewest(observations: seq<Observation>, r: Observation)
    requires Timed(observations) && r in LatestBySource(observations)
    ensures Newest(observations, r)
  {
    var latest := LatestBySource(observations);
    LatestCovers(observations);
    var i :| 0 <= i < |latest| && latest[i] == r;
    SourceIndexIs(latest, i);
    forall o | o in observations && o.source == r.source ensures NotOlder(r, o) {
      assert HasNotOlder(latest, o);
    }
  }

  lemma {:induction false} NewestIsSelected(observations: seq<Observation>, r: Observation)
    requires Timed(observations) && OneNewest(observations) && Newest(observations, r)
    ensures r in LatestBySource(observations)
  {
    LatestCovers(observations);
    var latest := LatestBySource(observations);
    assert HasNotOlder(latest, r);
    var i := SourceIndex(latest, r.source).value;
    assert latest[i] in latest;
    SelectedIsNewest(observations, latest[i]);
  }

  lemma {:induction false} LatestIsDistinct(observations: seq<Observation>)
    requires Timed(observations)
    ensures Distinct(LatestBySource(observations))
  {
    LatestCovers(observations);
  }

  /** The selected rows depend on the set of observations only. */
  lemma {:induction false} SelectionIgnoresOrder(s: seq<Observation>, t: seq<Observation>)
    requires Timed(s) && SameMembers(s, t) && OneNewest(s)
    ensures SameMembers(LatestBySource(s), LatestBySource(t))
  {
    assert forall r :: Newest(t, r) ==> Newest(s, r);
    assert OneNewest(t);
    forall r | r in LatestBySource(s) ensures r in LatestBySource(t) {
      SelectedIsNewest(s, r);
      NewestIsSelected(t, r);
    }
    forall r | r in LatestBySource(t) ensures r in LatestBySource(s) {
      SelectedIsNewest(t, r);
      NewestIsSelected(s, r);
    }
  }

  lemma {:induction false} LastNewestWins(observations: seq<Observation>, r: Observation)
    requires Timed(observations) && r.parsedAt.Some?
    requires forall o :: o in observations && o.source == r.source ==> NotOlder(r, o)
    ensures r in LatestBySource(observations + [r])
  {
    LatestCovers(observations);
    var latest := LatestBySource(observations);
    assert (observations + [r])[..|observations|] == observations;
    var i := SourceIndex(latest, r.source);
    if i.Some? {
      assert latest[i.value] in observations;
      assert Supersede(latest, r)[i.value] == r;
    } else {
      assert Supersede(latest, r)[|latest|] == r;
    }
  }

  lemma {:induction false} MovedLast(observations: seq<Observation>, r: Observation) returns (p: seq<Observation>)
    requires Timed(observations) && Newest(observations, r)
    ensures multiset(p) == multiset(observations)
    ensures r in LatestBySource(p)
  {
    var i :| 0 <= i < |observations| && observations[i] == r;
    var rest := observations[..i] + observations[i + 1..];
    assert observations == observations[..i] + [r] + observations[i + 1..];
    p := rest + [r];
    assert forall o :: o in rest ==> o in observations;
    LastNewestWins(rest, r);
  }

  lemma {:induction false} TiedNewestAreNotBothSelected(observations: seq<Observation>, r: Observation, o: Observation)
    requires Timed(observations) && r.source == o.source && r != o
    ensures !(r in LatestBySource(observations) && o in LatestBySource(observations))
  {
    LatestCovers(observations);
  }

  lemma {:induction false} TieDependsOnOrder(observations: seq<Observation>, r: Observation, o: Observation)
    requires Timed(observations)
    requires Newest(observations, r) && Newest(observations, o) && r.source == o.source && r != o
    ensures exists p :: multiset(p) == multiset(observations)
                        && !SameMembers(LatestBySource(p), LatestBySource(observations))
  {
    TiedNewestAreNotBothSelected(observations, r, o);
    var p := MovedLast(observations, if r in LatestBySource(observations) then o else r);
  }

  /**
   The tie condition is exact: every ordering of the same rows selects the same rows if and only if no two
   different rows of one source tie for the latest parse time.
   */
  lemma {:induction false} SelectionIgnoresOrderExactly(observations: seq<Observation>)
    requires Timed(observations)
    ensures OneNewest(observations) <==>
      forall p :: multiset(p) == multiset(observations) ==>
        SameMembers(LatestBySource(p), LatestBySource(observations))
  {
    if OneNewest(observations) {
      forall p | multiset(p) == multiset(observations)
        ensures SameMembers(LatestBySource(p), LatestBySource(observations))
      {
        PermutationHasSameMembers(observations, p);
        SelectionIgnoresOrder(observations, p);
      }
    } else {
      var r, o :| Newest(observations, r) && Newest(observations, o) && r.source == o.source && r != o;
      TieDependsOnOrder(observations, r, o);
    }
  }

  lemma {:induction false} PermutationHasSameMembers<T>(s: seq<T>, t: seq<T>)
    requires multiset(s) == multiset(t)
    ensures SameMembers(s, t)
  {
    forall x ensures x in s <==> x in t {
      assert x in s <==> x in multiset(s);
      assert x in t <==> x in multiset(t);
    }
  }

  // ---------- order independence ----------

  predicate SameUpToIdOrder(a: Action, b: Action) {
    && a == b.(sourceEventIds := a.sourceEventIds)
    && multiset(a.sourceEventIds) == multiset(b.sourceEventIds)
  }

  lemma {:induction false} DecisionDependsOnMembers(key: ActionKey, s: seq<Observation>, t: seq<Observation>)
    requires Distinct(s) && Distinct(t) && SameMembers(s, t)
    ensures SameUpToIdOrder(DecideOn(key, s), DecideOn(key, t))
  {
    DistinctMembersGiveMultiset(s, t);
    MapSeqPermutation((r: Observation) => r.id, s, t);
    assert MembersOf(s) == MembersOf(t);
  }

  lemma {:induction false} ActionIgnoresOrder(key: ActionKey, s: seq<Observation>, t: seq<Observation>)
    requires Timed(s) && SameMembers(s, t) && OneNewest(s)
    ensures SameUpToIdOrder(ActionFor(key, s), ActionFor(key, t))
  {
    SelectionIgnoresOrder(s, t);
    LatestIsDistinct(s);
    LatestIsDistinct(t);
    DecisionDependsOnMembers(key, LatestBySource(s), LatestBySource(t));
  }

  lemma {:induction false} DecisionIgnoresOrder(k: ActionKey, rows: seq<Observation>, others: seq<Observation>,
                                                asOf: int)
    requires SameMembers(rows, others) && OneNewest(Group(rows, asOf, k))
    ensures SameUpToIdOrder(ActionFor(k, Group(rows, asOf, k)), ActionFor(k, Group(others, asOf, k)))
  {
    forall r ensures r in Group(rows, asOf, k) <==> r in Group(others, asOf, k) {
      GroupMembers(rows, asOf, k, r);
      GroupMembers(others, asOf, k, r);
    }
    GroupIsTimed(rows, asOf, k);
    ActionIgnoresOrder(k, Group(rows, asOf, k), Group(others, asOf, k));
  }

  /**
   The result depends on the set of rows: neither their order nor repeated deliveries of a row change an action,
   a state, a factor or a term.  Only source event ids may come in another order.
   */
  lemma {:induction false} ReconcileIgnoresOrder(rows: seq<Observation>, others: seq<Observation>, asOf: int)
    requires SameMembers(rows, others)
    requires forall k :: OneNewest(Group(rows, asOf, k))
    ensures |Reconcile(rows, asOf)| == |Reconcile(others, asOf)|
    ensures forall i :: 0 <= i < |Reconcile(rows, asOf)| ==>
              SameUpToIdOrder(Reconcile(rows, asOf)[i], Reconcile(others, asOf)[i])
  {
    forall k ensures k in Keys(rows, asOf) <==> k in Keys(others, asOf) {
      KeysMembers(rows, asOf, k);
      KeysMembers(others, asOf, k);
    }
    KeyLeIsTotal();
    SortDistinctDependsOnMembers(KeyLe, Keys(rows, asOf), Keys(others, asOf));
    var keys := SortDistinct(KeyLe, Keys(rows, asOf));
    forall i | 0 <= i < |keys|
      ensures SameUpToIdOrder(DecideEach(keys, rows, asOf)[i], DecideEach(keys, others, asOf)[i])
    {
      DecideEachAt(keys, rows, asOf, i);
      DecideEachAt(keys, others, asOf, i);
      DecisionIgnoresOrder(keys[i], rows, others, asOf);
    }
  }

  // ---------- point in time ----------

  lemma {:induction false} GroupConcat(s: seq<Observation>, t: seq<Observation>, asOf: int, k: ActionKey)
    ensures Group(s + t, asOf, k) == Group(s, asOf, k) + Group(t, asOf, k)
  {
    if t == [] {
      assert s + t == s;
    } else {
      var n := |t| - 1;
      assert (s + t)[..|s + t| - 1] == s + t[..n];
      GroupConcat(s, t[..n], asOf, k);
    }
  }

  lemma {:induction false} KeysConcat(s: seq<Observation>, t: seq<Observation>, asOf: int)
    ensures Keys(s + t, asOf) == Keys(s, asOf) + Keys(t, asOf)
  {
    if t == [] {
      assert s + t == s;
    } else {
      var n := |t| - 1;
      assert (s + t)[..|s + t| - 1] == s + t[..n];
      KeysConcat(s, t[..n], asOf);
    }
  }

  lemma {:induction false} DecisionsDependOnGroups(keys: seq<ActionKey>, s: seq<Observation>, t: seq<Observation>,
                                                   asOf: int)
    requires forall k :: Group(s, asOf, k) == Group(t, asOf, k)
    ensures DecideEach(keys, s, asOf) == DecideEach(keys, t, asOf)
  {
    if keys != [] {
      DecisionsDependOnGroups(keys[..|keys| - 1], s, t, asOf);
    }
  }

  /** A row parsed after the cutoff, or without parse time, symbol or date, has no influence on anything. */
  lemma {:induction false} UnadmittedRowIsInvisible(before: seq<Observation>, row: Observation,
                                                    rest: seq<Observation>, asOf: int)
    requires !Admitted(row, asOf)
    ensures Reconcile(before + [row] + rest, asOf) == Reconcile(before + rest, asOf)
  {
    assert [row][..0] == [];
    KeysConcat(before + [row], rest, asOf);
    KeysConcat(before, [row], asOf);
    KeysConcat(before, rest, asOf);
    assert Keys(before + [row] + rest, asOf) == Keys(before + rest, asOf);
    forall k ensures Group(before + [row] + rest, asOf, k) == Group(before + rest, asOf, k) {
      GroupConcat(before + [row], rest, asOf, k);
      GroupConcat(before, [row], asOf, k);
      GroupConcat(before, rest, asOf, k);
      assert Group([row], asOf, k) == [];
    }
    DecisionsDependOnGroups(SortDistinct(KeyLe, Keys(before + rest, asOf)), before + [row] + rest, before + rest, asOf);
  }
}
