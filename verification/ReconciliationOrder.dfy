/**
 When the order of the rows matters: the result is the same for every order exactly when every choice of newest rows
 gives the same decision.
 */
module ReconciliationOrder {
  import opened Ordering
  import opened CorporateActions
  import opened Reconciliation
  import opened ReconciliationLaws
  import opened ReconciliationChoices

  // ---------- one action ----------

  /** Two actions that differ in their source event ids at most. */
  predicate SameOutcome(a: Action, b: Action) {
    a == b.(sourceEventIds := a.sourceEventIds)
  }

  /** An equivalence of actions that does not look at the order of the ids. */
  ghost predicate Equivalence(same: (Action, Action) -> bool) {
    && (forall a, b :: SameUpToIdOrder(a, b) ==> same(a, b))
    && (forall a, b :: same(a, b) ==> same(b, a))
    && (forall a, b, c :: same(a, b) && same(b, c) ==> same(a, c))
  }

  /** Every choice of newest rows gives the same decision. */
  ghost predicate ChoicesAgree(same: (Action, Action) -> bool, key: ActionKey, observations: seq<Observation>) {
    forall s, t :: Choice(observations, s) && Choice(observations, t) ==> same(DecideOn(key, s), DecideOn(key, t))
  }

  lemma {:induction false} AgreedChoicesIgnoreOrder(same: (Action, Action) -> bool, key: ActionKey,
                                                    observations: seq<Observation>, others: seq<Observation>)
    requires Timed(observations) && ChoicesAgree(same, key, observations) && SameMembers(observations, others)
    ensures same(ActionFor(key, others), ActionFor(key, observations))
  {
    SelectionIsChoice(observations, others);
    SelectionIsChoice(observations, observations);
  }

  /** The decision on a choice is, up to the order of ids, the action of some order of the rows. */
  lemma {:induction false} DecisionIsMade(key: ActionKey, observations: seq<Observation>, chosen: seq<Observation>)
    returns (p: seq<Observation>)
    requires Timed(observations) && Choice(observations, chosen)
    ensures multiset(p) == multiset(observations)
    ensures SameUpToIdOrder(DecideOn(key, chosen), ActionFor(key, p))
  {
    p := ChoiceIsMade(observations, chosen);
    PermutationHasSameMembers(observations, p);
    LatestIsDistinct(p);
    DecisionDependsOnMembers(key, chosen, LatestBySource(p));
  }

  /** Every order of the rows of a group gives the same action exactly when every choice gives the same decision. */
  lemma {:induction false} ActionIgnoresOrderExactly(same: (Action, Action) -> bool, key: ActionKey,
                                                     observations: seq<Observation>)
    requires Equivalence(same) && Timed(observations)
    ensures ChoicesAgree(same, key, observations) <==>
              forall p :: multiset(p) == multiset(observations) ==>
                same(ActionFor(key, p), ActionFor(key, observations))
  {
    if ChoicesAgree(same, key, observations) {
      forall p | multiset(p) == multiset(observations) ensures same(ActionFor(key, p), ActionFor(key, observations)) {
        PermutationHasSameMembers(observations, p);
        AgreedChoicesIgnoreOrder(same, key, observations, p);
      }
    }
    if forall p :: multiset(p) == multiset(observations) ==> same(ActionFor(key, p), ActionFor(key, observations)) {
      forall s, t | Choice(observations, s) && Choice(observations, t)
        ensures same(DecideOn(key, s), DecideOn(key, t))
      {
        var p := DecisionIsMade(key, observations, s);
        var q := DecisionIsMade(key, observations, t);
        assert same(ActionFor(key, p), ActionFor(key, observations));
        assert same(ActionFor(key, q), ActionFor(key, observations));
      }
    }
  }

  // ---------- the whole list ----------

  ghost predicate SameList(same: (Action, Action) -> bool, s: seq<Action>, t: seq<Action>) {
    |s| == |t| && forall i :: 0 <= i < |s| ==> same(s[i], t[i])
  }

  /** In every group, every choice of newest rows gives the same decision. */
  ghost predicate AllChoicesAgree(same: (Action, Action) -> bool, rows: seq<Observation>, asOf: int) {
    forall k :: k in Keys(rows, asOf) ==> ChoicesAgree(same, k, Group(rows, asOf, k))
  }

  lemma {:induction false} SameMembersSameKeys(rows: seq<Observation>, others: seq<Observation>, asOf: int)
    requires SameMembers(rows, others)
    ensures SortDistinct(KeyLe, Keys(rows, asOf)) == SortDistinct(KeyLe, Keys(others, asOf))
    ensures forall k :: SameMembers(Group(rows, asOf, k), Group(others, asOf, k))
  {
    forall k ensures k in Keys(rows, asOf) <==> k in Keys(others, asOf) {
      KeysMembers(rows, asOf, k);
      KeysMembers(others, asOf, k);
    }
    forall k, r ensures r in Group(rows, asOf, k) <==> r in Group(others, asOf, k) {
      GroupMembers(rows, asOf, k, r);
      GroupMembers(others, asOf, k, r);
    }
    KeyLeIsTotal();
    SortDistinctDependsOnMembers(KeyLe, Keys(rows, asOf), Keys(others, asOf));
  }

  /** If the choices agree, the result depends on the set of rows only. */
  lemma {:induction false} AgreedRowsIgnoreOrder(same: (Action, Action) -> bool, rows: seq<Observation>,
                                                 others: seq<Observation>, asOf: int)
    requires AllChoicesAgree(same, rows, asOf) && SameMembers(rows, others)
    ensures SameList(same, Reconcile(others, asOf), Reconcile(rows, asOf))
  {
    SameMembersSameKeys(rows, others, asOf);
    var keys := SortDistinct(KeyLe, Keys(rows, asOf));
    KeyLeIsTotal();
    SortDistinctIsSorted(KeyLe, Keys(rows, asOf));
    forall i | 0 <= i < |keys| ensures same(DecideEach(keys, others, asOf)[i], DecideEach(keys, rows, asOf)[i]) {
      assert keys[i] in Keys(rows, asOf);
      DecideEachAt(keys, rows, asOf, i);
      DecideEachAt(keys, others, asOf, i);
      GroupIsTimed(rows, asOf, keys[i]);
      AgreedChoicesIgnoreOrder(same, keys[i], Group(rows, asOf, keys[i]), Group(others, asOf, keys[i]));
    }
  }

  /** The rows that do not belong to a group, in input order. */
  function Outside(rows: seq<Observation>, asOf: int, key: ActionKey): seq<Observation> {
    if rows == [] then []
    else
      var n := |rows| - 1;
      var earlier := Outside(rows[..n], asOf, key);
      if Admitted(rows[n], asOf) && KeyOf(rows[n]) == key then earlier else earlier + [rows[n]]
  }

  lemma {:induction false} OutsideAndGroup(rows: seq<Observation>, asOf: int, key: ActionKey)
    ensures multiset(Outside(rows, asOf, key)) + multiset(Group(rows, asOf, key)) == multiset(rows)
    ensures Group(Outside(rows, asOf, key), asOf, key) == []
  {
    if rows != [] {
      var n := |rows| - 1;
      assert rows == rows[..n] + [rows[n]];
      OutsideAndGroup(rows[..n], asOf, key);
      var earlier := Outside(rows[..n], asOf, key);
      assert (earlier + [rows[n]])[..|earlier|] == earlier;
    }
  }

  lemma {:induction false} GroupOfMembers(rows: seq<Observation>, asOf: int, key: ActionKey)
    requires forall i :: 0 <= i < |rows| ==> Admitted(rows[i], asOf) && KeyOf(rows[i]) == key
    ensures Group(rows, asOf, key) == rows
  {
    if rows != [] {
      GroupOfMembers(rows[..|rows| - 1], asOf, key);
    }
  }

  /** Any order of one group occurs in some order of all the rows. */
  lemma {:induction false} GroupReordered(rows: seq<Observation>, asOf: int, key: ActionKey, group: seq<Observation>)
    returns (p: seq<Observation>)
    requires multiset(group) == multiset(Group(rows, asOf, key))
    ensures multiset(p) == multiset(rows) && Group(p, asOf, key) == group
  {
    p := Outside(rows, asOf, key) + group;
    OutsideAndGroup(rows, asOf, key);
    PermutationHasSameMembers(group, Group(rows, asOf, key));
    forall i | 0 <= i < |group| ensures Admitted(group[i], asOf) && KeyOf(group[i]) == key {
      assert group[i] in group;
      GroupMembers(rows, asOf, key, group[i]);
    }
    GroupOfMembers(group, asOf, key);
    GroupConcat(Outside(rows, asOf, key), group, asOf, key);
  }

  /** The action of a key is an entry of the list. */
  lemma {:induction false} SameActionOfKey(same: (Action, Action) -> bool, rows: seq<Observation>,
                                           p: seq<Observation>, asOf: int, key: ActionKey)
    requires SameMembers(rows, p) && key in Keys(rows, asOf)
    requires SameList(same, Reconcile(p, asOf), Reconcile(rows, asOf))
    ensures same(ActionFor(key, Group(p, asOf, key)), ActionFor(key, Group(rows, asOf, key)))
  {
    SameMembersSameKeys(rows, p, asOf);
    KeyLeIsTotal();
    SortDistinctIsSorted(KeyLe, Keys(rows, asOf));
    var keys := SortDistinct(KeyLe, Keys(rows, asOf));
    var i :| 0 <= i < |keys| && keys[i] == key;
    DecideEachAt(keys, rows, asOf, i);
    DecideEachAt(keys, p, asOf, i);
  }

  ghost predicate EveryOrderGives(same: (Action, Action) -> bool, rows: seq<Observation>, asOf: int) {
    forall p :: multiset(p) == multiset(rows) ==> SameList(same, Reconcile(p, asOf), Reconcile(rows, asOf))
  }

  lemma {:induction false} IgnoredOrderMeansAgreement(same: (Action, Action) -> bool, rows: seq<Observation>, asOf: int,
                                                      key: ActionKey)
    requires Equivalence(same) && EveryOrderGives(same, rows, asOf) && key in Keys(rows, asOf)
    ensures ChoicesAgree(same, key, Group(rows, asOf, key))
  {
    var group := Group(rows, asOf, key);
    GroupIsTimed(rows, asOf, key);
    forall g | multiset(g) == multiset(group) ensures same(ActionFor(key, g), ActionFor(key, group)) {
      var p := GroupReordered(rows, asOf, key, g);
      PermutationHasSameMembers(rows, p);
      SameActionOfKey(same, rows, p, asOf, key);
    }
    ActionIgnoresOrderExactly(same, key, group);
  }

  lemma {:induction false} OrderIgnoredExactly(same: (Action, Action) -> bool, rows: seq<Observation>, asOf: int)
    requires Equivalence(same)
    ensures EveryOrderGives(same, rows, asOf) <==> AllChoicesAgree(same, rows, asOf)
  {
    if AllChoicesAgree(same, rows, asOf) {
      forall p | multiset(p) == multiset(rows) ensures SameList(same, Reconcile(p, asOf), Reconcile(rows, asOf)) {
        PermutationHasSameMembers(rows, p);
        AgreedRowsIgnoreOrder(same, rows, p, asOf);
      }
    }
    if EveryOrderGives(same, rows, asOf) {
      forall k | k in Keys(rows, asOf) ensures ChoicesAgree(same, k, Group(rows, asOf, k)) {
        IgnoredOrderMeansAgreement(same, rows, asOf, k);
      }
    }
  }

  /**
   The order of the rows changes no action, up to the order of the source event ids, if and only if in every group
   every choice of one newest row for each source gives the same decision.  The same holds when the ids are left out
   of the comparison: then it is states, factors and terms that have to agree.
   */
  lemma {:induction false} ReconcileIgnoresOrderExactly(rows: seq<Observation>, asOf: int)
    ensures EveryOrderGives(SameUpToIdOrder, rows, asOf) <==> AllChoicesAgree(SameUpToIdOrder, rows, asOf)
    ensures EveryOrderGives(SameOutcome, rows, asOf) <==> AllChoicesAgree(SameOutcome, rows, asOf)
  {
    OrderIgnoredExactly(SameUpToIdOrder, rows, asOf);
    OrderIgnoredExactly(SameOutcome, rows, asOf);
  }
}
