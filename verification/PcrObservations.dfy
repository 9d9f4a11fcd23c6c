/** One put-call and max-pain observation per symbol and expiry (`build_pcr_max_pain_observation`). */
module PcrObservations {
  import opened Common
  import opened Ordering
  import opened Sums
  import opened WriterPayout
  import opened DerivedMaxPain

  /** A row of a chain snapshot: the empty symbol and `None` are what does not parse. */
  datatype ChainRow = ChainRow(symbol: string, expiry: Option<int>, option: RawRow)

  datatype Key = Key(symbol: string, expiry: int)

  datatype Observation = Observation(
    key: Key,
    callOi: real,
    putOi: real,
    ratio: Option<real>,
    maxPain: Option<real>)

  predicate Admitted(row: ChainRow) { row.symbol != "" && row.expiry.Some? }

  function KeyOf(row: ChainRow): Key
    requires Admitted(row)
  {
    Key(row.symbol, row.expiry.value)
  }

  predicate KeyLe(a: Key, b: Key) {
    if a.symbol != b.symbol then StringLe(a.symbol, b.symbol) else a.expiry <= b.expiry
  }

  lemma {:induction false} KeyLeIsTotal()
    ensures TotalOrder(KeyLe)
  {
    OrdersAreTotal();
  }

  function Group(rows: seq<ChainRow>, key: Key): seq<RawRow> {
    if rows == [] then []
    else
      var n := |rows| - 1;
      var earlier := Group(rows[..n], key);
      if Admitted(rows[n]) && KeyOf(rows[n]) == key then earlier + [rows[n].option] else earlier
  }

  function Keys(rows: seq<ChainRow>): seq<Key> {
    if rows == [] then []
    else
      var n := |rows| - 1;
      var earlier := Keys(rows[..n]);
      if Admitted(rows[n]) then earlier + [KeyOf(rows[n])] else earlier
  }

  function OiTerm(optionType: string): RawRow -> real {
    (r: RawRow) => if r.optionType == optionType && Positive(r.openInterest).Some? then r.openInterest.value else 0.0
  }

  function OiTotal(group: seq<RawRow>, optionType: string): real {
    SumBy(OiTerm(optionType), group)
  }

  predicate HasOi(group: seq<RawRow>) {
    OiTotal(group, "CE") > 0.0 || OiTotal(group, "PE") > 0.0
  }

  /** The record of a group: totals, their ratio where it exists, and the lowest optimal listed strike. */
  ghost predicate Observes(o: Observation, group: seq<RawRow>) {
    && o.callOi == OiTotal(group, "CE")
    && o.putOi == OiTotal(group, "PE")
    && o.ratio == (if o.callOi > 0.0 then Some(o.putOi / o.callOi) else None)
    && (o.maxPain.None? <==> PositiveStrikes(group) == [])
    && (o.maxPain.Some? ==>
          LowestMinimum(Contracts(group), ListedStrikes(group), o.maxPain.value)
          && forall x :: Payout(Contracts(group), o.maxPain.value) <= Payout(Contracts(group), x))
  }

  /** The row belongs to no observation: it is unreadable, or its whole group has no open interest. */
  predicate Uncovered(row: ChainRow, all: seq<ChainRow>) {
    !Admitted(row) || !HasOi(Group(all, KeyOf(row)))
  }

  function UncoveredRows(rows: seq<ChainRow>, all: seq<ChainRow>): nat {
    if rows == [] then 0
    else
      var n := |rows| - 1;
      UncoveredRows(rows[..n], all) + if Uncovered(rows[n], all) then 1 else 0
  }

  function UnreadableRows(rows: seq<ChainRow>): nat {
    if rows == [] then 0
    else
      var n := |rows| - 1;
      UnreadableRows(rows[..n]) + if Admitted(rows[n]) then 0 else 1
  }

  /** The rows of the groups without open interest, group by group. */
  function IdleRows(keys: seq<Key>, rows: seq<ChainRow>, all: seq<ChainRow>): nat {
    if keys == [] then 0
    else
      var n := |keys| - 1;
      IdleRows(keys[..n], rows, all) + if HasOi(Group(all, keys[n])) then 0 else |Group(rows, keys[n])|
  }

  lemma {:induction false} KeysMembers(rows: seq<ChainRow>, i: nat)
    requires i < |rows| && Admitted(rows[i])
    ensures KeyOf(rows[i]) in Keys(rows)
  {
    var n := |rows| - 1;
    if i < n {
      KeysMembers(rows[..n], i);
    }
  }

  /** One more row adds one to the group of its key and nothing to the others. */
  lemma {:induction false} IdleStep(keys: seq<Key>, rows: seq<ChainRow>, row: ChainRow, all: seq<ChainRow>)
    requires Distinct(keys) && Admitted(row)
    ensures IdleRows(keys, rows + [row], all)
            == IdleRows(keys, rows, all) + if KeyOf(row) in keys && !HasOi(Group(all, KeyOf(row))) then 1 else 0
  {
    if keys != [] {
      var n := |keys| - 1;
      IdleStep(keys[..n], rows, row, all);
      assert (rows + [row])[..|rows|] == rows;
      assert KeyOf(row) in keys <==> KeyOf(row) in keys[..n] || KeyOf(row) == keys[n];
      assert KeyOf(row) == keys[n] ==> KeyOf(row) !in keys[..n];
    }
  }

  lemma {:induction false} UnreadableIdleStep(keys: seq<Key>, rows: seq<ChainRow>, row: ChainRow, all: seq<ChainRow>)
    requires !Admitted(row)
    ensures IdleRows(keys, rows + [row], all) == IdleRows(keys, rows, all)
  {
    if keys != [] {
      UnreadableIdleStep(keys[..|keys| - 1], rows, row, all);
      assert (rows + [row])[..|rows|] == rows;
    }
  }

  lemma {:induction false} NoIdleRows(keys: seq<Key>, all: seq<ChainRow>)
    ensures IdleRows(keys, [], all) == 0
  {
    if keys != [] {
      NoIdleRows(keys[..|keys| - 1], all);
    }
  }

  /** Counting the rejected rows group by group counts every uncovered row once. */
  lemma {:induction false} RejectionsAddUp(keys: seq<Key>, rows: seq<ChainRow>, all: seq<ChainRow>)
    requires Distinct(keys)
    requires forall i :: 0 <= i < |rows| && Admitted(rows[i]) ==> KeyOf(rows[i]) in keys
    ensures UnreadableRows(rows) + IdleRows(keys, rows, all) == UncoveredRows(rows, all)
  {
    if rows == [] {
      NoIdleRows(keys, all);
    } else {
      var n := |rows| - 1;
      RejectionsAddUp(keys, rows[..n], all);
      assert rows == rows[..n] + [rows[n]];
      if Admitted(rows[n]) {
        IdleStep(keys, rows[..n], rows[n], all);
      } else {
        UnreadableIdleStep(keys, rows[..n], rows[n], all);
      }
    }
  }

  // ---------- the source's loops ----------

  method GroupRows(rows: seq<ChainRow>) returns (grouped: map<Key, seq<RawRow>>, order: seq<Key>, rejected: nat)
    ensures SameMembers(order, Keys(rows))
    ensures forall k :: k in Keys(rows) ==> k in grouped && grouped[k] == Group(rows, k)
    ensures rejected == UnreadableRows(rows)
  {
    grouped, order, rejected := map[], [], 0;
    for i := 0 to |rows|
      invariant SameMembers(order, Keys(rows[..i]))
      invariant forall k :: k in Keys(rows[..i]) <==> k in grouped
      invariant forall k :: (if k in grouped then grouped[k] else []) == Group(rows[..i], k)
      invariant rejected == UnreadableRows(rows[..i])
    {
      assert rows[..i + 1][..i] == rows[..i];
      if !Admitted(rows[i]) {
        rejected := rejected + 1;
      } else {
        var key := KeyOf(rows[i]);
        if key !in grouped {
          order := order + [key];
        }
        grouped := grouped[key := (if key in grouped then grouped[key] else []) + [rows[i].option]];
      }
    }
    assert rows[..|rows|] == rows;
  }

  method Observe(key: Key, group: seq<RawRow>) returns (o: Observation)
    ensures o.key == key && Observes(o, group)
  {
    var callOi, putOi := OiTotal(group, "CE"), OiTotal(group, "PE");
    var maxPain := MaxPainByLoops(group);
    o := Observation(key, callOi, putOi, if callOi > 0.0 then Some(putOi / callOi) else None, maxPain);
  }

  /** The groups the first `i` keys leave behind: an observation each, or a rejection of all their rows. */
  ghost predicate Reported(observations: seq<Observation>, keys: seq<Key>, rows: seq<ChainRow>) {
    && (forall j :: 0 <= j < |observations| ==>
          observations[j].key in keys && HasOi(Group(rows, observations[j].key))
          && Observes(observations[j], Group(rows, observations[j].key)))
    && (forall k :: k in keys && HasOi(Group(rows, k)) ==>
          exists j :: 0 <= j < |observations| && observations[j].key == k)
    && StrictlySorted(KeyLe, KeysOf(observations))
  }

  function KeysOf(observations: seq<Observation>): (r: seq<Key>)
    ensures |r| == |observations|
  {
    seq(|observations|, i requires 0 <= i < |observations| => observations[i].key)
  }

  lemma {:induction false} LastIsGreatest(keys: seq<Key>, last: Key, k: Key)
    requires StrictlySorted(KeyLe, keys + [last]) && k in keys
    ensures KeyLe(k, last) && k != last
  {
    var i :| 0 <= i < |keys| && keys[i] == k;
    assert (keys + [last])[i] == k && (keys + [last])[|keys|] == last;
  }

  lemma {:induction false} ReportedSnoc(observations: seq<Observation>, keys: seq<Key>, rows: seq<ChainRow>,
                                        o: Observation)
    requires Reported(observations, keys, rows) && HasOi(Group(rows, o.key)) && Observes(o, Group(rows, o.key))
    requires StrictlySorted(KeyLe, keys + [o.key])
    ensures Reported(observations + [o], keys + [o.key], rows)
  {
    var more := observations + [o];
    forall k | k in keys + [o.key] && HasOi(Group(rows, k))
      ensures exists j :: 0 <= j < |more| && more[j].key == k
    {
      if k in keys {
        var j :| 0 <= j < |observations| && observations[j].key == k;
        assert more[j].key == k;
      } else {
        assert more[|observations|].key == k;
      }
    }
    forall j | 0 <= j < |observations| ensures KeyLe(observations[j].key, o.key) && observations[j].key != o.key {
      LastIsGreatest(keys, o.key, observations[j].key);
    }
    assert KeysOf(more) == KeysOf(observations) + [o.key];
  }

  /** The body of the second loop. */
  method ReportGroup(observations: seq<Observation>, key: Key, group: seq<RawRow>, ghost keys: seq<Key>,
                     ghost rows: seq<ChainRow>)
    returns (r: seq<Observation>, rejected: nat)
    requires Reported(observations, keys, rows) && StrictlySorted(KeyLe, keys + [key]) && group == Group(rows, key)
    ensures Reported(r, keys + [key], rows)
    ensures rejected == if HasOi(Group(rows, key)) then 0 else |Group(rows, key)|
  {
    if OiTotal(group, "CE") <= 0.0 && OiTotal(group, "PE") <= 0.0 {
      r, rejected := observations, |group|;
    } else {
      var o := Observe(key, group);
      r, rejected := observations + [o], 0;
      ReportedSnoc(observations, keys, rows, o);
    }
  }

  lemma {:induction false} PrefixStep(keys: seq<Key>, i: nat)
    requires StrictlySorted(KeyLe, keys) && i < |keys|
    ensures keys[..i + 1] == keys[..i] + [keys[i]] && keys[i] in keys
    ensures StrictlySorted(KeyLe, keys[..i] + [keys[i]])
  {
  }

  /** Second loop, over the groups in key order. */
  method ReportGroups(keys: seq<Key>, grouped: map<Key, seq<RawRow>>, ghost rows: seq<ChainRow>)
    returns (observations: seq<Observation>, rejected: nat)
    requires StrictlySorted(KeyLe, keys)
    requires forall k :: k in keys ==> k in grouped && grouped[k] == Group(rows, k)
    ensures Reported(observations, keys, rows)
    ensures rejected == IdleRows(keys, rows, rows)
  {
    observations, rejected := [], 0;
    for i := 0 to |keys|
      invariant Reported(observations, keys[..i], rows)
      invariant rejected == IdleRows(keys[..i], rows, rows)
    {
      PrefixStep(keys, i);
      var dropped;
      observations, dropped := ReportGroup(observations, keys[i], grouped[keys[i]], keys[..i], rows);
      rejected := rejected + dropped;
    }
    assert keys[..|keys|] == keys;
  }

  /**
   Every group with open interest is observed once, in key order, with its globally optimal strike; the rejected
   count is the number of rows that no observation covers.
   */
  method BuildObservations(rows: seq<ChainRow>) returns (observations: seq<Observation>, rejected: nat)
    ensures Reported(observations, SortDistinct(KeyLe, Keys(rows)), rows)
    ensures SameMembers(SortDistinct(KeyLe, Keys(rows)), Keys(rows))
    ensures rejected == UncoveredRows(rows, rows)
  {
    var grouped, order, unreadable := GroupRows(rows);
    KeyLeIsTotal();
    SortDistinctDependsOnMembers(KeyLe, order, Keys(rows));
    SortDistinctIsSorted(KeyLe, Keys(rows));
    var keys := SortDistinct(KeyLe, order);
    var idle;
    observations, idle := ReportGroups(keys, grouped, rows);
    rejected := unreadable + idle;
    forall i | 0 <= i < |rows| && Admitted(rows[i]) ensures KeyOf(rows[i]) in keys {
      KeysMembers(rows, i);
    }
    RejectionsAddUp(keys, rows, rows);
  }
}
