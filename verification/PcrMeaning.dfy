/** What the observations of a snapshot add up to, read from its rows. */
module PcrMeaning {
  import opened Common
  import opened Ordering
  import opened Sums
  import opened DerivedMaxPain
  import opened PcrObservations
  import opened ChainMeaning

  /** The row carries its symbol and expiry. */
  predicate Readable(row: ChainRow) { row.symbol != "" && row.expiry.Some? }

  predicate Concerns(row: ChainRow, key: Key) {
    row.symbol != "" && row.symbol == key.symbol && row.expiry == Some(key.expiry)
  }

  /** The open interest a row adds to the total of an option type. */
  function InterestIn(row: ChainRow, optionType: string): real {
    if row.option.optionType == optionType && row.option.openInterest.Some? && 0.0 < row.option.openInterest.value
    then row.option.openInterest.value
    else 0.0
  }

  /** The total open interest of an option type over the rows of one key. */
  function Interest(rows: seq<ChainRow>, key: Key, optionType: string): real {
    if rows == [] then 0.0
    else
      var n := |rows| - 1;
      Interest(rows[..n], key, optionType) + if Concerns(rows[n], key) then InterestIn(rows[n], optionType) else 0.0
  }

  /** The total open interest of an option type over all readable rows. */
  function AllInterest(rows: seq<ChainRow>, optionType: string): real {
    if rows == [] then 0.0
    else
      var n := |rows| - 1;
      AllInterest(rows[..n], optionType) + if Readable(rows[n]) then InterestIn(rows[n], optionType) else 0.0
  }

  /** The option parts of the rows of one key. */
  function OptionsOf(rows: seq<ChainRow>, key: Key): seq<RawRow> {
    if rows == [] then []
    else
      var n := |rows| - 1;
      OptionsOf(rows[..n], key) + if Concerns(rows[n], key) then [rows[n].option] else []
  }

  lemma {:induction false} GroupExactly(rows: seq<ChainRow>, key: Key, optionType: string)
    ensures Group(rows, key) == OptionsOf(rows, key)
    ensures OiTotal(Group(rows, key), optionType) == Interest(rows, key, optionType)
  {
    if rows != [] {
      var front, last := rows[..|rows| - 1], rows[|rows| - 1];
      GroupExactly(front, key, optionType);
      if Concerns(last, key) {
        SumBySnoc(OiTerm(optionType), Group(front, key), last.option);
      }
    }
  }

  lemma {:induction false} InterestNotNegative(rows: seq<ChainRow>, key: Key, optionType: string)
    ensures 0.0 <= Interest(rows, key, optionType)
    ensures 0.0 < Interest(rows, key, optionType) ==> exists r :: r in rows && Concerns(r, key)
  {
    if rows != [] {
      InterestNotNegative(rows[..|rows| - 1], key, optionType);
      assert rows[|rows| - 1] in rows;
    }
  }

  // ---------- one observation ----------

  /** Some call or put of the key has open interest. */
  predicate Traded(rows: seq<ChainRow>, key: Key) {
    0.0 < Interest(rows, key, "CE") || 0.0 < Interest(rows, key, "PE")
  }

  /** The totals of the key, puts over calls where there are calls, and its lowest cheapest strike. */
  ghost predicate ObservedAs(o: Observation, rows: seq<ChainRow>) {
    var options := OptionsOf(rows, o.key);
    && o.callOi == Interest(rows, o.key, "CE")
    && o.putOi == Interest(rows, o.key, "PE")
    && (o.ratio.Some? <==> 0.0 < o.callOi)
    && (o.ratio.Some? ==> o.ratio.value * o.callOi == o.putOi)
    && (o.maxPain.None? <==> forall s :: !ListsStrike(options, s))
    && (o.maxPain.Some? ==> LowestCheapest(options, o.maxPain.value))
  }

  lemma {:induction false} StrikesListed(options: seq<RawRow>)
    ensures PositiveStrikes(options) == [] <==> forall s :: !ListsStrike(options, s)
    ensures PositiveStrikes(options) != [] ==> ListedStrikes(options) != []
  {
    var strikes := PositiveStrikes(options);
    OrdersAreTotal();
    SortDistinctIsSorted(RealLe, strikes);
    if strikes == [] {
      forall s ensures !ListsStrike(options, s) {
        StrikesExactly(options, s);
      }
    } else {
      StrikesExactly(options, strikes[0]);
      assert strikes[0] in strikes && ListsStrike(options, strikes[0]);
      assert strikes[0] in ListedStrikes(options);
    }
  }

  lemma {:induction false} RatioBack(x: real, y: real)
    requires 0.0 < y
    ensures x / y * y == x
  {
  }

  lemma {:induction false} StrikeObserved(o: Observation, options: seq<RawRow>)
    requires Observes(o, options)
    ensures o.maxPain.None? <==> forall s :: !ListsStrike(options, s)
    ensures o.maxPain.Some? ==> LowestCheapest(options, o.maxPain.value)
  {
    StrikesListed(options);
    if o.maxPain.Some? {
      LoopsChoose(options, o.maxPain.value);
    }
  }

  lemma {:induction false} TotalsObserved(o: Observation, options: seq<RawRow>)
    requires Observes(o, options)
    ensures o.callOi == OiTotal(options, "CE") && o.putOi == OiTotal(options, "PE")
    ensures o.ratio.Some? <==> 0.0 < o.callOi
    ensures o.ratio.Some? ==> o.ratio.value * o.callOi == o.putOi
  {
    if o.ratio.Some? {
      RatioBack(o.putOi, o.callOi);
    }
  }

  lemma {:induction false} ObservesExactly(o: Observation, rows: seq<ChainRow>)
    requires Observes(o, Group(rows, o.key))
    ensures ObservedAs(o, rows)
  {
    StrikeObserved(o, Group(rows, o.key));
    TotalsObserved(o, Group(rows, o.key));
    GroupExactly(rows, o.key, "CE");
    GroupExactly(rows, o.key, "PE");
  }

  // ---------- the snapshot ----------

  lemma {:induction false} TradedExactly(rows: seq<ChainRow>, key: Key)
    ensures HasOi(Group(rows, key)) <==> Traded(rows, key)
  {
    GroupExactly(rows, key, "CE");
    GroupExactly(rows, key, "PE");
  }

  lemma {:induction false} TradedIsListed(rows: seq<ChainRow>, key: Key)
    requires Traded(rows, key)
    ensures key in Keys(rows)
  {
    InterestNotNegative(rows, key, "CE");
    InterestNotNegative(rows, key, "PE");
    var r :| r in rows && Concerns(r, key);
    var i :| 0 <= i < |rows| && rows[i] == r;
    KeysMembers(rows, i);
  }

  /** Keys in ascending order of symbol, then expiry. */
  ghost predicate InKeyOrder(a: Key, b: Key) {
    a != b && Ascending(a.symbol, b.symbol) && (a.symbol == b.symbol ==> a.expiry < b.expiry)
  }

  /**
   The snapshot, exactly: one observation for every key with open interest and for no other, each with the totals,
   the ratio and the strike its rows give, in ascending key order.
   */
  lemma {:induction false} ObservationsExactly(observations: seq<Observation>, rows: seq<ChainRow>)
    requires Reported(observations, SortDistinct(KeyLe, Keys(rows)), rows)
    ensures forall j :: 0 <= j < |observations| ==> ObservedAs(observations[j], rows)
    ensures forall key ::
              (exists j :: 0 <= j < |observations| && observations[j].key == key) <==> Traded(rows, key)
    ensures forall i, j :: 0 <= i < j < |observations| ==> InKeyOrder(observations[i].key, observations[j].key)
  {
    var keys := SortDistinct(KeyLe, Keys(rows));
    KeyLeIsTotal();
    SortDistinctIsSorted(KeyLe, Keys(rows));
    forall j | 0 <= j < |observations| ensures ObservedAs(observations[j], rows) {
      ObservesExactly(observations[j], rows);
    }
    forall key
      ensures (exists j :: 0 <= j < |observations| && observations[j].key == key) <==> Traded(rows, key)
    {
      TradedExactly(rows, key);
      if Traded(rows, key) {
        TradedIsListed(rows, key);
        assert key in keys;
      }
    }
    KeysInOrder(observations);
  }

  lemma {:induction false} KeysInOrder(observations: seq<Observation>)
    requires StrictlySorted(KeyLe, KeysOf(observations))
    ensures forall i, j :: 0 <= i < j < |observations| ==> InKeyOrder(observations[i].key, observations[j].key)
  {
    var keys := KeysOf(observations);
    forall i, j | 0 <= i < j < |observations| ensures InKeyOrder(observations[i].key, observations[j].key) {
      assert KeyLe(keys[i], keys[j]) && keys[i] != keys[j];
      if keys[i].symbol != keys[j].symbol {
        StringLeIsAscending(keys[i].symbol, keys[j].symbol);
      }
    }
  }

  // ---------- conservation ----------

  function InterestOf(rows: seq<ChainRow>, optionType: string): Key -> real {
    (key: Key) => Interest(rows, key, optionType)
  }

  function Carried(optionType: string): Observation -> real {
    (o: Observation) => if optionType == "CE" then o.callOi else o.putOi
  }

  /** One more row adds its interest to the total of its key. */
  lemma {:induction false} InterestStep(keys: seq<Key>, rows: seq<ChainRow>, row: ChainRow, optionType: string)
    requires Distinct(keys)
    requires Readable(row) ==> Key(row.symbol, row.expiry.value) in keys
    ensures SumBy(InterestOf(rows + [row], optionType), keys)
            == SumBy(InterestOf(rows, optionType), keys) + if Readable(row) then InterestIn(row, optionType) else 0.0
  {
    assert (rows + [row])[..|rows|] == rows;
    if Readable(row) {
      var key := Key(row.symbol, row.expiry.value);
      var at :| 0 <= at < |keys| && keys[at] == key;
      var rest := keys[..at] + keys[at + 1..];
      SumByRemove(InterestOf(rows, optionType), keys, at);
      SumByRemove(InterestOf(rows + [row], optionType), keys, at);
      forall i | 0 <= i < |rest| ensures rest[i] != key {
      }
      SumByEqual(InterestOf(rows + [row], optionType), InterestOf(rows, optionType), rest);
    } else {
      SumByEqual(InterestOf(rows + [row], optionType), InterestOf(rows, optionType), keys);
    }
  }

  lemma {:induction false} InterestAddsUp(keys: seq<Key>, rows: seq<ChainRow>, optionType: string)
    requires Distinct(keys)
    requires forall i :: 0 <= i < |rows| && Readable(rows[i]) ==> Key(rows[i].symbol, rows[i].expiry.value) in keys
    ensures SumBy(InterestOf(rows, optionType), keys) == AllInterest(rows, optionType)
  {
    if rows == [] {
      NothingAddsUp(keys, optionType);
    } else {
      var front, last := rows[..|rows| - 1], rows[|rows| - 1];
      InterestAddsUp(keys, front, optionType);
      InterestStep(keys, front, last, optionType);
      assert rows == front + [last];
    }
  }

  lemma {:induction false} NothingAddsUp(keys: seq<Key>, optionType: string)
    ensures SumBy(InterestOf([], optionType), keys) == 0.0
  {
    if keys != [] {
      NothingAddsUp(keys[..|keys| - 1], optionType);
    }
  }

  lemma {:induction false} CarriedByKeys(observations: seq<Observation>, rows: seq<ChainRow>, optionType: string)
    requires optionType == "CE" || optionType == "PE"
    requires forall j :: 0 <= j < |observations| ==> ObservedAs(observations[j], rows)
    ensures SumBy(Carried(optionType), observations) == SumBy(InterestOf(rows, optionType), KeysOf(observations))
  {
    if observations != [] {
      var n := |observations| - 1;
      CarriedByKeys(observations[..n], rows, optionType);
      assert KeysOf(observations)[..n] == KeysOf(observations[..n]);
      assert "CE"[0] != "PE"[0];
    }
  }

  /** No interest is lost: over a snapshot the observed call, and put, totals are those of all readable rows. */
  lemma {:induction false} InterestIsConserved(observations: seq<Observation>, rows: seq<ChainRow>, optionType: string)
    requires optionType == "CE" || optionType == "PE"
    requires Reported(observations, SortDistinct(KeyLe, Keys(rows)), rows)
    ensures SumBy(Carried(optionType), observations) == AllInterest(rows, optionType)
  {
    var keys := SortDistinct(KeyLe, Keys(rows));
    KeyLeIsTotal();
    SortDistinctIsSorted(KeyLe, Keys(rows));
    ObservationsExactly(observations, rows);
    CarriedByKeys(observations, rows, optionType);
    forall i | 0 <= i < |rows| && Readable(rows[i]) ensures Key(rows[i].symbol, rows[i].expiry.value) in keys {
      KeysMembers(rows, i);
    }
    InterestAddsUp(keys, rows, optionType);
    UntradedKeysCarryNothing(observations, keys, rows, optionType);
  }

  lemma {:induction false} UntradedKeysCarryNothing(observations: seq<Observation>, keys: seq<Key>,
                                                    rows: seq<ChainRow>, optionType: string)
    requires optionType == "CE" || optionType == "PE"
    requires Reported(observations, keys, rows) && Distinct(keys)
    ensures SumBy(InterestOf(rows, optionType), KeysOf(observations)) == SumBy(InterestOf(rows, optionType), keys)
  {
    var observed := KeysOf(observations);
    forall k | k in observed ensures k in keys {
      var j :| 0 <= j < |observed| && observed[j] == k;
      assert observations[j].key in keys;
    }
    forall i | 0 <= i < |keys| ensures keys[i] in observed || InterestOf(rows, optionType)(keys[i]) == 0.0 {
      TradedExactly(rows, keys[i]);
      InterestNotNegative(rows, keys[i], optionType);
      if Traded(rows, keys[i]) {
        var j :| 0 <= j < |observations| && observations[j].key == keys[i];
        assert observed[j] == keys[i];
      }
    }
    SumBySupport(InterestOf(rows, optionType), observed, keys);
  }

  /** The row is unreadable, or its key has no open interest. */
  predicate LeftOut(row: ChainRow, all: seq<ChainRow>) {
    !Readable(row) || !Traded(all, Key(row.symbol, row.expiry.value))
  }

  lemma {:induction false} UncoveredIsLeftOut(row: ChainRow, all: seq<ChainRow>)
    ensures Uncovered(row, all) <==> LeftOut(row, all)
  {
    if Readable(row) {
      TradedExactly(all, Key(row.symbol, row.expiry.value));
    }
  }

  ghost function Rejected(rows: seq<ChainRow>, all: seq<ChainRow>): set<int> {
    set i | 0 <= i < |rows| && LeftOut(rows[i], all)
  }

  ghost function RejectedCount(rows: seq<ChainRow>, all: seq<ChainRow>): nat { |Rejected(rows, all)| }

  lemma {:induction false} RejectedSnoc(rows: seq<ChainRow>, row: ChainRow, all: seq<ChainRow>)
    ensures RejectedCount(rows + [row], all) == RejectedCount(rows, all) + if LeftOut(row, all) then 1 else 0
  {
    var before, after := Rejected(rows, all), Rejected(rows + [row], all);
    forall i ensures i in after <==> i in before || (i == |rows| && LeftOut(row, all)) {
      if 0 <= i < |rows| {
        assert (rows + [row])[i] == rows[i];
      }
    }
    if LeftOut(row, all) {
      assert after == before + {|rows|};
    } else {
      assert after == before;
    }
  }

  lemma {:induction false} UncoveredSnoc(rows: seq<ChainRow>, row: ChainRow, all: seq<ChainRow>)
    ensures UncoveredRows(rows + [row], all) == UncoveredRows(rows, all) + if LeftOut(row, all) then 1 else 0
  {
    assert (rows + [row])[..|rows|] == rows;
    UncoveredIsLeftOut(row, all);
  }

  lemma {:induction false} NothingRejected(all: seq<ChainRow>)
    ensures UncoveredRows([], all) == RejectedCount([], all)
  {
    assert Rejected([], all) == {};
  }

  lemma {:induction false} RejectionsCounted(rows: seq<ChainRow>, all: seq<ChainRow>, n: nat)
    requires n <= |rows|
    ensures UncoveredRows(rows[..n], all) == RejectedCount(rows[..n], all)
  {
    if n == 0 {
      assert rows[..0] == [];
      NothingRejected(all);
    } else {
      RejectionsCounted(rows, all, n - 1);
      UncoveredSnoc(rows[..n - 1], rows[n - 1], all);
      RejectedSnoc(rows[..n - 1], rows[n - 1], all);
      assert rows[..n] == rows[..n - 1] + [rows[n - 1]];
    }
  }

  /** The rejected count is the number of rows that are left out. */
  lemma {:induction false} RejectedExactly(rows: seq<ChainRow>)
    ensures UncoveredRows(rows, rows) == |Rejected(rows, rows)|
  {
    RejectionsCounted(rows, rows, |rows|);
    assert rows[..|rows|] == rows;
  }
}
