/** What both max-pain engines minimise and choose, read from the rows of the chain. */
module ChainMeaning {
  import opened Common
  import opened Ordering
  import opened Products
  import opened Sums
  import opened WriterPayout
  import opened CommodityMaxPain
  import opened DerivedMaxPain

  // ---------- the nested loops ----------

  /** What the writers of one raw row pay at a settlement price; a row without strike or interest costs nothing. */
  function RowPain(row: RawRow, settlement: real): real {
    if row.strike.None? || row.strike.value <= 0.0 || row.openInterest.None? || row.openInterest.value <= 0.0 then 0.0
    else if row.optionType == "CE" && row.strike.value < settlement then
      (settlement - row.strike.value) * row.openInterest.value
    else if row.optionType == "PE" && settlement < row.strike.value then
      (row.strike.value - settlement) * row.openInterest.value
    else 0.0
  }

  function TotalPain(rows: seq<RawRow>, settlement: real): real {
    if rows == [] then 0.0 else TotalPain(rows[..|rows| - 1], settlement) + RowPain(rows[|rows| - 1], settlement)
  }

  ghost predicate ListsStrike(rows: seq<RawRow>, strike: real) {
    exists r :: r in rows && r.strike == Some(strike) && 0.0 < strike
  }

  lemma {:induction false} ContractPain(row: RawRow, settlement: real)
    ensures RowPain(row, settlement) ==
              if ContractOf(row).Some? then PainAt(settlement)(ContractOf(row).value) else 0.0
  {
    if ContractOf(row).Some? {
      var c := ContractOf(row).value;
      assert Times(0.0, c.openInterest) == 0.0;
      assert Times(settlement - c.strike, c.openInterest) == (settlement - c.strike) * c.openInterest;
      assert Times(c.strike - settlement, c.openInterest) == (c.strike - settlement) * c.openInterest;
    }
  }

  /** The payout is the sum over the raw rows, repeated contracts included. */
  lemma {:induction false} PayoutOfRows(rows: seq<RawRow>, settlement: real)
    ensures Payout(Contracts(rows), settlement) == TotalPain(rows, settlement)
  {
    if rows != [] {
      var front, last := rows[..|rows| - 1], rows[|rows| - 1];
      PayoutOfRows(front, settlement);
      ContractPain(last, settlement);
      if ContractOf(last).Some? {
        SumBySnoc(PainAt(settlement), Contracts(front), ContractOf(last).value);
      }
    }
  }

  lemma {:induction false} StrikesExactly(rows: seq<RawRow>, strike: real)
    ensures strike in PositiveStrikes(rows) <==> ListsStrike(rows, strike)
  {
    if rows != [] {
      var n := |rows| - 1;
      StrikesExactly(rows[..n], strike);
      assert rows == rows[..n] + [rows[n]];
    }
  }

  /** The lowest of the listed strikes at which the rows cost least; no price whatever costs less. */
  ghost predicate LowestCheapest(rows: seq<RawRow>, best: real) {
    && ListsStrike(rows, best)
    && (forall s :: ListsStrike(rows, s) && s < best ==> TotalPain(rows, best) < TotalPain(rows, s))
    && forall x :: TotalPain(rows, best) <= TotalPain(rows, x)
  }

  /** The choice of the nested loops, from the raw rows alone. */
  lemma {:induction false} LoopsChoose(rows: seq<RawRow>, best: real)
    requires ListedStrikes(rows) != [] && LowestMinimum(Contracts(rows), ListedStrikes(rows), best)
    ensures LowestCheapest(rows, best)
  {
    OrdersAreTotal();
    SortDistinctIsSorted(RealLe, PositiveStrikes(rows));
    GloballyOptimal(rows, best);
    forall s ensures s in ListedStrikes(rows) <==> ListsStrike(rows, s) {
      StrikesExactly(rows, s);
    }
    forall x ensures Payout(Contracts(rows), x) == TotalPain(rows, x) {
      PayoutOfRows(rows, x);
    }
  }

  // ---------- the dictionaries ----------

  /** A row with open interest that no later row of its type and strike with open interest replaces. */
  ghost predicate Stands(rows: seq<OptionRow>, k: int) {
    && 0 <= k < |rows| && 0.0 < rows[k].openInterest
    && forall j :: k < j < |rows| && rows[j].optionType == rows[k].optionType && rows[j].strike == rows[k].strike ==>
         rows[j].openInterest <= 0.0
  }

  ghost predicate StandsIn(rows: seq<OptionRow>, c: Contract) {
    exists k :: Stands(rows, k) && rows[k] == c
  }

  /** One entry for each strike. */
  ghost predicate OneEntryPerStrike(entries: seq<Contract>) {
    forall i, j :: 0 <= i < j < |entries| ==> entries[i].strike != entries[j].strike
  }

  lemma {:induction false} PutMembers(entries: seq<Contract>, row: Contract, c: Contract)
    requires OneEntryPerStrike(entries)
    ensures OneEntryPerStrike(Put(entries, row))
    ensures c in Put(entries, row) <==> c == row || (c in entries && c.strike != row.strike)
  {
    var at := Find(entries, row.strike);
    var after := Put(entries, row);
    if at.Some? {
      assert after[at.value] == row;
      if c in entries && c.strike != row.strike {
        var i :| 0 <= i < |entries| && entries[i] == c;
        assert after[i] == c;
      }
    }
  }

  lemma {:induction false} StandsStep(rows: seq<OptionRow>, row: OptionRow, c: Contract)
    ensures StandsIn(rows + [row], c) <==>
              if row.openInterest <= 0.0 then StandsIn(rows, c)
              else c == row || (StandsIn(rows, c) && !(c.optionType == row.optionType && c.strike == row.strike))
  {
    var all := rows + [row];
    assert all[|rows|] == row;
    if 0.0 < row.openInterest && c == row {
      assert Stands(all, |rows|);
    }
    if StandsIn(rows, c) && (row.openInterest <= 0.0 || c.optionType != row.optionType || c.strike != row.strike) {
      var k :| Stands(rows, k) && rows[k] == c;
      assert all[k] == c;
      assert Stands(all, k);
    }
    if StandsIn(all, c) && !(0.0 < row.openInterest && c == row) {
      var k :| Stands(all, k) && all[k] == c;
      assert rows[k] == c;
      forall j | k < j < |rows| ensures all[j] == rows[j] {
      }
      assert Stands(rows, k);
    }
  }

  lemma {:induction false} DictionaryExactly(rows: seq<OptionRow>, optionType: OptionType, c: Contract)
    ensures OneEntryPerStrike(OpenInterest(rows, optionType))
    ensures c in OpenInterest(rows, optionType) <==> c.optionType == optionType && StandsIn(rows, c)
  {
    if rows == [] {
      assert !StandsIn(rows, c);
    } else {
      var front, last := rows[..|rows| - 1], rows[|rows| - 1];
      assert rows == front + [last];
      DictionaryExactly(front, optionType, c);
      StandsStep(front, last, c);
      PutMembers(OpenInterest(front, optionType), last, c);
    }
  }

  /** The book holds the last row with open interest of every type and strike, and nothing else, each one once. */
  lemma {:induction false} BookExactly(rows: seq<OptionRow>, c: Contract)
    ensures c in Book(rows) <==> StandsIn(rows, c)
    ensures multiset(Book(rows))[c] <= 1
  {
    var calls, puts := OpenInterest(rows, CE), OpenInterest(rows, PE);
    DictionaryExactly(rows, CE, c);
    DictionaryExactly(rows, PE, c);
    DistinctEntries(calls, c);
    DistinctEntries(puts, c);
    assert c.optionType == CE || c.optionType == PE;
    assert multiset(Book(rows))[c] == multiset(calls)[c] + multiset(puts)[c];
  }

  lemma {:induction false} DistinctEntries(entries: seq<Contract>, c: Contract)
    requires OneEntryPerStrike(entries)
    ensures multiset(entries)[c] == if c in entries then 1 else 0
  {
    assert Distinct(entries) by {
      forall i, j | 0 <= i < j < |entries| ensures entries[i] != entries[j] {
        assert entries[i].strike != entries[j].strike;
      }
    }
    DistinctCountsOnce(entries, c);
  }

  /** What one contract of the book costs. */
  lemma {:induction false} PainExactly(c: Contract, settlement: real)
    ensures Pain(c, settlement) ==
              if c.optionType == CE && c.strike < settlement then (settlement - c.strike) * c.openInterest
              else if c.optionType == PE && settlement < c.strike then (c.strike - settlement) * c.openInterest
              else 0.0
  {
    assert Times(0.0, c.openInterest) == 0.0;
    assert Times(settlement - c.strike, c.openInterest) == (settlement - c.strike) * c.openInterest;
    assert Times(c.strike - settlement, c.openInterest) == (c.strike - settlement) * c.openInterest;
  }

  // ---------- the anchor ----------

  /** The strikes of the book. */
  ghost function Struck(rows: seq<OptionRow>): set<real> {
    set c | c in Book(rows) :: c.strike
  }

  /** The underlying price, or without one the strike that half of the strikes, rounded down, lie below. */
  ghost predicate IsAnchor(anchor: real, strikes: set<real>, underlying: Option<real>) {
    if underlying.Some? then anchor == underlying.value
    else anchor in strikes && |set s | s in strikes && s < anchor| == |strikes| / 2
  }

  lemma {:induction false} SetOfSorted(strikes: seq<real>)
    requires StrictlySorted(RealLe, strikes)
    ensures |set s | s in strikes| == |strikes|
  {
    if strikes == [] {
      assert (set s | s in strikes) == {};
    } else {
      var n := |strikes| - 1;
      SetOfSorted(strikes[..n]);
      var front := set s | s in strikes[..n];
      assert strikes[n] !in front;
      assert (set s | s in strikes) == front + {strikes[n]};
    }
  }

  lemma {:induction false} BelowPosition(strikes: seq<real>, k: nat)
    requires StrictlySorted(RealLe, strikes) && k < |strikes|
    ensures |set s | s in strikes && s < strikes[k]| == k
  {
    SetOfSorted(strikes[..k]);
    forall s ensures s in strikes[..k] <==> s in strikes && s < strikes[k] {
      if s in strikes && s < strikes[k] {
        var i :| 0 <= i < |strikes| && strikes[i] == s;
        assert i < k;
        assert strikes[..k][i] == s;
      }
      if s in strikes[..k] {
        var i :| 0 <= i < k && strikes[..k][i] == s;
        assert RealLe(strikes[i], strikes[k]) && strikes[i] != strikes[k];
      }
    }
    assert (set s | s in strikes && s < strikes[k]) == set s | s in strikes[..k];
  }

  lemma {:induction false} AnchorExactly(rows: seq<OptionRow>, underlying: Option<real>)
    requires StrikesOf(Book(rows)) != []
    ensures IsAnchor(Anchor(StrikesOf(Book(rows)), underlying), Struck(rows), underlying)
  {
    var book := Book(rows);
    var strikes := StrikesOf(book);
    StrikesOfMembers(book);
    forall s ensures s in Struck(rows) <==> s in strikes {
      if s in strikes {
        var i :| 0 <= i < |book| && book[i].strike == s;
        assert book[i] in book;
      }
    }
    var half := |strikes| / 2;
    SetOfSorted(strikes);
    BelowPosition(strikes, half);
    assert Struck(rows) == set s | s in strikes;
    assert (set s | s in Struck(rows) && s < strikes[half]) == set s | s in strikes && s < strikes[half];
  }

  /** A cheapest strike of the book: cheaper than none, nearest to the anchor, and the lower of two equally near. */
  ghost predicate NearestCheapest(rows: seq<OptionRow>, anchor: real, best: real) {
    && best in Struck(rows)
    && (forall x :: Payout(Book(rows), best) <= Payout(Book(rows), x))
    && forall s :: s in Struck(rows) && Payout(Book(rows), s) == Payout(Book(rows), best) ==>
         Apart(best, anchor) < Apart(s, anchor) || (Apart(best, anchor) == Apart(s, anchor) && best <= s)
  }

  function Apart(x: real, y: real): real { if 0.0 <= x - y then x - y else y - x }

  /** The choice of the dictionary version, from the book and the anchor. */
  lemma {:induction false} DictionariesChoose(rows: seq<OptionRow>, underlying: Option<real>)
    ensures MaxPain(rows, underlying).None? <==> forall c :: !StandsIn(rows, c)
    ensures MaxPain(rows, underlying).Some? ==>
              exists anchor :: IsAnchor(anchor, Struck(rows), underlying)
                               && NearestCheapest(rows, anchor, MaxPain(rows, underlying).value)
  {
    var book := Book(rows);
    var strikes := StrikesOf(book);
    MaxPainIsOptimal(rows, underlying);
    forall c ensures c in book <==> StandsIn(rows, c) {
      BookExactly(rows, c);
    }
    if book != [] {
      assert StandsIn(rows, book[0]);
      AnchorExactly(rows, underlying);
      StrikesOfMembers(book);
      var anchor := Anchor(strikes, underlying);
      forall s ensures s in Struck(rows) <==> s in strikes {
        if s in strikes {
          var i :| 0 <= i < |book| && book[i].strike == s;
          assert book[i] in book;
        }
      }
      assert NearestCheapest(rows, anchor, MaxPain(rows, underlying).value);
    }
  }
}
