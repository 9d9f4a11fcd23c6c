/** Max pain over dictionaries of positive open interest (`_max_pain` of `commodity_context.py`). */
module CommodityMaxPain {
  import opened Common
  import opened Ordering
  import opened WriterPayout

  /** A row of an option chain; the row model guarantees a non-negative open interest. */
  type OptionRow = Contract

  /** An insertion-ordered dictionary from strike to open interest, as the list of its entries. */
  function Find(entries: seq<Contract>, strike: real): (r: Option<nat>)
    ensures r.None? ==> forall i :: 0 <= i < |entries| ==> entries[i].strike != strike
    ensures r.Some? ==> r.value < |entries| && entries[r.value].strike == strike
  {
    if entries == [] then None
    else if entries[|entries| - 1].strike == strike then Some(|entries| - 1)
    else Find(entries[..|entries| - 1], strike)
  }

  /** A later row of the same strike replaces the entry. */
  function Put(entries: seq<Contract>, row: Contract): seq<Contract> {
    match Find(entries, row.strike)
    case None => entries + [row]
    case Some(i) => entries[i := row]
  }

  predicate Counts(row: OptionRow, optionType: OptionType) {
    row.optionType == optionType && 0.0 < row.openInterest
  }

  function OpenInterest(rows: seq<OptionRow>, optionType: OptionType): seq<Contract> {
    if rows == [] then []
    else
      var n := |rows| - 1;
      var earlier := OpenInterest(rows[..n], optionType);
      if Counts(rows[n], optionType) then Put(earlier, rows[n]) else earlier
  }

  function Book(rows: seq<OptionRow>): seq<Contract> {
    OpenInterest(rows, CE) + OpenInterest(rows, PE)
  }

  /** The strikes of the entries, one each. */
  function StrikeList(contracts: seq<Contract>): (r: seq<real>)
    ensures |r| == |contracts|
  {
    seq(|contracts|, i requires 0 <= i < |contracts| => contracts[i].strike)
  }

  function StrikesOf(contracts: seq<Contract>): seq<real> {
    SortDistinct(RealLe, StrikeList(contracts))
  }

  /** The key `(writer_payout(strike), abs(strike - anchor))` of one strike is smaller than that of another. */
  predicate Before(book: seq<Contract>, anchor: real, s: real, t: real) {
    || Payout(book, s) < Payout(book, t)
    || (Payout(book, s) == Payout(book, t) && Distance(s, anchor) < Distance(t, anchor))
  }

  /** `min(strikes, key=...)`: the first strike whose key no other strike undercuts. */
  function FirstMinimum(book: seq<Contract>, anchor: real, strikes: seq<real>): (r: real)
    requires strikes != []
    ensures r in strikes
  {
    var n := |strikes| - 1;
    if n == 0 then strikes[0]
    else
      var best := FirstMinimum(book, anchor, strikes[..n]);
      if Before(book, anchor, strikes[n], best) then strikes[n] else best
  }

  function Anchor(strikes: seq<real>, underlying: Option<real>): real
    requires strikes != []
  {
    if underlying.Some? then underlying.value else strikes[|strikes| / 2]
  }

  function MaxPain(rows: seq<OptionRow>, underlying: Option<real>): Option<real> {
    var book := Book(rows);
    var strikes := StrikesOf(book);
    if strikes == [] then None else Some(FirstMinimum(book, Anchor(strikes, underlying), strikes))
  }

  // ---------- the dictionaries ----------

  lemma {:induction false} EntriesAreRows(rows: seq<OptionRow>, optionType: OptionType)
    ensures forall i :: 0 <= i < |OpenInterest(rows, optionType)| ==>
              Counts(OpenInterest(rows, optionType)[i], optionType) && OpenInterest(rows, optionType)[i] in rows
  {
    if rows != [] {
      EntriesAreRows(rows[..|rows| - 1], optionType);
    }
  }

  lemma {:induction false} StrikesOfMembers(contracts: seq<Contract>)
    ensures StrictlySorted(RealLe, StrikesOf(contracts))
    ensures forall i :: 0 <= i < |contracts| ==> contracts[i].strike in StrikesOf(contracts)
    ensures forall s :: s in StrikesOf(contracts) ==> exists i :: 0 <= i < |contracts| && contracts[i].strike == s
  {
    var strikes := StrikeList(contracts);
    OrdersAreTotal();
    SortDistinctIsSorted(RealLe, strikes);
    forall i | 0 <= i < |contracts| ensures contracts[i].strike in StrikesOf(contracts) {
      assert strikes[i] in strikes;
    }
    forall s | s in StrikesOf(contracts) ensures exists i :: 0 <= i < |contracts| && contracts[i].strike == s {
      assert s in strikes;
      var i :| 0 <= i < |strikes| && strikes[i] == s;
      assert contracts[i].strike == s;
    }
  }

  lemma {:induction false} BookIsListed(rows: seq<OptionRow>)
    ensures Listed(Book(rows), StrikesOf(Book(rows)))
    ensures NonNegative(Book(rows))
  {
    StrikesOfMembers(Book(rows));
    EntriesAreRows(rows, CE);
    EntriesAreRows(rows, PE);
  }

  // ---------- optimality ----------

  /** The choice of the source: no listed strike has a smaller key, and no earlier one an equal key. */
  lemma {:induction false} FirstMinimumIs(book: seq<Contract>, anchor: real, strikes: seq<real>)
    requires strikes != [] && StrictlySorted(RealLe, strikes)
    ensures var r := FirstMinimum(book, anchor, strikes);
      forall s :: s in strikes ==>
        !Before(book, anchor, s, r) && (s < r ==> Before(book, anchor, r, s))
  {
    var n := |strikes| - 1;
    if 0 < n {
      assert strikes == strikes[..n] + [strikes[n]];
      FirstMinimumIs(book, anchor, strikes[..n]);
      assert forall i :: 0 <= i < n ==> RealLe(strikes[i], strikes[n]) && strikes[i] != strikes[n];
    }
  }

  /**
   Max pain is globally optimal: no settlement price whatever, listed or not, costs the writers less.  Among the
   listed strikes that cost the same it is one nearest to the anchor, and of two equally near ones the lower.
   */
  lemma {:induction false} MaxPainIsOptimal(rows: seq<OptionRow>, underlying: Option<real>)
    ensures MaxPain(rows, underlying).None? <==> Book(rows) == []
    ensures MaxPain(rows, underlying).Some? ==>
      var book, best := Book(rows), MaxPain(rows, underlying).value;
      var strikes := StrikesOf(book);
      && best in strikes
      && (forall x :: Payout(book, best) <= Payout(book, x))
      && (forall s :: s in strikes && Payout(book, s) == Payout(book, best) ==>
            Distance(best, Anchor(strikes, underlying)) <= Distance(s, Anchor(strikes, underlying))
            && (Distance(best, Anchor(strikes, underlying)) == Distance(s, Anchor(strikes, underlying)) ==> best <= s))
  {
    var book := Book(rows);
    var strikes := StrikesOf(book);
    StrikesOfMembers(book);
    NonEmptyHasMember(strikes);
    if strikes != [] {
      var anchor := Anchor(strikes, underlying);
      var best := FirstMinimum(book, anchor, strikes);
      FirstMinimumIs(book, anchor, strikes);
      BookIsListed(rows);
      forall x ensures Payout(book, best) <= Payout(book, x) {
        MinimumIsAtAStrike(book, strikes, x);
        var s :| s in strikes && Payout(book, s) <= Payout(book, x);
        assert !Before(book, anchor, s, best);
      }
    }
  }
}
