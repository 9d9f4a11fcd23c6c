/** The two max-pain implementations side by side: one overwrites repeated contracts, the other adds them up. */
module MaxPainAgreement {
  import opened Common
  import opened Ordering
  import opened Products
  import opened Sums
  import opened WriterPayout
  import opened CommodityMaxPain
  import opened DerivedMaxPain
  import opened IdleStrikes

  function AsRaw(row: OptionRow): RawRow {
    RawRow(Some(row.strike), if row.optionType == CE then "CE" else "PE", Some(row.openInterest))
  }

  function AsRawRows(rows: seq<OptionRow>): seq<RawRow> {
    MapSeq((r: OptionRow) => AsRaw(r), rows)
  }

  ghost predicate PositiveStrikeRows(rows: seq<OptionRow>) {
    forall i :: 0 <= i < |rows| ==> 0.0 < rows[i].strike && 0.0 <= rows[i].openInterest
  }

  /** Two rows with open interest for one contract. */
  predicate Repeats(a: OptionRow, b: OptionRow) {
    a.strike == b.strike && a.optionType == b.optionType && 0.0 < a.openInterest && 0.0 < b.openInterest
  }

  /** At most one row with open interest for each strike and type. */
  ghost predicate OneRowPerContract(rows: seq<OptionRow>) {
    forall i, j :: 0 <= i < j < |rows| ==> !Repeats(rows[i], rows[j])
  }

  /** The rows of one kind with open interest, as the loops add them up. */
  function Rows(rows: seq<OptionRow>, optionType: OptionType): seq<Contract> {
    if rows == [] then []
    else
      var n := |rows| - 1;
      var earlier := Rows(rows[..n], optionType);
      if Counts(rows[n], optionType) then earlier + [rows[n]] else earlier
  }

  lemma {:induction false} AsRawRowsSnoc(rows: seq<OptionRow>, row: OptionRow)
    requires 0.0 < row.strike
    ensures Contracts(AsRawRows(rows + [row]))
            == if 0.0 < row.openInterest then Contracts(AsRawRows(rows)) + [row] else Contracts(AsRawRows(rows))
  {
    assert AsRawRows(rows + [row])[..|rows|] == AsRawRows(rows);
    assert AsRawRows(rows + [row])[|rows|] == AsRaw(row);
    assert ContractOf(AsRaw(row)) == if 0.0 < row.openInterest then Some(row) else None;
  }

  lemma {:induction false} ContractsAreRows(rows: seq<OptionRow>, x: real)
    requires PositiveStrikeRows(rows)
    ensures Payout(Contracts(AsRawRows(rows)), x) == Payout(Rows(rows, CE), x) + Payout(Rows(rows, PE), x)
  {
    if rows != [] {
      var front, row := rows[..|rows| - 1], rows[|rows| - 1];
      assert rows == front + [row];
      ContractsAreRows(front, x);
      AsRawRowsSnoc(front, row);
      SumBySnoc(PainAt(x), Contracts(AsRawRows(front)), row);
      SumBySnoc(PainAt(x), Rows(front, row.optionType), row);
    }
  }

  lemma {:induction false} StrikesAreStrikes(rows: seq<OptionRow>, s: real)
    requires PositiveStrikeRows(rows)
    ensures s in PositiveStrikes(AsRawRows(rows)) <==> exists i :: 0 <= i < |rows| && rows[i].strike == s
  {
    if rows != [] {
      var n := |rows| - 1;
      StrikesAreStrikes(rows[..n], s);
      assert AsRawRows(rows)[..n] == AsRawRows(rows[..n]);
      assert AsRawRows(rows)[n] == AsRaw(rows[n]);
      assert rows == rows[..n] + [rows[n]];
    }
  }

  // ---------- overwriting against adding up ----------

  /** The payout an overwritten dictionary entry would have added, if the row replaces one. */
  function Dropped(entries: seq<Contract>, row: Contract, x: real): real {
    var i := Find(entries, row.strike);
    if i.Some? then Pain(entries[i.value], x) else 0.0
  }

  lemma {:induction false} PutPayout(entries: seq<Contract>, row: Contract, x: real)
    ensures Payout(Put(entries, row), x) == Payout(entries, x) + Pain(row, x) - Dropped(entries, row, x)
  {
    match Find(entries, row.strike)
    case None =>
      SumBySnoc(PainAt(x), entries, row);
    case Some(i) =>
      SumByRemove(PainAt(x), entries, i);
      SumByRemove(PainAt(x), entries[i := row], i);
      assert entries[i := row][..i] + entries[i := row][i + 1..] == entries[..i] + entries[i + 1..];
  }

  lemma {:induction false} PainNotNegative(c: Contract, x: real)
    requires 0.0 <= c.openInterest
    ensures 0.0 <= Pain(c, x)
    ensures 0.0 < c.openInterest && ((c.optionType == CE && c.strike < x) || (c.optionType == PE && x < c.strike)) ==>
              0.0 < Pain(c, x)
  {
    TimesSigns(PositivePart(x - c.strike), c.openInterest);
    TimesSigns(PositivePart(c.strike - x), c.openInterest);
    assert Times(0.0, c.openInterest) == 0.0;
  }

  /** The dictionary payout of one kind never exceeds the added-up payout. */
  lemma {:induction false} DictionaryAtMost(rows: seq<OptionRow>, optionType: OptionType, x: real)
    ensures Payout(OpenInterest(rows, optionType), x) <= Payout(Rows(rows, optionType), x)
  {
    if rows != [] {
      var n := |rows| - 1;
      DictionaryAtMost(rows[..n], optionType, x);
      if Counts(rows[n], optionType) {
        PutPayout(OpenInterest(rows[..n], optionType), rows[n], x);
        SumBySnoc(PainAt(x), Rows(rows[..n], optionType), rows[n]);
        EntriesAreRows(rows[..n], optionType);
        var i := Find(OpenInterest(rows[..n], optionType), rows[n].strike);
        if i.Some? {
          PainNotNegative(OpenInterest(rows[..n], optionType)[i.value], x);
        }
      }
    }
  }

  /** Without repeated contracts nothing is overwritten. */
  lemma {:induction false} DictionaryExact(rows: seq<OptionRow>, optionType: OptionType)
    requires OneRowPerContract(rows)
    ensures OpenInterest(rows, optionType) == Rows(rows, optionType)
  {
    if rows != [] {
      var n := |rows| - 1;
      assert OneRowPerContract(rows[..n]);
      DictionaryExact(rows[..n], optionType);
      if Counts(rows[n], optionType) {
        var entries := OpenInterest(rows[..n], optionType);
        EntriesAreRows(rows[..n], optionType);
        forall k | 0 <= k < |entries| ensures entries[k].strike != rows[n].strike {
          var j :| 0 <= j < n && rows[..n][j] == entries[k];
          assert !Repeats(rows[j], rows[n]);
        }
      }
    }
  }

  /** Every counted row leaves an entry for its strike. */
  lemma {:induction false} EntryRemains(rows: seq<OptionRow>, optionType: OptionType, j: nat)
    requires j < |rows| && Counts(rows[j], optionType)
    ensures Find(OpenInterest(rows, optionType), rows[j].strike).Some?
  {
    var n := |rows| - 1;
    var entries := OpenInterest(rows, optionType);
    if j == n {
      var i := Find(OpenInterest(rows[..n], optionType), rows[n].strike);
      assert exists k :: 0 <= k < |entries| && entries[k].strike == rows[j].strike by {
        assert entries[if i.Some? then i.value else |entries| - 1].strike == rows[j].strike;
      }
    } else {
      EntryRemains(rows[..n], optionType, j);
      var i := Find(OpenInterest(rows[..n], optionType), rows[j].strike).value;
      assert entries[i].strike == rows[j].strike;
    }
  }

  /** A settlement price at which an option of the given kind and strike is exercised. */
  function Exercising(optionType: OptionType, strike: real): real {
    if optionType == CE then strike + 1.0 else strike - 1.0
  }

  /** A repeated contract makes the dictionary payout strictly smaller at some settlement price. */
  lemma {:induction false} RepeatIsDropped(rows: seq<OptionRow>, i: nat, j: nat, x: real)
    requires i < j < |rows| && Repeats(rows[i], rows[j])
    requires x == Exercising(rows[i].optionType, rows[i].strike)
    ensures Payout(OpenInterest(rows, rows[i].optionType), x) < Payout(Rows(rows, rows[i].optionType), x)
  {
    var n := |rows| - 1;
    var optionType := rows[i].optionType;
    var entries := OpenInterest(rows[..n], optionType);
    DictionaryAtMost(rows[..n], optionType, x);
    if Counts(rows[n], optionType) {
      PutPayout(entries, rows[n], x);
      SumBySnoc(PainAt(x), Rows(rows[..n], optionType), rows[n]);
      EntriesAreRows(rows[..n], optionType);
      var k := Find(entries, rows[n].strike);
      if k.Some? {
        PainNotNegative(entries[k.value], x);
      }
    }
    if j < n {
      RepeatIsDropped(rows[..n], i, j, x);
    } else {
      EntryRemains(rows[..n], optionType, i);
    }
  }

  /**
   The two payout functions coincide exactly when no contract with open interest is listed twice; otherwise the
   dictionaries forget the earlier row where the loops add it.
   */
  lemma {:induction false} PayoutsAgreeExactly(rows: seq<OptionRow>)
    requires PositiveStrikeRows(rows)
    ensures OneRowPerContract(rows) <==>
              forall x :: Payout(Book(rows), x) == Payout(Contracts(AsRawRows(rows)), x)
  {
    if OneRowPerContract(rows) {
      forall x ensures Payout(Book(rows), x) == Payout(Contracts(AsRawRows(rows)), x) {
        DictionaryExact(rows, CE);
        DictionaryExact(rows, PE);
        ContractsAreRows(rows, x);
        SumByConcat(PainAt(x), OpenInterest(rows, CE), OpenInterest(rows, PE));
      }
    } else {
      var i, j :| 0 <= i < j < |rows| && Repeats(rows[i], rows[j]);
      var x := Exercising(rows[i].optionType, rows[i].strike);
      RepeatIsDropped(rows, i, j, x);
      DictionaryAtMost(rows, CE, x);
      DictionaryAtMost(rows, PE, x);
      ContractsAreRows(rows, x);
      SumByConcat(PainAt(x), OpenInterest(rows, CE), OpenInterest(rows, PE));
      assert Payout(Book(rows), x) < Payout(Contracts(AsRawRows(rows)), x);
    }
  }

  lemma {:induction false} BookStrikesAreListed(rows: seq<OptionRow>, s: real)
    requires PositiveStrikeRows(rows) && s in StrikesOf(Book(rows))
    ensures s in ListedStrikes(AsRawRows(rows))
  {
    StrikesOfMembers(Book(rows));
    EntriesAreRows(rows, CE);
    EntriesAreRows(rows, PE);
    var i :| 0 <= i < |Book(rows)| && Book(rows)[i].strike == s;
    assert Book(rows)[i] in rows;
    StrikesAreStrikes(rows, s);
    OrdersAreTotal();
    SortDistinctIsSorted(RealLe, PositiveStrikes(AsRawRows(rows)));
  }

  /** The same chain for both implementations: positive strikes, one row per contract, some open interest. */
  ghost predicate CommonChain(rows: seq<OptionRow>) {
    && PositiveStrikeRows(rows) && OneRowPerContract(rows)
    && exists i :: 0 <= i < |rows| && 0.0 < rows[i].openInterest
  }

  lemma {:induction false} BothReturnAStrike(rows: seq<OptionRow>, underlying: Option<real>)
    requires CommonChain(rows)
    ensures MaxPain(rows, underlying).Some?
    ensures StrikesOf(Book(rows)) != [] && MaxPain(rows, underlying).value in StrikesOf(Book(rows))
    ensures MaxPain(rows, underlying).value in ListedStrikes(AsRawRows(rows))
  {
    var i :| 0 <= i < |rows| && 0.0 < rows[i].openInterest;
    EntryRemains(rows, rows[i].optionType, i);
    MaxPainIsOptimal(rows, underlying);
    BookStrikesAreListed(rows, MaxPain(rows, underlying).value);
  }

  /** What the loops compare is what the dictionaries compare. */
  lemma {:induction false} LowestInTheBook(rows: seq<OptionRow>, looped: real)
    requires CommonChain(rows)
    ensures LowestMinimum(Contracts(AsRawRows(rows)), ListedStrikes(AsRawRows(rows)), looped)
            <==> LowestMinimum(Book(rows), ListedStrikes(AsRawRows(rows)), looped)
  {
    PayoutsAgreeExactly(rows);
    assert forall s :: Payout(Contracts(AsRawRows(rows)), s) == Payout(Book(rows), s);
  }

  /**
   On a common chain both implementations return a strike, the two strikes cost the writers the same, and the loops
   return the lower or the same one.
   */
  lemma {:induction false} ImplementationsAgree(rows: seq<OptionRow>, underlying: Option<real>, looped: real)
    requires CommonChain(rows)
    requires LowestMinimum(Contracts(AsRawRows(rows)), ListedStrikes(AsRawRows(rows)), looped)
    ensures MaxPain(rows, underlying).Some?
    ensures Payout(Book(rows), looped) == Payout(Book(rows), MaxPain(rows, underlying).value)
    ensures looped <= MaxPain(rows, underlying).value
  {
    BothReturnAStrike(rows, underlying);
    MaxPainIsOptimal(rows, underlying);
    LowestInTheBook(rows, looped);
  }

  /** A strike of the book, at least as near to the anchor as every strike of the book that costs the same. */
  ghost predicate Nearest(book: seq<Contract>, underlying: Option<real>, s: real) {
    && s in StrikesOf(book)
    && forall t :: t in StrikesOf(book) && Payout(book, t) == Payout(book, s) ==>
         Distance(s, Anchor(StrikesOf(book), underlying)) <= Distance(t, Anchor(StrikesOf(book), underlying))
  }

  /**
   The two strikes are the same if and only if some strike of the book is both: the lowest of the cheapest listed
   strikes, idle ones included, and as near to the anchor as any equally cheap strike of the book.
   */
  lemma {:induction false} SameStrikeExactly(rows: seq<OptionRow>, underlying: Option<real>, looped: real)
    requires CommonChain(rows)
    requires LowestMinimum(Contracts(AsRawRows(rows)), ListedStrikes(AsRawRows(rows)), looped)
    ensures MaxPain(rows, underlying) == Some(looped) <==>
              exists s :: LowestMinimum(Book(rows), ListedStrikes(AsRawRows(rows)), s)
                          && Nearest(Book(rows), underlying, s)
  {
    var book, listed := Book(rows), ListedStrikes(AsRawRows(rows));
    ImplementationsAgree(rows, underlying, looped);
    BothReturnAStrike(rows, underlying);
    MaxPainIsOptimal(rows, underlying);
    LowestInTheBook(rows, looped);
    var best := MaxPain(rows, underlying).value;
    assert Nearest(book, underlying, best);
    if s :| LowestMinimum(book, listed, s) && Nearest(book, underlying, s) {
      assert s == looped;
      assert Payout(book, best) == Payout(book, s);
    }
  }

  // ---------- idle strikes ----------

  lemma {:induction false} StruckMonotone(contracts: seq<Contract>, c: Contract, strike: real)
    requires StruckAt(contracts, strike) || c.strike == strike
    ensures StruckAt(contracts + [c], strike)
  {
    if c.strike == strike {
      assert (contracts + [c])[|contracts|].strike == strike;
    } else {
      var i :| 0 <= i < |contracts| && contracts[i].strike == strike;
      assert (contracts + [c])[i].strike == strike;
    }
  }

  /** A row with open interest is a contract that the loops add up. */
  lemma {:induction false} CountedIsStruck(rows: seq<OptionRow>, j: nat)
    requires PositiveStrikeRows(rows) && j < |rows| && 0.0 < rows[j].openInterest
    ensures StruckAt(Contracts(AsRawRows(rows)), rows[j].strike)
  {
    var front, row := rows[..|rows| - 1], rows[|rows| - 1];
    assert rows == front + [row];
    AsRawRowsSnoc(front, row);
    if j < |front| {
      CountedIsStruck(front, j);
    }
    if 0.0 < row.openInterest {
      StruckMonotone(Contracts(AsRawRows(front)), row, rows[j].strike);
    }
  }

  /** On a chain of calls whose lowest strike is idle the loops return a lower strike than the dictionaries. */
  lemma {:induction false} IdleLowestDiffers(rows: seq<OptionRow>, underlying: Option<real>, looped: real)
    requires CommonChain(rows)
    requires LowestMinimum(Contracts(AsRawRows(rows)), ListedStrikes(AsRawRows(rows)), looped)
    requires AllCalls(Contracts(AsRawRows(rows)))
    requires !StruckAt(Contracts(AsRawRows(rows)), ListedStrikes(AsRawRows(rows))[0])
    ensures MaxPain(rows, underlying).Some? && looped < MaxPain(rows, underlying).value
  {
    IdleStrikeExactly(AsRawRows(rows), looped);
    ImplementationsAgree(rows, underlying, looped);
    BothReturnAStrike(rows, underlying);
    var best := MaxPain(rows, underlying).value;
    StrikesOfMembers(Book(rows));
    EntriesAreRows(rows, CE);
    EntriesAreRows(rows, PE);
    var i :| 0 <= i < |Book(rows)| && Book(rows)[i].strike == best;
    var j :| 0 <= j < |rows| && rows[j] == Book(rows)[i];
    CountedIsStruck(rows, j);
  }

  // ---------- a chain on which the strikes differ ----------

  const IDLE_BELOW: seq<OptionRow> := [] + [Contract(50.0, CE, 0.0)] + [CALL]

  const CALL := Contract(100.0, CE, 1.0)

  lemma {:induction false} OpenInterestSnoc(rows: seq<OptionRow>, row: OptionRow, optionType: OptionType)
    ensures OpenInterest(rows + [row], optionType)
            == if Counts(row, optionType) then Put(OpenInterest(rows, optionType), row)
               else OpenInterest(rows, optionType)
  {
    assert (rows + [row])[..|rows|] == rows;
  }

  lemma {:induction false} IdleBook()
    ensures Book(IDLE_BELOW) == [CALL]
    ensures Payout([CALL], 50.0) == 0.0 && Payout([CALL], 100.0) == 0.0
  {
    forall t: OptionType ensures OpenInterest(IDLE_BELOW, t) == if t == CE then [CALL] else [] {
      OpenInterestSnoc([], Contract(50.0, CE, 0.0), t);
      OpenInterestSnoc([] + [Contract(50.0, CE, 0.0)], CALL, t);
    }
    SumBySnoc(PainAt(50.0), [], CALL);
    SumBySnoc(PainAt(100.0), [], CALL);
    assert [] + [CALL] == [CALL];
    assert Times(0.0, 1.0) == 0.0;
  }

  /** An idle strike below a single call: the dictionaries choose the strike of the call, the loops the idle one. */
  lemma {:induction false} IdleStrikeIsChosen(looped: real)
    requires LowestMinimum(Contracts(AsRawRows(IDLE_BELOW)), ListedStrikes(AsRawRows(IDLE_BELOW)), looped)
    ensures PositiveStrikeRows(IDLE_BELOW) && OneRowPerContract(IDLE_BELOW)
    ensures MaxPain(IDLE_BELOW, None) == Some(100.0) && looped == 50.0
  {
    IdleBook();
    assert IDLE_BELOW[0].strike == 50.0 && IDLE_BELOW[1] == CALL;
    StrikesOfMembers(Book(IDLE_BELOW));
    MaxPainIsOptimal(IDLE_BELOW, None);
    LowestInTheBook(IDLE_BELOW, looped);
    OrdersAreTotal();
    SortDistinctIsSorted(RealLe, PositiveStrikes(AsRawRows(IDLE_BELOW)));
    StrikesAreStrikes(IDLE_BELOW, looped);
    StrikesAreStrikes(IDLE_BELOW, 50.0);
  }

  // ---------- equally cheap strikes ----------

  const PUT := Contract(50.0, PE, 1.0)

  const STRANGLE: seq<OptionRow> := [] + [PUT] + [CALL]

  lemma {:induction false} StrangleBook()
    ensures Book(STRANGLE) == [CALL] + [PUT]
    ensures Payout(Book(STRANGLE), 50.0) == 0.0 && Payout(Book(STRANGLE), 100.0) == 0.0
  {
    forall t: OptionType ensures OpenInterest(STRANGLE, t) == if t == CE then [CALL] else [PUT] {
      OpenInterestSnoc([], PUT, t);
      OpenInterestSnoc([] + [PUT], CALL, t);
    }
    assert [] + [CALL] + [PUT] == [CALL] + [PUT];
    forall x: real | x == 50.0 || x == 100.0 ensures Payout([CALL] + [PUT], x) == 0.0 {
      SumBySnoc(PainAt(x), [], CALL);
      SumBySnoc(PainAt(x), [] + [CALL], PUT);
      assert Times(0.0, 1.0) == 0.0;
    }
  }

  /** A put below a call, the underlying at the call: both strikes cost nothing, and each version takes another one. */
  lemma {:induction false} EquallyCheapDiffer(looped: real)
    requires LowestMinimum(Contracts(AsRawRows(STRANGLE)), ListedStrikes(AsRawRows(STRANGLE)), looped)
    ensures CommonChain(STRANGLE)
    ensures MaxPain(STRANGLE, Some(100.0)) == Some(100.0) && looped == 50.0
  {
    StrangleBook();
    assert STRANGLE[0] == PUT && STRANGLE[1] == CALL;
    assert Book(STRANGLE)[0] == CALL;
    StrikesOfMembers(Book(STRANGLE));
    MaxPainIsOptimal(STRANGLE, Some(100.0));
    LowestInTheBook(STRANGLE, looped);
    OrdersAreTotal();
    SortDistinctIsSorted(RealLe, PositiveStrikes(AsRawRows(STRANGLE)));
    StrikesAreStrikes(STRANGLE, looped);
    StrikesAreStrikes(STRANGLE, 50.0);
  }
}
