/** Max pain by nested loops over raw rows (`_max_pain` of `derived_market_outputs.py`). */
module DerivedMaxPain {
  import opened Common
  import opened Ordering
  import opened Products
  import opened Sums
  import opened WriterPayout

  /** A raw row: `None` is a number that does not parse; the option type is upper-cased text. */
  datatype RawRow = RawRow(strike: Option<real>, optionType: string, openInterest: Option<real>)

  /** The contract a row contributes to the sum, if any. */
  function ContractOf(row: RawRow): Option<Contract> {
    if Positive(row.strike).None? || Positive(row.openInterest).None? then None
    else if row.optionType == "CE" then Some(Contract(row.strike.value, CE, row.openInterest.value))
    else if row.optionType == "PE" then Some(Contract(row.strike.value, PE, row.openInterest.value))
    else None
  }

  function Contracts(rows: seq<RawRow>): seq<Contract> {
    if rows == [] then []
    else
      var n := |rows| - 1;
      var earlier := Contracts(rows[..n]);
      if ContractOf(rows[n]).Some? then earlier + [ContractOf(rows[n]).value] else earlier
  }

  /** Every positive strike of every row, with or without open interest. */
  function PositiveStrikes(rows: seq<RawRow>): seq<real> {
    if rows == [] then []
    else
      var n := |rows| - 1;
      var earlier := PositiveStrikes(rows[..n]);
      if Positive(rows[n].strike).Some? then earlier + [rows[n].strike.value] else earlier
  }

  function ListedStrikes(rows: seq<RawRow>): seq<real> {
    SortDistinct(RealLe, PositiveStrikes(rows))
  }

  lemma {:induction false} ContractsMembers(rows: seq<RawRow>)
    ensures NonNegative(Contracts(rows))
    ensures forall i :: 0 <= i < |Contracts(rows)| ==> Contracts(rows)[i].strike in PositiveStrikes(rows)
  {
    if rows != [] {
      ContractsMembers(rows[..|rows| - 1]);
    }
  }

  lemma {:induction false} ContractsAreListed(rows: seq<RawRow>)
    ensures Listed(Contracts(rows), ListedStrikes(rows)) && NonNegative(Contracts(rows))
  {
    OrdersAreTotal();
    SortDistinctIsSorted(RealLe, PositiveStrikes(rows));
    ContractsMembers(rows);
  }

  /** The inner loop: the payout at one candidate strike. */
  method PainAtCandidate(rows: seq<RawRow>, candidate: real) returns (pain: real)
    ensures pain == Payout(Contracts(rows), candidate)
  {
    pain := 0.0;
    for i := 0 to |rows|
      invariant pain == Payout(Contracts(rows[..i]), candidate)
    {
      assert rows[..i + 1][..i] == rows[..i];
      var contract := ContractOf(rows[i]);
      var strike := Positive(rows[i].strike);
      var oi := Positive(rows[i].openInterest);
      if contract.Some? {
        SumBySnoc(PainAt(candidate), Contracts(rows[..i]), contract.value);
      }
      if strike.None? || oi.None? {
        continue;
      }
      if rows[i].optionType == "CE" && candidate > strike.value {
        pain := pain + Times(candidate - strike.value, oi.value);
      } else if rows[i].optionType == "PE" && candidate < strike.value {
        pain := pain + Times(strike.value - candidate, oi.value);
      }
    }
    assert rows[..|rows|] == rows;
  }

  /** A listed strike with the least payout among the listed strikes, and the lowest such strike. */
  ghost predicate LowestMinimum(contracts: seq<Contract>, strikes: seq<real>, best: real) {
    && best in strikes
    && forall s :: s in strikes ==>
         Payout(contracts, best) <= Payout(contracts, s)
         && (s < best ==> Payout(contracts, best) < Payout(contracts, s))
  }

  /** The outer loop keeps the first strike with the least payout seen so far. */
  method BestOfStrikes(rows: seq<RawRow>, strikes: seq<real>) returns (best: Option<(real, real)>)
    requires forall i, j :: 0 <= i < j < |strikes| ==> strikes[i] < strikes[j]
    ensures best.None? <==> strikes == []
    ensures best.Some? ==> LowestMinimum(Contracts(rows), strikes, best.value.0)
  {
    best := None;
    for i := 0 to |strikes|
      invariant best.None? <==> i == 0
      invariant best.Some? ==> LowestMinimum(Contracts(rows), strikes[..i], best.value.0)
      invariant best.Some? ==> best.value.1 == Payout(Contracts(rows), best.value.0)
    {
      var pain := PainAtCandidate(rows, strikes[i]);
      assert strikes[..i + 1] == strikes[..i] + [strikes[i]];
      if best.None? || pain < best.value.1 {
        best := Some((strikes[i], pain));
      }
    }
    assert strikes[..|strikes|] == strikes;
  }

  method MaxPainByLoops(rows: seq<RawRow>) returns (r: Option<real>)
    ensures r.None? <==> PositiveStrikes(rows) == []
    ensures r.Some? ==> LowestMinimum(Contracts(rows), ListedStrikes(rows), r.value)
    ensures r.Some? ==> forall x :: Payout(Contracts(rows), r.value) <= Payout(Contracts(rows), x)
  {
    var strikes := ListedStrikes(rows);
    OrdersAreTotal();
    SortDistinctIsSorted(RealLe, PositiveStrikes(rows));
    NonEmptyHasMember(strikes);
    NonEmptyHasMember(PositiveStrikes(rows));
    forall i, j | 0 <= i < j < |strikes| ensures strikes[i] < strikes[j] {
      assert RealLe(strikes[i], strikes[j]);
    }
    var best := BestOfStrikes(rows, strikes);
    if best.Some? {
      GloballyOptimal(rows, best.value.0);
      return Some(best.value.0);
    }
    return None;
  }

  lemma {:induction false} GloballyOptimal(rows: seq<RawRow>, best: real)
    requires ListedStrikes(rows) != [] && LowestMinimum(Contracts(rows), ListedStrikes(rows), best)
    ensures forall x :: Payout(Contracts(rows), best) <= Payout(Contracts(rows), x)
  {
    ContractsAreListed(rows);
    forall x ensures Payout(Contracts(rows), best) <= Payout(Contracts(rows), x) {
      MinimumIsAtAStrike(Contracts(rows), ListedStrikes(rows), x);
    }
  }
}
