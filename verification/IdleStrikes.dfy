/** When the nested loops return a strike at which no contract with open interest is struck. */
module IdleStrikes {
  import opened Ordering
  import opened Products
  import opened Sums
  import opened WriterPayout
  import opened DerivedMaxPain

  predicate StruckAt(contracts: seq<Contract>, strike: real) {
    exists i :: 0 <= i < |contracts| && contracts[i].strike == strike
  }

  predicate AllCalls(contracts: seq<Contract>) {
    forall i :: 0 <= i < |contracts| ==> contracts[i].optionType == CE
  }

  ghost predicate PositiveInterest(contracts: seq<Contract>) {
    forall i :: 0 <= i < |contracts| ==> 0.0 < contracts[i].openInterest
  }

  /** Positive open interest, struck at listed strikes, and the lowest of the cheapest of these. */
  ghost predicate Chain(contracts: seq<Contract>, strikes: seq<real>, best: real) {
    && PositiveInterest(contracts)
    && Listed(contracts, strikes)
    && LowestMinimum(contracts, strikes, best)
  }

  lemma {:induction false} RowsArePositive(rows: seq<RawRow>)
    ensures PositiveInterest(Contracts(rows))
  {
    if rows != [] {
      RowsArePositive(rows[..|rows| - 1]);
    }
  }

  // ---------- calls only ----------

  /** Calls cost nothing at or below the lowest strike. */
  lemma {:induction false} CallsAreFreeBelow(contracts: seq<Contract>, x: real)
    requires AllCalls(contracts) && forall i :: 0 <= i < |contracts| ==> x <= contracts[i].strike
    ensures Payout(contracts, x) == 0.0
  {
    SumByConstant(PainAt(x), 0.0, contracts) by {
      assert Times(0.0, 0.0) == 0.0;
      forall i | 0 <= i < |contracts| ensures PainAt(x)(contracts[i]) == 0.0 {
        assert Times(0.0, contracts[i].openInterest) == 0.0;
      }
    }
    assert Times(0.0, |contracts| as real) == 0.0;
  }

  lemma {:induction false} PayoutNotNegative(contracts: seq<Contract>, x: real)
    requires NonNegative(contracts)
    ensures 0.0 <= Payout(contracts, x)
  {
    forall i | 0 <= i < |contracts| ensures 0.0 <= PainAt(x)(contracts[i]) {
      TimesOrder(0.0, PositivePart(x - contracts[i].strike), contracts[i].openInterest);
      TimesOrder(0.0, PositivePart(contracts[i].strike - x), contracts[i].openInterest);
      assert Times(0.0, contracts[i].openInterest) == 0.0;
    }
    SumByAtMost((c: Contract) => 0.0, PainAt(x), contracts);
    SumByConstant((c: Contract) => 0.0, 0.0, contracts);
    assert Times(0.0, |contracts| as real) == 0.0;
  }

  /** On a chain of calls the lowest listed strike is the answer. */
  lemma {:induction false} CallsChooseTheLowest(contracts: seq<Contract>, strikes: seq<real>, best: real)
    requires Chain(contracts, strikes, best) && AllCalls(contracts) && strikes != []
    ensures best == strikes[0]
  {
    forall i | 0 <= i < |contracts| ensures strikes[0] <= contracts[i].strike {
      StrikesBounded(strikes, contracts[i].strike);
    }
    CallsAreFreeBelow(contracts, strikes[0]);
    PayoutNotNegative(contracts, best);
    StrikesBounded(strikes, best);
    assert strikes[0] in strikes;
  }

  // ---------- an idle answer ----------

  /** Left of every strike a put makes a lower settlement price strictly dearer. */
  lemma {:induction false} PutPullsUp(contracts: seq<Contract>, x: real, y: real, p: nat)
    requires PositiveInterest(contracts) && x < y
    requires forall i :: 0 <= i < |contracts| ==> y <= contracts[i].strike
    requires p < |contracts| && contracts[p].optionType == PE
    ensures Payout(contracts, y) < Payout(contracts, x)
  {
    var rest := contracts[..p] + contracts[p + 1..];
    forall c | c in contracts ensures PainAt(y)(c) <= PainAt(x)(c) {
      TimesOrder(PositivePart(c.strike - y), PositivePart(c.strike - x), c.openInterest);
      TimesOrder(PositivePart(y - c.strike), PositivePart(x - c.strike), c.openInterest);
    }
    assert forall i :: 0 <= i < |rest| ==> rest[i] in contracts;
    SumByAtMost(PainAt(y), PainAt(x), rest);
    SumByRemove(PainAt(y), contracts, p);
    SumByRemove(PainAt(x), contracts, p);
    HigherPutPain(contracts[p], x, y);
  }

  lemma {:induction false} HigherPutPain(c: Contract, x: real, y: real)
    requires c.optionType == PE && 0.0 < c.openInterest && x < y <= c.strike
    ensures Pain(c, y) < Pain(c, x)
  {
    TimesSigns(y - x, c.openInterest);
    assert Times(c.strike - x, c.openInterest) == Times(c.strike - y, c.openInterest) + Times(y - x, c.openInterest);
  }

  /** Around an idle strike the payout is linear: where it has come down to the strike, it goes on down. */
  lemma {:induction false} IdleGoesOnDown(contracts: seq<Contract>, strikes: seq<real>, i: nat)
    requires Listed(contracts, strikes) && 0 < i && i + 1 < |strikes| && !StruckAt(contracts, strikes[i])
    requires Payout(contracts, strikes[i]) < Payout(contracts, strikes[i - 1])
    ensures Payout(contracts, strikes[i + 1]) < Payout(contracts, strikes[i])
  {
    var a, r, b := strikes[i - 1], strikes[i], strikes[i + 1];
    assert RealLe(a, r) && a != r && RealLe(r, b) && r != b;
    forall j | 0 <= j < |contracts| ensures contracts[j].strike <= a || b <= contracts[j].strike {
      Beside(strikes, i, contracts[j].strike);
    }
    PayoutIsLinear(contracts, a, r, b);
    StrictMix(b - r, r - a, Payout(contracts, a), Payout(contracts, r), Payout(contracts, b));
  }

  lemma {:induction false} Beside(strikes: seq<real>, i: nat, k: real)
    requires StrictlySorted(RealLe, strikes) && 0 < i < |strikes| && k in strikes && k != strikes[i]
    ensures k <= strikes[i - 1] || (i + 1 < |strikes| && strikes[i + 1] <= k)
  {
    var m :| 0 <= m < |strikes| && strikes[m] == k;
    if m < i - 1 { assert RealLe(strikes[m], strikes[i - 1]); }
    if i + 1 < m { assert RealLe(strikes[i + 1], strikes[m]); }
  }

  lemma {:induction false} StrictMix(u: real, v: real, f: real, h: real, g: real)
    requires 0.0 < u && 0.0 < v && Mixes(u + v, h, u, f, v, g) && h < f
    ensures g < h
  {
    TimesSigns(u, f - h);
    assert u * (f - h) + v * (g - h) == 0.0;
  }

  /** An idle answer has no strike below it. */
  lemma {:induction false} IdleIsLowest(contracts: seq<Contract>, strikes: seq<real>, best: real)
    requires Chain(contracts, strikes, best) && !StruckAt(contracts, best)
    ensures strikes != [] && best == strikes[0]
  {
    var i :| 0 <= i < |strikes| && strikes[i] == best;
    if 0 < i {
      assert RealLe(strikes[i - 1], strikes[i]) && strikes[i - 1] in strikes;
      if i + 1 < |strikes| {
        assert strikes[i + 1] in strikes;
        IdleGoesOnDown(contracts, strikes, i);
      } else {
        var front := strikes[..i];
        forall j | 0 <= j < |contracts| ensures contracts[j].strike in front {
          var m :| 0 <= m < |strikes| && strikes[m] == contracts[j].strike;
          assert front[m] == contracts[j].strike;
        }
        RightOfAll(contracts, front, best);
      }
    }
  }

  /** A put above an idle answer would make the next strike cheaper. */
  lemma {:induction false} IdleMeansCalls(contracts: seq<Contract>, strikes: seq<real>, best: real)
    requires Chain(contracts, strikes, best) && !StruckAt(contracts, best)
    ensures AllCalls(contracts)
  {
    IdleIsLowest(contracts, strikes, best);
    if p :| 0 <= p < |contracts| && contracts[p].optionType == PE {
      forall j | 0 <= j < |contracts| ensures 1 < |strikes| && strikes[1] <= contracts[j].strike {
        var m :| 0 <= m < |strikes| && strikes[m] == contracts[j].strike;
        assert m != 0;
        if 1 < m { assert RealLe(strikes[1], strikes[m]); }
      }
      assert RealLe(strikes[0], strikes[1]) && strikes[0] != strikes[1] && strikes[1] in strikes;
      PutPullsUp(contracts, best, strikes[1], p);
    }
  }

  /**
   The strike that the loops return is idle, no contract with open interest being struck at it, if and only if the
   chain has no put with open interest and its lowest strike is idle.
   */
  lemma {:induction false} IdleStrikeExactly(rows: seq<RawRow>, looped: real)
    requires LowestMinimum(Contracts(rows), ListedStrikes(rows), looped)
    ensures ListedStrikes(rows) != []
    ensures !StruckAt(Contracts(rows), looped) <==>
              AllCalls(Contracts(rows)) && !StruckAt(Contracts(rows), ListedStrikes(rows)[0])
  {
    ContractsAreListed(rows);
    RowsArePositive(rows);
    if !StruckAt(Contracts(rows), looped) {
      IdleIsLowest(Contracts(rows), ListedStrikes(rows), looped);
      IdleMeansCalls(Contracts(rows), ListedStrikes(rows), looped);
    } else if AllCalls(Contracts(rows)) {
      CallsChooseTheLowest(Contracts(rows), ListedStrikes(rows), looped);
    }
  }
}
