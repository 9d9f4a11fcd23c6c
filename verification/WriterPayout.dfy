/**
 The payout of option writers as a function of the settlement price: a sum of hinges, one for each contract.  Such
 a sum is linear between neighbouring strikes, so its minimum over all prices is reached at a strike.
 */
module WriterPayout {
  import opened Ordering
  import opened Products
  import opened Sums

  datatype OptionType = CE | PE

  /** Open interest of one kind at one strike. */
  datatype Contract = Contract(strike: real, optionType: OptionType, openInterest: real)

  function PositivePart(x: real): real { if x < 0.0 then 0.0 else x }

  /** What one contract costs its writer at a settlement price. */
  function Pain(c: Contract, settlement: real): real {
    match c.optionType
    case CE => Times(PositivePart(settlement - c.strike), c.openInterest)
    case PE => Times(PositivePart(c.strike - settlement), c.openInterest)
  }

  function PainAt(settlement: real): Contract -> real {
    (c: Contract) => Pain(c, settlement)
  }

  function Payout(contracts: seq<Contract>, settlement: real): real {
    SumBy(PainAt(settlement), contracts)
  }

  ghost predicate NonNegative(contracts: seq<Contract>) {
    forall i :: 0 <= i < |contracts| ==> 0.0 <= contracts[i].openInterest
  }

  /** The strikes are listed in ascending order and every contract is struck at one of them. */
  ghost predicate Listed(contracts: seq<Contract>, strikes: seq<real>) {
    && StrictlySorted(RealLe, strikes)
    && forall i :: 0 <= i < |contracts| ==> contracts[i].strike in strikes
  }

  lemma {:induction false} StrikesBounded(strikes: seq<real>, k: real)
    requires StrictlySorted(RealLe, strikes) && k in strikes
    ensures strikes[0] <= k <= strikes[|strikes| - 1]
  {
    var i :| 0 <= i < |strikes| && strikes[i] == k;
    assert i == 0 || RealLe(strikes[0], strikes[i]);
    assert i == |strikes| - 1 || RealLe(strikes[i], strikes[|strikes| - 1]);
  }

  /** Below the lowest strike the payout can only fall towards that strike. */
  lemma {:induction false} LeftOfAll(contracts: seq<Contract>, strikes: seq<real>, x: real)
    requires strikes != [] && Listed(contracts, strikes) && NonNegative(contracts) && x <= strikes[0]
    ensures Payout(contracts, strikes[0]) <= Payout(contracts, x)
  {
    var s := strikes[0];
    forall i | 0 <= i < |contracts| ensures PainAt(s)(contracts[i]) <= PainAt(x)(contracts[i]) {
      StrikesBounded(strikes, contracts[i].strike);
      var k := contracts[i].strike;
      TimesOrder(PositivePart(k - s), PositivePart(k - x), contracts[i].openInterest);
    }
    SumByAtMost(PainAt(s), PainAt(x), contracts);
  }

  /** Above the highest strike it can only rise away from that strike. */
  lemma {:induction false} RightOfAll(contracts: seq<Contract>, strikes: seq<real>, x: real)
    requires strikes != [] && Listed(contracts, strikes) && NonNegative(contracts) && strikes[|strikes| - 1] <= x
    ensures Payout(contracts, strikes[|strikes| - 1]) <= Payout(contracts, x)
  {
    var s := strikes[|strikes| - 1];
    forall i | 0 <= i < |contracts| ensures PainAt(s)(contracts[i]) <= PainAt(x)(contracts[i]) {
      StrikesBounded(strikes, contracts[i].strike);
      var k := contracts[i].strike;
      TimesOrder(PositivePart(s - k), PositivePart(x - k), contracts[i].openInterest);
    }
    SumByAtMost(PainAt(s), PainAt(x), contracts);
  }

  /** `w * h == u * f + v * g`, written with `Times`. */
  predicate Mixes(w: real, h: real, u: real, f: real, v: real, g: real) {
    Times(w, h) == Times(u, f) + Times(v, g)
  }

  lemma {:induction false} MixesAdd(w: real, u: real, v: real, h: real, f: real, g: real, h': real, f': real, g': real)
    requires Mixes(w, h, u, f, v, g) && Mixes(w, h', u, f', v, g')
    ensures Mixes(w, h + h', u, f + f', v, g + g')
  {
    assert Times(w, h + h') == Times(w, h) + Times(w, h');
    assert Times(u, f + f') == Times(u, f) + Times(u, f');
    assert Times(v, g + g') == Times(v, g) + Times(v, g');
  }

  lemma {:induction false} MixesScaled(w: real, u: real, v: real, h: real, f: real, g: real, n: real)
    requires Mixes(w, h, u, f, v, g)
    ensures Mixes(w, Times(h, n), u, Times(f, n), v, Times(g, n))
  {
    TimesLaws(w, h, n);
    TimesLaws(u, f, n);
    TimesLaws(v, g, n);
    assert Times(Times(u, f) + Times(v, g), n) == Times(Times(u, f), n) + Times(Times(v, g), n);
  }

  /** A hinge is linear on an interval that does not have its kink inside. */
  lemma {:induction false} HingeIsLinear(k: real, a: real, x: real, b: real)
    requires a <= x <= b && (k <= a || b <= k)
    ensures Mixes(b - a, PositivePart(x - k), b - x, PositivePart(a - k), x - a, PositivePart(b - k))
    ensures Mixes(b - a, PositivePart(k - x), b - x, PositivePart(k - a), x - a, PositivePart(k - b))
  {
    assert (b - a) * (x - k) == (b - x) * (a - k) + (x - a) * (b - k);
    assert (b - a) * (k - x) == (b - x) * (k - a) + (x - a) * (k - b);
  }

  lemma {:induction false} PainIsLinear(c: Contract, a: real, x: real, b: real)
    requires a <= x <= b && (c.strike <= a || b <= c.strike)
    ensures Mixes(b - a, Pain(c, x), b - x, Pain(c, a), x - a, Pain(c, b))
  {
    HingeIsLinear(c.strike, a, x, b);
    MixesScaled(b - a, b - x, x - a, PositivePart(x - c.strike), PositivePart(a - c.strike), PositivePart(b - c.strike),
                c.openInterest);
    MixesScaled(b - a, b - x, x - a, PositivePart(c.strike - x), PositivePart(c.strike - a), PositivePart(c.strike - b),
                c.openInterest);
  }

  /** The payout is linear between neighbouring strikes. */
  lemma {:induction false} PayoutIsLinear(contracts: seq<Contract>, a: real, x: real, b: real)
    requires a <= x <= b
    requires forall i :: 0 <= i < |contracts| ==> contracts[i].strike <= a || b <= contracts[i].strike
    ensures Mixes(b - a, Payout(contracts, x), b - x, Payout(contracts, a), x - a, Payout(contracts, b))
  {
    if contracts == [] {
      assert Times(b - a, 0.0) == 0.0 && Times(b - x, 0.0) == 0.0 && Times(x - a, 0.0) == 0.0;
    } else {
      var n := |contracts| - 1;
      var c := contracts[n];
      PayoutIsLinear(contracts[..n], a, x, b);
      PainIsLinear(c, a, x, b);
      MixesAdd(b - a, b - x, x - a, Payout(contracts[..n], x), Payout(contracts[..n], a), Payout(contracts[..n], b),
               Pain(c, x), Pain(c, a), Pain(c, b));
    }
  }

  lemma {:induction false} PositiveMix(p: real, q: real, u: real, v: real)
    ensures 0.0 <= p && 0.0 <= q && 0.0 < p + q && 0.0 < u && 0.0 < v ==> 0.0 < p * u + q * v
  {
    if 0.0 <= p && 0.0 <= q && 0.0 < p + q && 0.0 < u && 0.0 < v {
      if 0.0 < p {
        assert 0.0 < p * u && 0.0 <= q * v;
      } else {
        assert p * u == 0.0 && 0.0 < q * v;
      }
    }
  }

  lemma {:induction false} MixIsNotBelowBoth(a: real, x: real, b: real, h: real, f: real, g: real)
    requires a < b && a <= x <= b && Mixes(b - a, h, b - x, f, x - a, g)
    ensures f <= h || g <= h
  {
    PositiveMix(b - x, x - a, f - h, g - h);
    assert (b - x) * (f - h) + (x - a) * (g - h) == 0.0;
  }

  /** The neighbouring strikes around a price inside the listed range. */
  lemma {:induction false} Neighbours(strikes: seq<real>, x: real) returns (i: nat)
    requires StrictlySorted(RealLe, strikes) && strikes != []
    requires strikes[0] <= x < strikes[|strikes| - 1]
    ensures i + 1 < |strikes| && strikes[i] <= x < strikes[i + 1]
  {
    i := 0;
    while strikes[i + 1] <= x
      invariant i + 1 < |strikes| && strikes[i] <= x
      decreases |strikes| - i
    {
      i := i + 1;
    }
  }

  /** For every settlement price there is a listed strike at which the writers pay no more. */
  lemma {:induction false} MinimumIsAtAStrike(contracts: seq<Contract>, strikes: seq<real>, x: real)
    requires strikes != [] && Listed(contracts, strikes) && NonNegative(contracts)
    ensures exists s :: s in strikes && Payout(contracts, s) <= Payout(contracts, x)
  {
    if x < strikes[0] {
      LeftOfAll(contracts, strikes, x);
    } else if strikes[|strikes| - 1] <= x {
      RightOfAll(contracts, strikes, x);
    } else {
      var i := Neighbours(strikes, x);
      var a, b := strikes[i], strikes[i + 1];
      forall j | 0 <= j < |contracts| ensures contracts[j].strike <= a || b <= contracts[j].strike {
        var m :| 0 <= m < |strikes| && strikes[m] == contracts[j].strike;
        assert m == i || m == i + 1 || RealLe(strikes[m], a) || RealLe(b, strikes[m]) by {
          if m < i { assert RealLe(strikes[m], strikes[i]); }
          if i + 1 < m { assert RealLe(strikes[i + 1], strikes[m]); }
        }
      }
      PayoutIsLinear(contracts, a, x, b);
      MixIsNotBelowBoth(a, x, b, Payout(contracts, x), Payout(contracts, a), Payout(contracts, b));
      assert a in strikes && b in strikes;
    }
  }
}
