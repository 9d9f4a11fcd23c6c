/** Counting the values that do not exceed a given one, for the percentile ranks of two engines. */
module Counting {
  import opened Ordering
  import opened Products

  /** How many values do not exceed `x`. */
  function CountAtMost(values: seq<real>, x: real): (r: nat)
    ensures r <= |values|
  {
    if values == [] then 0
    else
      var n := |values| - 1;
      CountAtMost(values[..n], x) + if values[n] <= x then 1 else 0
  }

  lemma {:induction false} CountMonotone(scores: seq<real>, s: real, t: real)
    requires s <= t
    ensures CountAtMost(scores, s) <= CountAtMost(scores, t)
  {
    if scores != [] {
      CountMonotone(scores[..|scores| - 1], s, t);
    }
  }

  lemma {:induction false} CountAll(scores: seq<real>, s: real)
    requires forall i :: 0 <= i < |scores| ==> scores[i] <= s
    ensures CountAtMost(scores, s) == |scores|
  {
    if scores != [] {
      CountAll(scores[..|scores| - 1], s);
    }
  }

  lemma {:induction false} CountRemove(scores: seq<real>, i: nat, s: real)
    requires i < |scores|
    ensures CountAtMost(scores, s) == CountAtMost(scores[..i] + scores[i + 1..], s) + if scores[i] <= s then 1 else 0
  {
    assert scores == scores[..i] + ([scores[i]] + scores[i + 1..]);
    CountConcat(scores[..i], [scores[i]] + scores[i + 1..], s);
    CountConcat([scores[i]], scores[i + 1..], s);
    CountConcat(scores[..i], scores[i + 1..], s);
    assert [scores[i]][..0] == [];
  }

  lemma {:induction false} CountConcat(s: seq<real>, t: seq<real>, x: real)
    ensures CountAtMost(s + t, x) == CountAtMost(s, x) + CountAtMost(t, x)
  {
    if t == [] {
      assert s + t == s;
    } else {
      var n := |t| - 1;
      assert (s + t)[..|s + t| - 1] == s + t[..n];
      CountConcat(s, t[..n], x);
    }
  }

  lemma {:induction false} CountPermutation(s: seq<real>, t: seq<real>, x: real)
    requires multiset(s) == multiset(t)
    ensures CountAtMost(s, x) == CountAtMost(t, x)
    decreases |s|
  {
    assert |multiset(s)| == |s| && |multiset(t)| == |t|;
    if s != [] {
      var i := RemoveFirst(s, t);
      CountPermutation(s[1..], t[..i] + t[i + 1..], x);
      CountRemove(t, i, x);
      CountRemove(s, 0, x);
      assert s[..0] + s[1..] == s[1..];
    }
  }

  /** The positions of the values above `x`. */
  ghost function Above(values: seq<real>, x: real): set<int> {
    set j | 0 <= j < |values| && x < values[j]
  }

  /** Every value either does not exceed `x` or is above it. */
  lemma {:induction false} CountComplement(values: seq<real>, x: real)
    ensures CountAtMost(values, x) + |Above(values, x)| == |values|
  {
    if values == [] {
      assert Above(values, x) == {};
    } else {
      var n := |values| - 1;
      CountComplement(values[..n], x);
      var before := Above(values[..n], x);
      assert n !in before;
      assert Above(values, x) == if x < values[n] then before + {n} else before;
    }
  }

  /** The share of values at most `x`, in percent, leaves exactly the share of those above. */
  lemma {:induction false} RankComplement(values: seq<real>, x: real)
    requires values != []
    ensures (100.0 - Quotient(100.0 * (CountAtMost(values, x) as real), |values| as real)) * (|values| as real)
            == 100.0 * (|Above(values, x)| as real)
  {
    CountComplement(values, x);
    var top, n := 100.0 * (CountAtMost(values, x) as real), |values| as real;
    var q := Quotient(top, n);
    assert q * n == top;
    assert (100.0 - q) * n == 100.0 * n - q * n;
  }
}
