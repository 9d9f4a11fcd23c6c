/** Sums of real-valued terms over a sequence. */
module Sums {
  import opened Ordering
  import opened Products

  function SumBy<T>(f: T -> real, s: seq<T>): real {
    if s == [] then 0.0 else SumBy(f, s[..|s| - 1]) + f(s[|s| - 1])
  }

  lemma {:induction false} SumByConcat<T>(f: T -> real, s: seq<T>, t: seq<T>)
    ensures SumBy(f, s + t) == SumBy(f, s) + SumBy(f, t)
  {
    if t == [] {
      assert s + t == s;
    } else {
      var front := t[..|t| - 1];
      assert (s + t)[..|s + t| - 1] == s + front;
      SumByConcat(f, s, front);
    }
  }

  lemma {:induction false} SumByRemove<T>(f: T -> real, s: seq<T>, i: nat)
    requires i < |s|
    ensures SumBy(f, s) == SumBy(f, s[..i] + s[i + 1..]) + f(s[i])
  {
    assert s == s[..i] + ([s[i]] + s[i + 1..]);
    SumByConcat(f, s[..i], [s[i]] + s[i + 1..]);
    SumByConcat(f, [s[i]], s[i + 1..]);
    SumByConcat(f, s[..i], s[i + 1..]);
    assert [s[i]][..0] == [];
  }

  /** A sum does not depend on the order of its terms. */
  lemma {:induction false} SumByPermutation<T>(f: T -> real, s: seq<T>, t: seq<T>)
    requires multiset(s) == multiset(t)
    ensures SumBy(f, s) == SumBy(f, t)
    decreases |s|
  {
    assert |multiset(s)| == |s| && |multiset(t)| == |t|;
    if s != [] {
      var i := RemoveFirst(s, t);
      SumByPermutation(f, s[1..], t[..i] + t[i + 1..]);
      SumByRemove(f, t, i);
      SumByRemove(f, s, 0);
      assert s[..0] + s[1..] == s[1..];
    }
  }

  lemma {:induction false} SumBySnoc<T>(f: T -> real, s: seq<T>, x: T)
    ensures SumBy(f, s + [x]) == SumBy(f, s) + f(x)
  {
    assert (s + [x])[..|s|] == s;
  }

  lemma {:induction false} SumByAdds<T>(f: T -> real, g: T -> real, h: T -> real, s: seq<T>)
    requires forall i :: 0 <= i < |s| ==> h(s[i]) == f(s[i]) + g(s[i])
    ensures SumBy(h, s) == SumBy(f, s) + SumBy(g, s)
  {
    if s != [] {
      SumByAdds(f, g, h, s[..|s| - 1]);
    }
  }

  lemma {:induction false} SumByAtMost<T>(f: T -> real, g: T -> real, s: seq<T>)
    requires forall i :: 0 <= i < |s| ==> f(s[i]) <= g(s[i])
    ensures SumBy(f, s) <= SumBy(g, s)
  {
    if s != [] {
      SumByAtMost(f, g, s[..|s| - 1]);
    }
  }

  lemma {:induction false} SumByEqual<T>(f: T -> real, g: T -> real, s: seq<T>)
    requires forall i :: 0 <= i < |s| ==> f(s[i]) == g(s[i])
    ensures SumBy(f, s) == SumBy(g, s)
  {
    SumByAtMost(f, g, s);
    SumByAtMost(g, f, s);
  }

  lemma {:induction false} SumByConstant<T>(f: T -> real, v: real, s: seq<T>)
    requires forall i :: 0 <= i < |s| ==> f(s[i]) == v
    ensures SumBy(f, s) == Times(v, |s| as real)
  {
    if s != [] {
      SumByConstant(f, v, s[..|s| - 1]);
      assert v * ((|s| - 1) as real) + v == v * (|s| as real);
    } else {
      assert Times(v, 0.0) == 0.0;
    }
  }

  /** Elements that contribute nothing can be left out. */
  lemma {:induction false} SumBySupport<T>(f: T -> real, s: seq<T>, t: seq<T>)
    requires Distinct(s) && Distinct(t)
    requires forall x :: x in s ==> x in t
    requires forall i :: 0 <= i < |t| && t[i] !in s ==> f(t[i]) == 0.0
    ensures SumBy(f, s) == SumBy(f, t)
    decreases |t|
  {
    if t == [] {
      NonEmptyHasMember(s);
    } else {
      var n := |t| - 1;
      var x := t[n];
      assert forall y :: y in t <==> y in t[..n] || y == x;
      if i :| 0 <= i < |s| && s[i] == x {
        var rest := s[..i] + s[i + 1..];
        assert forall y :: y in rest <==> y in s && y != x;
        SumBySupport(f, rest, t[..n]);
        SumByRemove(f, s, i);
      } else {
        SumBySupport(f, s, t[..n]);
      }
    }
  }
}
