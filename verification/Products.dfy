/**
 Products of real-valued factors.  Multiplication goes by the name `Times`, so that the verifier replaces equal
 factors by equal factors without nonlinear arithmetic; the few laws it needs are stated once, here.
 */
module Products {

  function Times(x: real, y: real): real { x * y }

  function Quotient(x: real, y: real): real
    requires y != 0.0
  {
    x / y
  }

  function Product(s: seq<real>): real {
    if s == [] then 1.0 else Times(Product(s[..|s| - 1]), s[|s| - 1])
  }

  lemma {:induction false} TimesLaws(x: real, y: real, z: real)
    ensures Times(x, y) == Times(y, x)
    ensures Times(Times(x, y), z) == Times(x, Times(y, z))
    ensures Times(Times(x, y), z) == Times(Times(x, z), y)
    ensures Times(x, 1.0) == x
  {
  }

  lemma {:induction false} TimesSigns(x: real, y: real)
    ensures x != 0.0 && y != 0.0 ==> Times(x, y) != 0.0
    ensures 0.0 < x && 0.0 < y ==> 0.0 < Times(x, y)
  {
  }

  lemma {:induction false} SignOfFactor(x: real, n: real)
    requires 0.0 < n && 0.0 <= Times(x, n)
    ensures 0.0 <= x
  {
  }

  lemma {:induction false} TimesOrder(x: real, y: real, n: real)
    requires 0.0 <= n && x <= y
    ensures Times(x, n) <= Times(y, n)
    ensures Times(n, x) <= Times(n, y)
  {
    assert 0.0 <= (y - x) * n;
  }

  lemma {:induction false} ProductSnoc(s: seq<real>, x: real)
    ensures Product(s + [x]) == Times(Product(s), x)
  {
    assert (s + [x])[..|s|] == s;
  }

  lemma {:induction false} ProductNonZero(s: seq<real>)
    requires forall i :: 0 <= i < |s| ==> s[i] != 0.0
    ensures Product(s) != 0.0
  {
    if s != [] {
      ProductNonZero(s[..|s| - 1]);
      TimesSigns(Product(s[..|s| - 1]), s[|s| - 1]);
    }
  }

  lemma {:induction false} ProductPositive(s: seq<real>)
    requires forall i :: 0 <= i < |s| ==> 0.0 < s[i]
    ensures 0.0 < Product(s)
  {
    if s != [] {
      ProductPositive(s[..|s| - 1]);
      TimesSigns(Product(s[..|s| - 1]), s[|s| - 1]);
    }
  }

  lemma {:induction false} ProductOfOnes(s: seq<real>)
    requires forall i :: 0 <= i < |s| ==> s[i] == 1.0
    ensures Product(s) == 1.0
  {
    if s != [] {
      ProductOfOnes(s[..|s| - 1]);
    }
  }

  /** Each factor of `s` sits in `t` or in `u`, with a one in the other. */
  ghost predicate Deals(s: seq<real>, t: seq<real>, u: seq<real>) {
    && |s| == |t| == |u|
    && forall i :: 0 <= i < |s| ==> (t[i] == s[i] && u[i] == 1.0) || (t[i] == 1.0 && u[i] == s[i])
  }

  lemma {:induction false} ProductDeals(s: seq<real>, t: seq<real>, u: seq<real>)
    requires Deals(s, t, u)
    ensures Product(s) == Times(Product(t), Product(u))
  {
    if s != [] {
      var n := |s| - 1;
      ProductDeals(s[..n], t[..n], u[..n]);
      TimesLaws(Product(t[..n]), Product(u[..n]), s[n]);
      TimesLaws(Product(u[..n]), s[n], 1.0);
    }
  }
}
