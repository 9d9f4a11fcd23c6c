/**
 Sorting as the Python code uses it: `sorted(...)` applied to the distinct elements of a set or to the
 keys of a dictionary.  The order is a parameter; the orders used by the engines are at the end.
 */
module Ordering {

  ghost predicate TotalOrder<T(!new)>(le: (T, T) -> bool) {
    && (forall x, y :: le(x, y) || le(y, x))
    && (forall x, y :: le(x, y) && le(y, x) ==> x == y)
    && (forall x, y, z :: le(x, y) && le(y, z) ==> le(x, z))
  }

  ghost predicate StrictlySorted<T>(le: (T, T) -> bool, s: seq<T>) {
    forall i, j :: 0 <= i < j < |s| ==> le(s[i], s[j]) && s[i] != s[j]
  }

  /** Two sequences with the same members, whatever the order and the repetitions. */
  ghost predicate SameMembers<T>(s: seq<T>, t: seq<T>) {
    && (forall x :: x in s ==> x in t)
    && (forall x :: x in t ==> x in s)
  }

  ghost predicate Distinct<T>(s: seq<T>) {
    forall i, j :: 0 <= i < j < |s| ==> s[i] != s[j]
  }

  function Insert<T(==)>(le: (T, T) -> bool, x: T, s: seq<T>): seq<T> {
    if s == [] then [x]
    else if x == s[0] then s
    else if le(x, s[0]) then [x] + s
    else [s[0]] + Insert(le, x, s[1..])
  }

  /** The distinct elements of `s` in ascending order. */
  function SortDistinct<T(==)>(le: (T, T) -> bool, s: seq<T>): seq<T> {
    if s == [] then [] else Insert(le, s[0], SortDistinct(le, s[1..]))
  }

  lemma {:induction false} NonEmptyHasMember<T>(s: seq<T>)
    ensures s == [] || exists x :: x in s
  {
    if s != [] { assert s[0] in s; }
  }

  lemma {:induction false} InsertIsSorted<T(!new)>(le: (T, T) -> bool, x: T, s: seq<T>)
    requires TotalOrder(le)
    requires StrictlySorted(le, s)
    ensures StrictlySorted(le, Insert(le, x, s))
    ensures forall y :: y in Insert(le, x, s) <==> y == x || y in s
  {
    if s == [] || x == s[0] {
    } else if le(x, s[0]) {
      assert forall y :: y in [x] + s <==> y == x || y in s;
      forall j | 0 <= j < |s| ensures le(x, s[j]) && x != s[j] {
        assert j == 0 || le(s[0], s[j]);
      }
    } else {
      var tail := Insert(le, x, s[1..]);
      InsertIsSorted(le, x, s[1..]);
      assert forall y :: y in s <==> y == s[0] || y in s[1..];
      forall j | 0 <= j < |tail| ensures le(s[0], tail[j]) && s[0] != tail[j] {
        assert tail[j] in tail;
      }
    }
  }

  lemma {:induction false} SortDistinctIsSorted<T(!new)>(le: (T, T) -> bool, s: seq<T>)
    requires TotalOrder(le)
    ensures StrictlySorted(le, SortDistinct(le, s))
    ensures SameMembers(s, SortDistinct(le, s))
  {
    if s != [] {
      SortDistinctIsSorted(le, s[1..]);
      InsertIsSorted(le, s[0], SortDistinct(le, s[1..]));
    }
  }

  /** A set has one ascending enumeration. */
  lemma {:induction false} StrictlySortedIsUnique<T(!new)>(le: (T, T) -> bool, s: seq<T>, t: seq<T>)
    requires TotalOrder(le)
    requires StrictlySorted(le, s) && StrictlySorted(le, t)
    requires SameMembers(s, t)
    ensures s == t
  {
    if s == [] {
      NonEmptyHasMember(t);
    } else {
      assert s[0] in t;
      assert t[0] in s;
      var i :| 0 <= i < |t| && t[i] == s[0];
      var j :| 0 <= j < |s| && s[j] == t[0];
      assert s[0] == t[0];
      forall x ensures x in s[1..] <==> x in t[1..] {
        if x in s[1..] { assert x in s && x != s[0]; assert x in t; }
        if x in t[1..] { assert x in t && x != t[0]; assert x in s; }
      }
      StrictlySortedIsUnique(le, s[1..], t[1..]);
    }
  }

  lemma {:induction false} SortDistinctDependsOnMembers<T(!new)>(le: (T, T) -> bool, s: seq<T>, t: seq<T>)
    requires TotalOrder(le)
    requires SameMembers(s, t)
    ensures SortDistinct(le, s) == SortDistinct(le, t)
  {
    SortDistinctIsSorted(le, s);
    SortDistinctIsSorted(le, t);
    StrictlySortedIsUnique(le, SortDistinct(le, s), SortDistinct(le, t));
  }

  /** Sequences without repetitions and with the same members are permutations of each other. */
  lemma {:induction false} DistinctMembersGiveMultiset<T>(s: seq<T>, t: seq<T>)
    requires Distinct(s) && Distinct(t)
    requires SameMembers(s, t)
    ensures multiset(s) == multiset(t)
  {
    forall x ensures multiset(s)[x] == multiset(t)[x] {
      assert x in multiset(s) <==> x in s;
      assert x in multiset(t) <==> x in t;
      DistinctCountsOnce(s, x);
      DistinctCountsOnce(t, x);
    }
  }

  lemma {:induction false} DistinctCountsOnce<T>(s: seq<T>, x: T)
    requires Distinct(s)
    ensures multiset(s)[x] == if x in s then 1 else 0
  {
    if s != [] {
      assert s == [s[0]] + s[1..];
      DistinctCountsOnce(s[1..], x);
    }
  }

  lemma {:induction false} RemoveAt<T>(s: seq<T>, i: nat)
    requires i < |s|
    ensures multiset(s[..i] + s[i + 1..]) == multiset(s) - multiset{s[i]}
  {
    assert s == s[..i] + [s[i]] + s[i + 1..];
  }

  /** Permuted sequences stay permuted when the first element of one is taken out of both. */
  lemma {:induction false} RemoveFirst<T>(s: seq<T>, t: seq<T>) returns (i: nat)
    requires multiset(s) == multiset(t) && s != []
    ensures i < |t| && t[i] == s[0]
    ensures multiset(s[1..]) == multiset(t[..i] + t[i + 1..])
  {
    assert s[0] in multiset(t);
    i :| 0 <= i < |t| && t[i] == s[0];
    RemoveAt(t, i);
    assert s == [s[0]] + s[1..];
  }

  function MapSeq<T, U>(f: T -> U, s: seq<T>): (r: seq<U>)
    ensures |r| == |s|
  {
    seq(|s|, i requires 0 <= i < |s| => f(s[i]))
  }

  lemma {:induction false} MapSeqRemove<T, U>(f: T -> U, s: seq<T>, i: nat)
    requires i < |s|
    ensures multiset(MapSeq(f, s)) == multiset(MapSeq(f, s[..i] + s[i + 1..])) + multiset{f(s[i])}
  {
    assert MapSeq(f, s) == MapSeq(f, s[..i]) + [f(s[i])] + MapSeq(f, s[i + 1..]);
    assert MapSeq(f, s[..i] + s[i + 1..]) == MapSeq(f, s[..i]) + MapSeq(f, s[i + 1..]);
  }

  /** Mapping a permutation gives a permutation. */
  lemma {:induction false} MapSeqPermutation<T, U>(f: T -> U, s: seq<T>, t: seq<T>)
    requires multiset(s) == multiset(t)
    ensures multiset(MapSeq(f, s)) == multiset(MapSeq(f, t)) && |s| == |t|
    decreases |s|
  {
    assert |multiset(s)| == |s| && |multiset(t)| == |t|;
    if s != [] {
      var i := RemoveFirst(s, t);
      MapSeqPermutation(f, s[1..], t[..i] + t[i + 1..]);
      MapSeqRemove(f, t, i);
      assert MapSeq(f, s) == [f(s[0])] + MapSeq(f, s[1..]);
    }
  }

  /** The concatenation of the lists `f` gives for the elements of `s`. */
  function FlatMap<T, U>(f: T -> seq<U>, s: seq<T>): seq<U> {
    if s == [] then [] else FlatMap(f, s[..|s| - 1]) + f(s[|s| - 1])
  }

  lemma {:induction false} FlatMapSnoc<T, U>(f: T -> seq<U>, s: seq<T>, x: T)
    ensures FlatMap(f, s + [x]) == FlatMap(f, s) + f(x)
  {
    assert (s + [x])[..|s|] == s;
  }

  lemma {:induction false} ConcatAssociative<T>(a: seq<T>, b: seq<T>, c: seq<T>)
    ensures (a + b) + c == a + (b + c)
  {
  }

  lemma {:induction false} FlatMapConcat<T, U>(f: T -> seq<U>, s: seq<T>, t: seq<T>)
    ensures FlatMap(f, s + t) == FlatMap(f, s) + FlatMap(f, t)
  {
    if t == [] {
      assert s + t == s;
    } else {
      var front, x := t[..|t| - 1], t[|t| - 1];
      FlatMapConcat(f, s, front);
      ConcatAssociative(s, front, [x]);
      assert front + [x] == t;
      FlatMapSnoc(f, s + front, x);
      ConcatAssociative(FlatMap(f, s), FlatMap(f, front), f(x));
    }
  }

  lemma {:induction false} FlatMapOne<T, U>(f: T -> seq<U>, x: T)
    ensures FlatMap(f, [x]) == f(x)
  {
    assert [x][..0] == [];
  }

  lemma {:induction false} MultisetMiddle<T>(a: seq<T>, b: seq<T>, c: seq<T>)
    ensures multiset(a + (b + c)) == multiset(a + c) + multiset(b)
  {
  }

  lemma {:induction false} FlatMapAround<T, U>(f: T -> seq<U>, front: seq<T>, x: T, back: seq<T>)
    ensures FlatMap(f, front + ([x] + back)) == FlatMap(f, front) + (f(x) + FlatMap(f, back))
  {
    FlatMapConcat(f, front, [x] + back);
    FlatMapConcat(f, [x], back);
    FlatMapOne(f, x);
  }

  lemma {:induction false} SplitAt<T>(s: seq<T>, i: nat)
    requires i < |s|
    ensures s == s[..i] + ([s[i]] + s[i + 1..])
  {
  }

  lemma {:induction false} FlatMapRemove<T, U>(f: T -> seq<U>, s: seq<T>, i: nat)
    requires i < |s|
    ensures multiset(FlatMap(f, s)) == multiset(FlatMap(f, s[..i] + s[i + 1..])) + multiset(f(s[i]))
  {
    SplitAt(s, i);
    FlatMapAround(f, s[..i], s[i], s[i + 1..]);
    FlatMapConcat(f, s[..i], s[i + 1..]);
    MultisetMiddle(FlatMap(f, s[..i]), f(s[i]), FlatMap(f, s[i + 1..]));
  }

  /** Elements without a list contribute nothing, and the order of the elements does not matter. */
  lemma {:induction false} FlatMapSupport<T, U>(f: T -> seq<U>, few: seq<T>, many: seq<T>)
    requires Distinct(few) && Distinct(many)
    requires forall x :: x in few ==> x in many
    requires forall i :: 0 <= i < |many| && many[i] !in few ==> f(many[i]) == []
    ensures multiset(FlatMap(f, few)) == multiset(FlatMap(f, many))
    decreases |many|
  {
    if many == [] {
      NonEmptyHasMember(few);
    } else {
      var n := |many| - 1;
      var k := many[n];
      assert forall x :: x in many <==> x in many[..n] || x == k;
      if i :| 0 <= i < |few| && few[i] == k {
        var rest := few[..i] + few[i + 1..];
        assert forall x :: x in rest <==> x in few && x != k;
        FlatMapSupport(f, rest, many[..n]);
        FlatMapRemove(f, few, i);
      } else {
        FlatMapSupport(f, few, many[..n]);
      }
    }
  }

  // ---------- the orders of the engines ----------

  predicate IntLe(a: int, b: int) { a <= b }

  predicate RealLe(a: real, b: real) { a <= b }

  /** Python's comparison of strings: by the first differing character, a proper prefix first. */
  predicate StringLe(a: string, b: string) {
    if a == [] then true
    else if b == [] then false
    else if a[0] != b[0] then a[0] < b[0]
    else StringLe(a[1..], b[1..])
  }

  lemma {:induction false} StringLeTotal(a: string, b: string)
    ensures StringLe(a, b) || StringLe(b, a)
    ensures StringLe(a, b) && StringLe(b, a) ==> a == b
  {
    if a != [] && b != [] && a[0] == b[0] {
      StringLeTotal(a[1..], b[1..]);
      assert a == [a[0]] + a[1..] && b == [b[0]] + b[1..];
    }
  }

  lemma {:induction false} StringLeTransitive(a: string, b: string, c: string)
    requires StringLe(a, b) && StringLe(b, c)
    ensures StringLe(a, c)
  {
    if a != [] && b != [] && c != [] && a[0] == b[0] == c[0] {
      StringLeTransitive(a[1..], b[1..], c[1..]);
    }
  }

  /** Strings in ascending order: a proper prefix first, otherwise by the first different character. */
  ghost predicate Ascending(a: string, b: string) {
    a <= b || exists k :: 0 <= k < |a| && k < |b| && a[k] < b[k] && a[..k] == b[..k]
  }

  lemma {:induction false} StringLeIsAscending(a: string, b: string)
    requires StringLe(a, b)
    ensures Ascending(a, b)
  {
    if a != [] && b != [] && a[0] == b[0] {
      StringLeIsAscending(a[1..], b[1..]);
      if a[1..] <= b[1..] {
        assert a == [a[0]] + a[1..] && b == [b[0]] + b[1..];
      } else {
        var k :| 0 <= k < |a[1..]| && k < |b[1..]| && a[1..][k] < b[1..][k] && a[1..][..k] == b[1..][..k];
        assert a[..k + 1] == [a[0]] + a[1..][..k];
        assert b[..k + 1] == [b[0]] + b[1..][..k];
        assert a[k + 1] < b[k + 1];
      }
    } else if a != [] {
      assert a[..0] == b[..0];
    }
  }

  lemma {:induction false} OrdersAreTotal()
    ensures TotalOrder(IntLe)
    ensures TotalOrder(RealLe)
    ensures TotalOrder(StringLe)
  {
    forall a, b ensures (StringLe(a, b) || StringLe(b, a)) && (StringLe(a, b) && StringLe(b, a) ==> a == b) {
      StringLeTotal(a, b);
    }
    forall a, b, c | StringLe(a, b) && StringLe(b, c) ensures StringLe(a, c) {
      StringLeTransitive(a, b, c);
    }
  }
}
