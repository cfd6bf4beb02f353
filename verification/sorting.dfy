/** Stable sorting by a key, and the elements of a finite set of numbers in order. */
module Sorting {
  /** Put `x` behind every element whose key is not greater. */
  function Insert<T>(s: seq<T>, x: T, key: T -> int): (r: seq<T>)
    ensures multiset(r) == multiset(s) + multiset{x}
  {
    var n := |s| - 1;
    if s == [] || key(s[n]) <= key(x) then s + [x]
    else
      assert s == s[..n] + [s[n]];
      Insert(s[..n], x, key) + [s[n]]
  }

  function SortByKey<T>(s: seq<T>, key: T -> int): (r: seq<T>)
    ensures multiset(r) == multiset(s)
  {
    if s == [] then []
    else
      assert s == s[..|s| - 1] + [s[|s| - 1]];
      Insert(SortByKey(s[..|s| - 1], key), s[|s| - 1], key)
  }

  /** A rearrangement has the same elements. */
  lemma SameElements<T>(a: seq<T>, b: seq<T>, x: T)
    requires multiset(a) == multiset(b)
    ensures x in a <==> x in b
  {
    assert x in a <==> x in multiset(a);
    assert x in b <==> x in multiset(b);
  }

  /** And as many. */
  lemma SameLength<T>(a: seq<T>, b: seq<T>)
    requires multiset(a) == multiset(b)
    ensures |a| == |b|
  {
    assert |a| == |multiset(a)| && |b| == |multiset(b)|;
  }

  /** Rearrangements stay rearrangements without an element they share. */
  lemma WithoutOne<T>(a: seq<T>, x: T, b: seq<T>, c: seq<T>)
    requires multiset(a + [x]) == multiset(b + [x] + c)
    ensures multiset(a) == multiset(b + c)
  {
    assert multiset(a + [x]) == multiset(a) + multiset{x};
    assert multiset(b + [x] + c) == multiset(b + c) + multiset{x};
    assert multiset(a) == multiset(a + [x]) - multiset{x};
  }

  /** Ordered by key, and among equal keys by rank. */
  predicate Before<T>(a: T, b: T, key: T -> int, rank: T -> int) {
    key(a) < key(b) || (key(a) == key(b) && rank(a) < rank(b))
  }

  predicate IsOrdered<T>(s: seq<T>, key: T -> int, rank: T -> int) {
    forall i, j | 0 <= i < j < |s| :: Before(s[i], s[j], key, rank)
  }

  predicate IsRanked<T>(s: seq<T>, rank: T -> int) {
    forall i, j | 0 <= i < j < |s| :: rank(s[i]) < rank(s[j])
  }

  lemma {:induction false} InsertKeepsOrder<T>(s: seq<T>, x: T, key: T -> int, rank: T -> int)
    requires IsOrdered(s, key, rank) && forall i | 0 <= i < |s| :: rank(s[i]) < rank(x)
    ensures IsOrdered(Insert(s, x, key), key, rank)
  {
    var n := |s| - 1;
    if s != [] && key(s[n]) > key(x) {
      InsertKeepsOrder(s[..n], x, key, rank);
      var r := Insert(s[..n], x, key);
      forall i | 0 <= i < |r| ensures Before(r[i], s[n], key, rank) {
        FromSource(s[..n], x, r, i);
      }
    }
  }

  /** Every element of a rearrangement comes from what was rearranged. */
  lemma FromSource<T>(s: seq<T>, x: T, r: seq<T>, i: nat)
    requires multiset(r) == multiset(s) + multiset{x} && i < |r|
    ensures r[i] == x || exists j :: 0 <= j < |s| && s[j] == r[i]
  {
    assert r[i] in multiset(r);
    assert r[i] in multiset(s) || r[i] == x;
    assert r[i] in multiset(s) ==> r[i] in s;
  }

  /** The sort is stable: elements that came in order of rank keep that order among equal keys. */
  lemma {:induction false} SortIsStable<T>(s: seq<T>, key: T -> int, rank: T -> int)
    requires IsRanked(s, rank)
    ensures IsOrdered(SortByKey(s, key), key, rank)
  {
    if s != [] {
      var (before, last) := (s[..|s| - 1], s[|s| - 1]);
      SortIsStable(before, key, rank);
      var sorted := SortByKey(before, key);
      forall i | 0 <= i < |sorted| ensures rank(sorted[i]) < rank(last) {
        assert sorted[i] in multiset(sorted);
        assert sorted[i] in before;
      }
      InsertKeepsOrder(sorted, last, key, rank);
    }
  }

  lemma {:induction false} MinExists(s: set<nat>) returns (m: nat)
    requires s != {}
    ensures m in s && forall x | x in s :: m <= x
    decreases |s|
  {
    var some :| some in s;
    var rest := s - {some};
    m := some;
    if rest != {} {
      var least := MinExists(rest);
      m := if least < some then least else some;
    }
    forall x | x in s ensures m <= x {
      assert x == some || x in rest;
    }
  }

  predicate IsAscending(r: seq<nat>) {
    forall i, j | 0 <= i < j < |r| :: r[i] < r[j]
  }

  /** The numbers of a set, smallest first. */
  method Ascending(s: set<nat>) returns (r: seq<nat>)
    ensures IsAscending(r) && forall x :: x in r <==> x in s
  {
    r := [];
    var left := s;
    while left != {}
      invariant left <= s && IsAscending(r)
      invariant forall x :: x in s <==> x in r || x in left
      invariant forall i, x | 0 <= i < |r| && x in left :: r[i] < x
      decreases |left|
    {
      ghost var least := MinExists(left);
      var m :| m in left && forall x | x in left :: m <= x;
      r := r + [m];
      left := left - {m};
    }
  }
}
