/**
 Has the monitor layout changed since a portal session started? Both layouts are sorted by position
 and size and compared pair by pair.
 */
module MonitorLayout {
  import opened Coordinates
  import opened StreamLayout
  import Sorting

  const BASE: int := 0x1_0000_0000

  /** Position and size as one number that orders rectangles as the quadruple of their fields does. */
  function Key(m: LogicalMonitor): int {
    ((m.rect.x * BASE + m.rect.y) * BASE + m.rect.width) * BASE + m.rect.height
  }

  predicate IsLess(a: Monitor, b: Monitor) {
    || a.x < b.x
    || (a.x == b.x && (a.y < b.y || (a.y == b.y && (a.width < b.width || (a.width == b.width && a.height < b.height)))))
  }

  lemma KeyOrdersRects(a: LogicalMonitor, b: LogicalMonitor)
    ensures Key(a) < Key(b) <==> IsLess(a.rect, b.rect)
    ensures Key(a) == Key(b) <==> a.rect == b.rect
  {
  }

  predicate HaveNearScales(a: LogicalMonitor, b: LogicalMonitor) {
    a.scale.Finite? && b.scale.Finite? && Distance(a.scale.value, b.scale.value) <= 0.01
  }

  function Sorted(layout: seq<LogicalMonitor>): seq<LogicalMonitor> {
    Sorting.SortByKey(layout, Key)
  }

  predicate Agree(a: LogicalMonitor, b: LogicalMonitor) {
    a.rect == b.rect && HaveNearScales(a, b)
  }

  method SameMonitorLayout(expected: seq<LogicalMonitor>, current: seq<LogicalMonitor>) returns (same: bool)
    ensures same <==> AgreeInOrder(expected, current)
  {
    if |expected| != |current| {
      return false;
    }
    Sorting.SameLength(Sorted(expected), expected);
    Sorting.SameLength(Sorted(current), current);
    var (left, right) := (Sorted(expected), Sorted(current));
    for i := 0 to |left|
      invariant forall j | 0 <= j < i :: Agree(left[j], right[j])
    {
      KeyOrdersRects(left[i], right[i]);
      if Key(left[i]) != Key(right[i]) || !HaveNearScales(left[i], right[i]) {
        assert !Agree(left[i], right[i]);
        return false;
      }
    }
    same := true;
  }

  predicate AgreeInOrder(expected: seq<LogicalMonitor>, current: seq<LogicalMonitor>) {
    && |expected| == |current|
    && |Sorted(expected)| == |Sorted(current)|
    && forall i | 0 <= i < |Sorted(expected)| :: Agree(Sorted(expected)[i], Sorted(current)[i])
  }

  // ----- what the comparison means -----

  predicate HasDistinctRects(layout: seq<LogicalMonitor>) {
    forall i, j | 0 <= i < j < |layout| :: layout[i].rect != layout[j].rect
  }

  predicate HasCounterpart(m: LogicalMonitor, layout: seq<LogicalMonitor>) {
    exists i :: 0 <= i < |layout| && Agree(m, layout[i])
  }

  function Keys(layout: seq<LogicalMonitor>): seq<int> {
    seq(|layout|, i requires 0 <= i < |layout| => Key(layout[i]))
  }

  predicate IsStrictlyAscending(s: seq<int>) {
    forall i, j | 0 <= i < j < |s| :: s[i] < s[j]
  }

  // ----- layouts of distinct rectangles -----

  /** Distinct rectangles sort into strictly ascending keys. */
  lemma {:induction false} SortedIsStrict(layout: seq<LogicalMonitor>)
    requires HasDistinctRects(layout)
    ensures IsStrictlyAscending(Keys(Sorted(layout)))
  {
    if layout != [] {
      var (before, last) := (layout[..|layout| - 1], layout[|layout| - 1]);
      SortedIsStrict(before);
      forall i | 0 <= i < |Sorted(before)| ensures Key(Sorted(before)[i]) != Key(last) {
        Sorting.SameElements(Sorted(before), before, Sorted(before)[i]);
        var j :| 0 <= j < |before| && before[j] == Sorted(before)[i];
        KeyOrdersRects(layout[j], last);
      }
      InsertIsStrict(Sorted(before), last);
    }
  }

  /** Something greater may follow a strictly ascending layout. */
  lemma StrictSnoc(s: seq<LogicalMonitor>, x: LogicalMonitor)
    requires IsStrictlyAscending(Keys(s)) && forall i | 0 <= i < |s| :: Key(s[i]) < Key(x)
    ensures IsStrictlyAscending(Keys(s + [x]))
  {
    assert Keys(s + [x]) == Keys(s) + [Key(x)];
  }

  lemma StrictPrefix(s: seq<LogicalMonitor>, n: nat)
    requires IsStrictlyAscending(Keys(s)) && n < |s|
    ensures IsStrictlyAscending(Keys(s[..n]))
    ensures forall i | 0 <= i < n :: Key(s[i]) < Key(s[n])
  {
    assert Keys(s[..n]) == Keys(s)[..n];
    forall i | 0 <= i < n ensures Key(s[i]) < Key(s[n]) {
      assert Keys(s)[i] < Keys(s)[n];
    }
  }

  lemma {:induction false} InsertIsStrict(s: seq<LogicalMonitor>, x: LogicalMonitor)
    requires IsStrictlyAscending(Keys(s)) && forall i | 0 <= i < |s| :: Key(s[i]) != Key(x)
    ensures IsStrictlyAscending(Keys(Sorting.Insert(s, x, Key)))
  {
    var n := |s| - 1;
    if s == [] {
    } else if Key(s[n]) > Key(x) {
      StrictPrefix(s, n);
      InsertIsStrict(s[..n], x);
      var r := Sorting.Insert(s[..n], x, Key);
      forall i | 0 <= i < |r| ensures Key(r[i]) < Key(s[n]) {
        Sorting.FromSource(s[..n], x, r, i);
      }
      StrictSnoc(r, s[n]);
    } else {
      StrictPrefix(s, n);
      StrictSnoc(s, x);
    }
  }

  lemma {:induction false} NotBelow(a: seq<int>, b: seq<int>, i: nat)
    requires IsStrictlyAscending(a) && IsStrictlyAscending(b) && |a| == |b| && i < |a|
    requires forall j | 0 <= j < |a| :: a[j] in b
    ensures b[i] <= a[i]
  {
    var p :| 0 <= p < |b| && b[p] == a[i];
    if i > 0 {
      NotBelow(a, b, i - 1);
      assert b[p] > b[i - 1];
    }
  }

  lemma {:induction false} NotAbove(a: seq<int>, b: seq<int>, i: nat)
    requires IsStrictlyAscending(a) && IsStrictlyAscending(b) && |a| == |b| && i < |a|
    requires forall j | 0 <= j < |a| :: a[j] in b
    ensures a[i] <= b[i]
    decreases |a| - i
  {
    var p :| 0 <= p < |b| && b[p] == a[i];
    if i < |a| - 1 {
      NotAbove(a, b, i + 1);
      assert b[p] < b[i + 1];
    }
  }

  /** In layouts of distinct rectangles, equally many and each with a counterpart, the sorted pairs agree. */
  lemma CounterpartsAgree(expected: seq<LogicalMonitor>, current: seq<LogicalMonitor>, i: nat)
    requires HasDistinctRects(expected) && HasDistinctRects(current) && |expected| == |current|
    requires forall j | 0 <= j < |expected| :: HasCounterpart(expected[j], current)
    requires i < |Sorted(expected)| == |Sorted(current)|
    ensures Agree(Sorted(expected)[i], Sorted(current)[i])
  {
    var (left, right) := (Sorted(expected), Sorted(current));
    SortedIsStrict(expected);
    SortedIsStrict(current);
    forall j | 0 <= j < |left| ensures Keys(left)[j] in Keys(right) {
      var k := CounterpartIn(expected, current, j);
      KeyOrdersRects(left[j], right[k]);
      assert Keys(right)[k] == Keys(left)[j];
    }
    NotBelow(Keys(left), Keys(right), i);
    NotAbove(Keys(left), Keys(right), i);
    var k := CounterpartIn(expected, current, i);
    KeyOrdersRects(left[i], right[k]);
    assert Keys(right)[k] == Keys(right)[i];
    assert k == i;
  }

  /** The counterpart of a monitor of the one sorted layout is somewhere in the other sorted layout. */
  lemma CounterpartIn(expected: seq<LogicalMonitor>, current: seq<LogicalMonitor>, j: nat) returns (k: nat)
    requires forall i | 0 <= i < |expected| :: HasCounterpart(expected[i], current)
    requires j < |Sorted(expected)|
    ensures k < |Sorted(current)| && Agree(Sorted(expected)[j], Sorted(current)[k])
  {
    var m := Sorted(expected)[j];
    Sorting.SameElements(Sorted(expected), expected, m);
    var i :| 0 <= i < |expected| && expected[i] == m;
    assert HasCounterpart(expected[i], current);
    var l :| 0 <= l < |current| && Agree(m, current[l]);
    Sorting.SameElements(Sorted(current), current, current[l]);
    k :| 0 <= k < |Sorted(current)| && Sorted(current)[k] == current[l];
  }

  lemma AgreeingHasCounterpart(expected: seq<LogicalMonitor>, current: seq<LogicalMonitor>, j: nat)
    requires AgreeInOrder(expected, current) && j < |expected|
    ensures HasCounterpart(expected[j], current)
  {
    var (left, right) := (Sorted(expected), Sorted(current));
    Sorting.SameElements(left, expected, expected[j]);
    var i :| 0 <= i < |left| && left[i] == expected[j];
    assert Agree(left[i], right[i]);
    Sorting.SameElements(right, current, right[i]);
    var k :| 0 <= k < |current| && current[k] == right[i];
  }

  /** For layouts without two monitors on one rectangle the comparison does not depend on any order:
      it says that both have as many monitors and each of the one has a counterpart in the other. */
  lemma SameLayoutMeansCounterparts(expected: seq<LogicalMonitor>, current: seq<LogicalMonitor>)
    requires HasDistinctRects(expected) && HasDistinctRects(current)
    ensures AgreeInOrder(expected, current) <==>
            |expected| == |current| && forall j | 0 <= j < |expected| :: HasCounterpart(expected[j], current)
  {
    Sorting.SameLength(Sorted(expected), expected);
    Sorting.SameLength(Sorted(current), current);
    if AgreeInOrder(expected, current) {
      forall j | 0 <= j < |expected| ensures HasCounterpart(expected[j], current) {
        AgreeingHasCounterpart(expected, current, j);
      }
    } else if |expected| == |current| && forall j | 0 <= j < |expected| :: HasCounterpart(expected[j], current) {
      forall i | 0 <= i < |Sorted(expected)| ensures Agree(Sorted(expected)[i], Sorted(current)[i]) {
        CounterpartsAgree(expected, current, i);
      }
    }
  }

  // ----- when the order of the list matters -----

  /** All scales are finite, and monitors on one rectangle have scales within 0.01. */
  predicate HasConsistentScales(layout: seq<LogicalMonitor>) {
    && (forall i | 0 <= i < |layout| :: layout[i].scale.Finite?)
    && (forall i, j | 0 <= i < |layout| && 0 <= j < |layout| && layout[i].rect == layout[j].rect ::
          HaveNearScales(layout[i], layout[j]))
  }

  predicate IsAscending(s: seq<int>) {
    forall i, j | 0 <= i < j < |s| :: s[i] <= s[j]
  }

  lemma {:induction false} InsertKeepsAscending(s: seq<LogicalMonitor>, x: LogicalMonitor)
    requires IsAscending(Keys(s))
    ensures IsAscending(Keys(Sorting.Insert(s, x, Key)))
  {
    var n := |s| - 1;
    if s == [] {
    } else if Key(s[n]) > Key(x) {
      AscendingPrefix(s, n);
      InsertKeepsAscending(s[..n], x);
      var r := Sorting.Insert(s[..n], x, Key);
      forall i | 0 <= i < |r| ensures Key(r[i]) <= Key(s[n]) {
        Sorting.FromSource(s[..n], x, r, i);
      }
      AscendingSnoc(r, s[n]);
    } else {
      AscendingPrefix(s, n);
      AscendingSnoc(s, x);
    }
  }

  lemma AscendingSnoc(s: seq<LogicalMonitor>, x: LogicalMonitor)
    requires IsAscending(Keys(s)) && forall i | 0 <= i < |s| :: Key(s[i]) <= Key(x)
    ensures IsAscending(Keys(s + [x]))
  {
    assert Keys(s + [x]) == Keys(s) + [Key(x)];
  }

  lemma AscendingPrefix(s: seq<LogicalMonitor>, n: nat)
    requires IsAscending(Keys(s)) && n < |s|
    ensures IsAscending(Keys(s[..n]))
    ensures forall i | 0 <= i < n :: Key(s[i]) <= Key(s[n])
  {
    assert Keys(s[..n]) == Keys(s)[..n];
    forall i | 0 <= i < n ensures Key(s[i]) <= Key(s[n]) {
      assert Keys(s)[i] <= Keys(s)[n];
    }
  }

  lemma {:induction false} SortedAscends(layout: seq<LogicalMonitor>)
    ensures IsAscending(Keys(Sorted(layout)))
  {
    if layout != [] {
      SortedAscends(layout[..|layout| - 1]);
      InsertKeepsAscending(Sorted(layout[..|layout| - 1]), layout[|layout| - 1]);
    }
  }

  /** Sorting what is in order changes nothing. */
  lemma {:induction false} SortedStays(s: seq<LogicalMonitor>)
    requires IsAscending(Keys(s))
    ensures Sorted(s) == s
  {
    if s != [] {
      var (front, last) := (s[..|s| - 1], s[|s| - 1]);
      AscendingPrefix(s, |s| - 1);
      SortedStays(front);
      InsertAtEnd(front, last);
      assert s == front + [last];
    }
  }

  lemma InsertAtEnd(s: seq<LogicalMonitor>, x: LogicalMonitor)
    requires forall i | 0 <= i < |s| :: Key(s[i]) <= Key(x)
    ensures Sorting.Insert(s, x, Key) == s + [x]
  {
  }

  /** A rearrangement has a rearrangement of the keys. */
  lemma {:induction false} KeysRearrange(a: seq<LogicalMonitor>, b: seq<LogicalMonitor>)
    requires multiset(a) == multiset(b)
    ensures multiset(Keys(a)) == multiset(Keys(b))
  {
    Sorting.SameLength(a, b);
    if a != [] {
      var (n, x) := (|a| - 1, a[|a| - 1]);
      Sorting.SameElements(a, b, x);
      var k :| 0 <= k < |b| && b[k] == x;
      var (front, before, after) := (a[..n], b[..k], b[k + 1..]);
      assert a == front + [x] && b == before + [x] + after;
      Sorting.WithoutOne(front, x, before, after);
      KeysRearrange(front, before + after);
      KeysOfParts(front, [x], []);
      KeysOfParts(before, [x], after);
      KeysOfParts(before, [], after);
      assert front + [x] + [] == a && before + [] + after == before + after;
      assert Keys([x]) == [Key(x)];
    }
  }

  lemma KeysOfParts(a: seq<LogicalMonitor>, b: seq<LogicalMonitor>, c: seq<LogicalMonitor>)
    ensures multiset(Keys(a + b + c)) == multiset(Keys(a)) + multiset(Keys(b)) + multiset(Keys(c))
  {
    assert Keys(a + b + c) == Keys(a) + Keys(b) + Keys(c);
  }

  lemma LastIsGreatest(p: seq<int>, x: int)
    requires IsAscending(p) && p != [] && x in p
    ensures x <= p[|p| - 1]
  {
  }

  /** There is only one ascending arrangement of numbers. */
  lemma {:induction false} AscendingIsUnique(p: seq<int>, q: seq<int>)
    requires IsAscending(p) && IsAscending(q) && multiset(p) == multiset(q)
    ensures p == q
  {
    Sorting.SameLength(p, q);
    if p != [] {
      var (front, back, last) := (p[..|p| - 1], q[..|q| - 1], p[|p| - 1]);
      assert last == q[|q| - 1] by {
        Sorting.SameElements(p, q, p[|p| - 1]);
        Sorting.SameElements(p, q, q[|q| - 1]);
        LastIsGreatest(p, q[|q| - 1]);
        LastIsGreatest(q, p[|p| - 1]);
      }
      assert front + [last] == p && back + [last] + [] == q && back + [] == back;
      Sorting.WithoutOne(front, last, back, []);
      AscendingIsUnique(front, back);
    }
  }

  /** Rearranged layouts sort to the same rectangles. */
  lemma RearrangedSortAlike(a: seq<LogicalMonitor>, b: seq<LogicalMonitor>)
    requires multiset(a) == multiset(b)
    ensures |Sorted(a)| == |Sorted(b)|
    ensures forall i | 0 <= i < |Sorted(a)| :: Sorted(a)[i].rect == Sorted(b)[i].rect
  {
    SortedAscends(a);
    SortedAscends(b);
    KeysRearrange(Sorted(a), Sorted(b));
    AscendingIsUnique(Keys(Sorted(a)), Keys(Sorted(b)));
    assert |Keys(Sorted(a))| == |Keys(Sorted(b))|;
    forall i | 0 <= i < |Sorted(a)| ensures Sorted(a)[i].rect == Sorted(b)[i].rect {
      assert Keys(Sorted(a))[i] == Keys(Sorted(b))[i];
      KeyOrdersRects(Sorted(a)[i], Sorted(b)[i]);
    }
  }

  lemma ConsistentAgreesRearranged(layout: seq<LogicalMonitor>, m: seq<LogicalMonitor>)
    requires HasConsistentScales(layout) && multiset(m) == multiset(layout)
    ensures AgreeInOrder(layout, m)
  {
    Sorting.SameLength(layout, m);
    RearrangedSortAlike(layout, m);
    var (left, right) := (Sorted(layout), Sorted(m));
    forall i | 0 <= i < |left| ensures Agree(left[i], right[i]) {
      Sorting.SameElements(left, layout, left[i]);
      Sorting.SameElements(right, layout, right[i]);
      var a :| 0 <= a < |layout| && layout[a] == left[i];
      var b :| 0 <= b < |layout| && layout[b] == right[i];
      assert HaveNearScales(layout[a], layout[b]);
    }
  }

  /** The sorted layout with two monitors on one rectangle exchanged. */
  function Exchanged(s: seq<LogicalMonitor>, i: nat, j: nat): seq<LogicalMonitor>
    requires i < |s| && j < |s|
  {
    s[i := s[j]][j := s[i]]
  }

  lemma ExchangedIsRearranged(s: seq<LogicalMonitor>, i: nat, j: nat)
    requires i < |s| && j < |s|
    ensures multiset(Exchanged(s, i, j)) == multiset(s)
  {
  }

  lemma ExchangedKeepsKeys(s: seq<LogicalMonitor>, i: nat, j: nat)
    requires i < |s| && j < |s| && s[i].rect == s[j].rect
    ensures Keys(Exchanged(s, i, j)) == Keys(s)
  {
    KeyOrdersRects(s[i], s[j]);
  }

  /** An exchange of two monitors on one rectangle that goes unnoticed shows that their scales are near. */
  lemma UnnoticedExchange(layout: seq<LogicalMonitor>, i: nat, j: nat)
    requires i < |Sorted(layout)| && j < |Sorted(layout)| && Sorted(layout)[i].rect == Sorted(layout)[j].rect
    requires AgreeInOrder(layout, Exchanged(Sorted(layout), i, j))
    ensures HaveNearScales(Sorted(layout)[i], Sorted(layout)[j])
  {
    var s := Sorted(layout);
    var t := Exchanged(s, i, j);
    SortedAscends(layout);
    ExchangedKeepsKeys(s, i, j);
    SortedStays(t);
    assert Agree(s[i], t[i]) && t[i] == s[j];
  }

  lemma UnnoticedOrderIsConsistent(layout: seq<LogicalMonitor>)
    requires forall m: seq<LogicalMonitor> :: multiset(m) == multiset(layout) ==> AgreeInOrder(layout, m)
    ensures HasConsistentScales(layout)
  {
    var s := Sorted(layout);
    assert AgreeInOrder(layout, layout);
    forall a, b | 0 <= a < |layout| && 0 <= b < |layout| && layout[a].rect == layout[b].rect
      ensures HaveNearScales(layout[a], layout[b])
    {
      Sorting.SameElements(s, layout, layout[a]);
      Sorting.SameElements(s, layout, layout[b]);
      var i :| 0 <= i < |s| && s[i] == layout[a];
      var j :| 0 <= j < |s| && s[j] == layout[b];
      ExchangedIsRearranged(s, i, j);
      UnnoticedExchange(layout, i, j);
    }
    forall a | 0 <= a < |layout| ensures layout[a].scale.Finite? {
      assert HaveNearScales(layout[a], layout[a]);
    }
  }

  /** A layout agrees with all its rearrangements exactly when its scales are finite and near each other
      on every rectangle it uses more than once. */
  lemma OrderIsIgnoredExactlyWhenConsistent(layout: seq<LogicalMonitor>)
    ensures (forall m: seq<LogicalMonitor> :: multiset(m) == multiset(layout) ==> AgreeInOrder(layout, m)) <==>
            HasConsistentScales(layout)
  {
    if HasConsistentScales(layout) {
      forall m: seq<LogicalMonitor> | multiset(m) == multiset(layout) ensures AgreeInOrder(layout, m) {
        ConsistentAgreesRearranged(layout, m);
      }
    } else if forall m: seq<LogicalMonitor> :: multiset(m) == multiset(layout) ==> AgreeInOrder(layout, m) {
      UnnoticedOrderIsConsistent(layout);
    }
  }

  /** An instance: two monitors on one rectangle with scales 1 and 2. */
  lemma MirroredMonitorsCompareByOrder()
    ensures var (r, a, b) := (Monitor(0, 0, 1, 1), Finite(1.0), Finite(2.0));
            && AgreeInOrder([LogicalMonitor(r, a), LogicalMonitor(r, b)], [LogicalMonitor(r, a), LogicalMonitor(r, b)])
            && !AgreeInOrder([LogicalMonitor(r, a), LogicalMonitor(r, b)], [LogicalMonitor(r, b), LogicalMonitor(r, a)])
  {
    var r := Monitor(0, 0, 1, 1);
    var (m, n) := (LogicalMonitor(r, Finite(1.0)), LogicalMonitor(r, Finite(2.0)));
    EqualKeysKeepOrder(m, n);
    EqualKeysKeepOrder(n, m);
    assert !Agree(Sorted([m, n])[0], Sorted([n, m])[0]);
  }

  lemma EqualKeysKeepOrder(a: LogicalMonitor, b: LogicalMonitor)
    requires Key(a) == Key(b)
    ensures Sorted([a, b]) == [a, b]
  {
    assert [a, b][..1] == [a] && [a][..0] == [];
    assert Sorted([a]) == [a];
  }
}
