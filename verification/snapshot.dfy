/**
 The accessibility snapshot: a breadth-first walk over a graph that may be cyclic and whose
 reads may fail, bounded by a queue capacity, a node count, a depth and a read budget.
 */
module Snapshot {
  import opened Prelude

  type ObjectRef = nat

  /** What one visit of an object meets: it cannot be opened, or it reports a child count
      (or an error) and answers each indexed child read with an object or an error. */
  datatype Visit =
    | Unopened
    | Opened(childCount: Option<int>, children: int -> Option<ObjectRef>)

  /** The answers of the accessibility bus: any behaviour, and a fresh one for every attempt. */
  type Bus = (nat, ObjectRef) -> Visit

  /** A queued object with the depth and the parent the walk found it at. */
  datatype Entry = Entry(ref: ObjectRef, depth: nat, parent: Option<nat>)

  datatype Node = Node(index: nat, entry: Entry)

  class BoundedTraversal {
    var queue: seq<Entry>
    var attempted: nat
    const maxItems: nat

    ghost predicate Valid()
      reads this
    {
      attempted + |queue| <= maxItems
    }

    constructor (maxItems: nat)
      ensures Valid() && queue == [] && attempted == 0 && this.maxItems == maxItems
    {
      queue, attempted := [], 0;
      this.maxItems := maxItems;
    }

    function RemainingCapacity(): (r: nat)
      requires Valid()
      reads this
      ensures r + attempted + |queue| == maxItems
    {
      maxItems - (attempted + |queue|)
    }

    method Enqueue(items: seq<Entry>)
      requires Valid()
      modifies this`queue
      ensures Valid()
      ensures queue == old(queue) + Cut(items, maxItems - (attempted + |old(queue)|))
    {
      queue := queue + Cut(items, RemainingCapacity());
    }

    method Pop() returns (item: Option<Entry>)
      requires Valid()
      modifies this
      ensures Valid()
      ensures old(queue) == [] ==> item.None? && queue == [] && attempted == old(attempted)
      ensures old(queue) != [] ==>
                item == Some(old(queue)[0]) && queue == old(queue)[1..] && attempted == old(attempted) + 1
    {
      if attempted >= maxItems || queue == [] {
        return None;
      }
      item := Some(queue[0]);
      queue := queue[1..];
      attempted := attempted + 1;
    }
  }

  /** How many of `reported` children are read under a limit and the attempts left: the least of the three. */
  function AttemptCount(reported: int, limit: nat, attempts: nat): (r: nat)
    ensures r <= limit && r <= attempts && (r == 0 || r <= reported)
    ensures r == limit || r == attempts || r == reported || (r == 0 && reported < 0)
  {
    var bounded := if reported < 0 then 0 else if reported < limit then reported else limit;
    if bounded < attempts then bounded else attempts
  }

  /** The successful answers among the first `n` indexed reads, in index order. */
  function Answers(read: int -> Option<ObjectRef>, n: nat): (r: seq<ObjectRef>)
    ensures |r| <= n
  {
    if n == 0 then [] else
      var before := Answers(read, n - 1);
      if read(n - 1).Some? then before + [read(n - 1).value] else before
  }

  /** `positions` are the indices below `n` whose reads succeed, in ascending order, and `items` their answers. */
  predicate AreSuccesses(read: int -> Option<ObjectRef>, n: nat, positions: seq<nat>, items: seq<ObjectRef>)
  {
    && |positions| == |items|
    && (forall i | 0 <= i < |items| :: IsSuccess(read, n, positions, items, i))
    && (forall i, j | 0 <= i < j < |positions| :: positions[i] < positions[j])
    && (forall k: nat | k < n && read(k).Some? :: k in positions)
  }

  predicate IsSuccess(read: int -> Option<ObjectRef>, n: nat, positions: seq<nat>, items: seq<ObjectRef>, i: nat)
  {
    i < |positions| == |items| && positions[i] < n && read(positions[i]) == Some(items[i])
  }

  ghost predicate Succeed(read: int -> Option<ObjectRef>, n: nat, items: seq<ObjectRef>)
  {
    exists positions :: AreSuccesses(read, n, positions, items)
  }

  /** The successes are determined by the reads: they are the answers in index order. */
  lemma {:induction false} AnswersSucceed(read: int -> Option<ObjectRef>, n: nat) returns (positions: seq<nat>)
    ensures AreSuccesses(read, n, positions, Answers(read, n))
  {
    if n == 0 {
      positions := [];
    } else {
      positions := AnswersSucceed(read, n - 1);
      if read(n - 1).Some? {
        OneMoreSuccess(read, n - 1, positions, Answers(read, n - 1));
        positions := positions + [n - 1];
      } else {
        OneMoreFailure(read, n - 1, positions, Answers(read, n - 1));
      }
    }
  }

  lemma OneMoreFailure(read: int -> Option<ObjectRef>, n: nat, positions: seq<nat>, items: seq<ObjectRef>)
    requires AreSuccesses(read, n, positions, items) && read(n).None?
    ensures AreSuccesses(read, n + 1, positions, items)
  {
    var next := n + 1;
    forall i | 0 <= i < |items| ensures IsSuccess(read, next, positions, items, i) {
      assert IsSuccess(read, n, positions, items, i);
    }
  }

  lemma OneMoreSuccess(read: int -> Option<ObjectRef>, n: nat, positions: seq<nat>, items: seq<ObjectRef>)
    requires AreSuccesses(read, n, positions, items) && read(n).Some?
    ensures AreSuccesses(read, n + 1, positions + [n], items + [read(n).value])
  {
    var (next, more, found) := (n + 1, positions + [n], items + [read(n).value]);
    forall i | 0 <= i < |found| ensures IsSuccess(read, next, more, found, i) {
      assert i < |items| ==> IsSuccess(read, n, positions, items, i);
    }
    forall i, j | 0 <= i < j < |more| ensures more[i] < more[j] {
      assert IsSuccess(read, n, positions, items, i);
    }
    forall k: nat | k < next && read(k).Some? ensures k in more {
      assert k == n ==> more[|positions|] == k;
    }
  }

  lemma {:induction false} SuccessesAreAnswers(read: int -> Option<ObjectRef>, n: nat, positions: seq<nat>,
                                               items: seq<ObjectRef>)
    requires AreSuccesses(read, n, positions, items)
    ensures items == Answers(read, n)
  {
    if n == 0 {
      assert !IsSuccess(read, 0, positions, items, 0);
    } else {
      if read(n - 1).None? {
        LastFailed(read, n - 1, positions, items);
        SuccessesAreAnswers(read, n - 1, positions, items);
      } else {
        var m := LastSuccess(read, n - 1, positions, items);
        SuccessesAreAnswers(read, n - 1, positions[..m], items[..m]);
      }
    }
  }

  lemma LastFailed(read: int -> Option<ObjectRef>, n: nat, positions: seq<nat>, items: seq<ObjectRef>)
    requires AreSuccesses(read, n + 1, positions, items) && read(n).None?
    ensures AreSuccesses(read, n, positions, items)
  {
    forall i | 0 <= i < |items| ensures IsSuccess(read, n, positions, items, i) {
      assert IsSuccess(read, n + 1, positions, items, i);
    }
  }

  lemma LastSuccess(read: int -> Option<ObjectRef>, n: nat, positions: seq<nat>, items: seq<ObjectRef>) returns (m: nat)
    requires AreSuccesses(read, n + 1, positions, items) && read(n).Some?
    ensures m + 1 == |items| == |positions| && items == items[..m] + [read(n).value]
    ensures AreSuccesses(read, n, positions[..m], items[..m])
  {
    m :| 0 <= m < |positions| && positions[m] == n;
    assert IsSuccess(read, n + 1, positions, items, m) && IsSuccess(read, n + 1, positions, items, |items| - 1);
    forall i | 0 <= i < m ensures IsSuccess(read, n, positions[..m], items[..m], i) {
      assert IsSuccess(read, n + 1, positions, items, i) && positions[i] < positions[m];
    }
    forall k: nat | k < n && read(k).Some? ensures k in positions[..m] {
      var i :| 0 <= i < |positions| && positions[i] == k;
      assert positions[..m][i] == k;
    }
  }

  method FetchIndexedUpTo(reported: int, limit: nat, attempts: nat, read: int -> Option<ObjectRef>)
    returns (items: seq<ObjectRef>, left: nat)
    ensures left == attempts - AttemptCount(reported, limit, attempts)
    ensures items == Answers(read, attempts - left)
    ensures Succeed(read, attempts - left, items)
  {
    var count := AttemptCount(reported, limit, attempts);
    left := attempts - count;
    items := [];
    for i := 0 to count
      invariant items == Answers(read, i)
    {
      var answer := read(i);
      if answer.Some? {
        items := items + [answer.value];
      }
    }
    ghost var positions := AnswersSucceed(read, count);
  }

  method ChildrenUpTo(visit: Visit, limit: nat, attempts: nat) returns (items: seq<ObjectRef>, left: nat)
    requires visit.Opened?
    ensures left <= attempts && |items| <= attempts - left && |items| <= limit
    ensures visit.childCount.Some? ==>
              && items == Answers(visit.children, AttemptCount(visit.childCount.value, limit, attempts))
              && left == attempts - AttemptCount(visit.childCount.value, limit, attempts)
    ensures visit.childCount.None? ==> items == [] && left == attempts
    ensures TakesChildren(visit, true, limit, attempts, attempts - left, items)
  {
    items, left := [], attempts;
    if limit == 0 || attempts == 0 {
      assert AreSuccesses(visit.children, 0, [], []);
      return;
    }
    if visit.childCount.None? {
      return;
    }
    items, left := FetchIndexedUpTo(visit.childCount.value, limit, attempts, visit.children);
  }

  /** The entries of children found at `depth` below the node with index `parent`. */
  function ChildEntries(children: seq<ObjectRef>, depth: nat, parent: nat): seq<Entry>
  {
    seq(|children|, i requires 0 <= i < |children| => Entry(children[i], depth, Some(parent)))
  }

  function RootEntries(roots: seq<ObjectRef>): seq<Entry>
  {
    seq(|roots|, i requires 0 <= i < |roots| => Entry(roots[i], 0, None))
  }

  // ----- what every snapshot satisfies -----

  /** Roots come before children, and children in the order of their parents. */
  predicate ParentOrder(a: Option<nat>, b: Option<nat>)
  {
    a.None? || (b.Some? && a.value <= b.value)
  }

  /** Entry `i` is a root, or lies one level below a parent that is among the first `n` entries and precedes it. */
  predicate Fits(all: seq<Entry>, n: nat, maxDepth: nat, i: nat)
    requires i < |all|
  {
    var e := all[i];
    && e.depth <= maxDepth
    && (e.parent.None? <==> e.depth == 0)
    && (e.parent.Some? ==> e.parent.value < n && e.parent.value < i && e.depth == all[e.parent.value].depth + 1)
  }

  predicate NotAfter(all: seq<Entry>, i: nat, j: nat)
    requires i < |all| && j < |all|
  {
    all[i].depth <= all[j].depth && ParentOrder(all[i].parent, all[j].parent)
  }

  /** Everything fits, and depths and parents never go back. The first `n` entries are those listed. */
  predicate IsWalk(all: seq<Entry>, n: nat, maxDepth: nat)
  {
    && n <= |all|
    && (forall i | 0 <= i < |all| :: Fits(all, n, maxDepth, i))
    && (forall i, j | 0 <= i < j < |all| :: NotAfter(all, i, j))
  }

  function Listed(nodes: seq<Node>): (r: seq<Entry>)
    ensures |r| == |nodes|
  {
    seq(|nodes|, i requires 0 <= i < |nodes| => nodes[i].entry)
  }

  /** A node array within its bounds whose indices are positions, whose parents precede, one level
      up, and whose depths and parents never go back. */
  predicate IsSnapshot(nodes: seq<Node>, maxNodes: nat, maxDepth: nat)
  {
    && |nodes| <= maxNodes
    && (forall i | 0 <= i < |nodes| :: nodes[i].index == i)
    && IsWalk(Listed(nodes), |nodes|, maxDepth)
  }

  // ----- the full breadth-first listing -----

  /** The children of `entries` in order, down to `maxDepth`; the first entry has index `base`. */
  function Offspring(kids: ObjectRef -> seq<ObjectRef>, entries: seq<Entry>, base: nat, maxDepth: nat): seq<Entry>
  {
    if entries == [] then [] else
      ChildrenOf(kids, entries[0], base, maxDepth) + Offspring(kids, entries[1..], base + 1, maxDepth)
  }

  function ChildrenOf(kids: ObjectRef -> seq<ObjectRef>, e: Entry, index: nat, maxDepth: nat): seq<Entry>
  {
    if e.depth < maxDepth then ChildEntries(kids(e.ref), e.depth + 1, index) else []
  }

  /** `level`, the level below it, and so on down to `maxDepth`. */
  function Levels(kids: ObjectRef -> seq<ObjectRef>, level: seq<Entry>, base: nat, depth: nat, maxDepth: nat): seq<Entry>
    requires depth <= maxDepth
    decreases maxDepth - depth
  {
    if depth == maxDepth then level
    else level + Levels(kids, Offspring(kids, level, base, maxDepth), base + |level|, depth + 1, maxDepth)
  }

  function FullListing(kids: ObjectRef -> seq<ObjectRef>, roots: seq<ObjectRef>, maxDepth: nat): seq<Entry>
  {
    Levels(kids, RootEntries(roots), 0, 0, maxDepth)
  }

  /** Every object opens and every read of its children succeeds, always with the same answers. */
  ghost predicate Reliable(bus: Bus, kids: ObjectRef -> seq<ObjectRef>)
  {
    forall n: nat, o: ObjectRef :: bus(n, o).Opened? && ReportsAll(bus(n, o), kids(o))
  }

  predicate ReportsAll(visit: Visit, children: seq<ObjectRef>)
    requires visit.Opened?
  {
    && visit.childCount == Some(|children|)
    && forall i | 0 <= i < |children| :: visit.children(i) == Some(children[i])
  }

  lemma {:induction false} AnswersAll(visit: Visit, children: seq<ObjectRef>, n: nat)
    requires visit.Opened? && ReportsAll(visit, children) && n <= |children|
    ensures Answers(visit.children, n) == children[..n]
  {
    if n > 0 {
      AnswersAll(visit, children, n - 1);
      assert children[..n] == children[..n - 1] + [children[n - 1]];
    }
  }

  lemma {:induction false} OffspringConcat(kids: ObjectRef -> seq<ObjectRef>, a: seq<Entry>, b: seq<Entry>,
                                           base: nat, maxDepth: nat)
    ensures Offspring(kids, a + b, base, maxDepth) ==
            Offspring(kids, a, base, maxDepth) + Offspring(kids, b, base + |a|, maxDepth)
  {
    if a == [] {
      assert a + b == b;
    } else {
      OffspringHead(kids, a, b, base, maxDepth);
      OffspringConcat(kids, a[1..], b, base + 1, maxDepth);
      Associate(ChildrenOf(kids, a[0], base, maxDepth), Offspring(kids, a[1..], base + 1, maxDepth),
                Offspring(kids, b, base + |a|, maxDepth));
    }
  }

  lemma OffspringHead(kids: ObjectRef -> seq<ObjectRef>, a: seq<Entry>, b: seq<Entry>, base: nat, maxDepth: nat)
    requires a != []
    ensures Offspring(kids, a + b, base, maxDepth) ==
            ChildrenOf(kids, a[0], base, maxDepth) + Offspring(kids, a[1..] + b, base + 1, maxDepth)
  {
    TailOfConcat(a, b);
  }

  lemma TailOfConcat<T>(a: seq<T>, b: seq<T>)
    requires a != []
    ensures (a + b)[0] == a[0] && (a + b)[1..] == a[1..] + b
  {
  }

  lemma OffspringSnoc(kids: ObjectRef -> seq<ObjectRef>, a: seq<Entry>, e: Entry, base: nat, maxDepth: nat)
    ensures Offspring(kids, a + [e], base, maxDepth) ==
            Offspring(kids, a, base, maxDepth) + ChildrenOf(kids, e, base + |a|, maxDepth)
  {
    OffspringConcat(kids, a, [e], base, maxDepth);
    assert Offspring(kids, [e][1..], base + |a| + 1, maxDepth) == [];
  }

  predicate AllAt(level: seq<Entry>, depth: nat)
  {
    forall i | 0 <= i < |level| :: level[i].depth == depth
  }

  lemma {:induction false} OffspringDepth(kids: ObjectRef -> seq<ObjectRef>, level: seq<Entry>, base: nat,
                                          depth: nat, maxDepth: nat)
    requires AllAt(level, depth)
    ensures AllAt(Offspring(kids, level, base, maxDepth), depth + 1)
    ensures depth == maxDepth ==> Offspring(kids, level, base, maxDepth) == []
  {
    if level != [] {
      OffspringDepth(kids, level[1..], base + 1, depth, maxDepth);
    }
  }

  lemma {:induction false} OffspringParents(kids: ObjectRef -> seq<ObjectRef>, entries: seq<Entry>, base: nat,
                                            maxDepth: nat, i: nat)
    requires i < |Offspring(kids, entries, base, maxDepth)|
    ensures var p := Offspring(kids, entries, base, maxDepth)[i].parent;
            p.Some? && base <= p.value < base + |entries|
  {
    var first := ChildrenOf(kids, entries[0], base, maxDepth);
    if i >= |first| {
      OffspringParents(kids, entries[1..], base + 1, maxDepth, i - |first|);
    }
  }

  /** A listing is closed when behind the roots it has the children of its own entries, in order. */
  predicate IsClosed(kids: ObjectRef -> seq<ObjectRef>, start: seq<Entry>, listing: seq<Entry>, maxDepth: nat)
  {
    listing == start + Offspring(kids, listing, 0, maxDepth)
  }

  /** Level by level, a listing from `level` down is `level` and the children of its own entries. */
  lemma {:induction false} LevelsClosed(kids: ObjectRef -> seq<ObjectRef>, level: seq<Entry>, base: nat,
                                        depth: nat, maxDepth: nat)
    requires depth <= maxDepth && AllAt(level, depth)
    ensures var r := Levels(kids, level, base, depth, maxDepth);
            r == level + Offspring(kids, r, base, maxDepth)
    decreases maxDepth - depth
  {
    OffspringDepth(kids, level, base, depth, maxDepth);
    var next := Offspring(kids, level, base, maxDepth);
    if depth == maxDepth {
      assert level == level + next;
    } else {
      var rest := Levels(kids, next, base + |level|, depth + 1, maxDepth);
      LevelsClosed(kids, next, base + |level|, depth + 1, maxDepth);
      assert Offspring(kids, level + rest, base, maxDepth) == rest by {
        OffspringConcat(kids, level, rest, base, maxDepth);
      }
    }
  }

  lemma FullListingClosed(kids: ObjectRef -> seq<ObjectRef>, roots: seq<ObjectRef>, maxDepth: nat)
    ensures IsClosed(kids, RootEntries(roots), FullListing(kids, roots, maxDepth), maxDepth)
  {
    LevelsClosed(kids, RootEntries(roots), 0, 0, maxDepth);
  }

  /** In a level-by-level listing every parent precedes its children. */
  lemma {:induction false} LevelsParentsPrecede(kids: ObjectRef -> seq<ObjectRef>, level: seq<Entry>, base: nat,
                                                depth: nat, maxDepth: nat, i: nat)
    requires depth <= maxDepth && i < |Levels(kids, level, base, depth, maxDepth)|
    requires forall j | 0 <= j < |level| :: level[j].parent.Some? ==> level[j].parent.value < base + j
    ensures var p := Levels(kids, level, base, depth, maxDepth)[i].parent;
            p.Some? ==> p.value < base + i
    decreases maxDepth - depth
  {
    if i >= |level| {
      var next := Offspring(kids, level, base, maxDepth);
      forall j | 0 <= j < |next| ensures next[j].parent.Some? ==> next[j].parent.value < base + |level| + j {
        OffspringParents(kids, level, base, maxDepth, j);
      }
      LevelsParentsPrecede(kids, next, base + |level|, depth + 1, maxDepth, i - |level|);
    }
  }

  function Cut<T>(s: seq<T>, n: nat): seq<T>
  {
    if |s| <= n then s else s[..n]
  }

  lemma CutIsPrefix<T>(s: seq<T>, n: nat, full: seq<T>)
    requires s <= full
    ensures Cut(s, n) <= full
  {
  }

  lemma CutConcat<T>(a: seq<T>, b: seq<T>, n: nat)
    ensures Cut(a + b, n) == Cut(a, n) + Cut(b, n - |Cut(a, n)|)
  {
  }

  /** The walk so far: listed entries and queue are what the listed entries have brought in, up to
      the capacity, and the beginning of the full listing. */
  predicate OnTrack(kids: ObjectRef -> seq<ObjectRef>, start: seq<Entry>, full: seq<Entry>, maxNodes: nat, maxDepth: nat,
                    listed: seq<Entry>, queue: seq<Entry>)
  {
    && listed + queue == Cut(start + Offspring(kids, listed, 0, maxDepth), maxNodes)
    && listed + queue <= full
  }

  lemma TrackStart(kids: ObjectRef -> seq<ObjectRef>, start: seq<Entry>, full: seq<Entry>, maxNodes: nat, maxDepth: nat)
    requires IsClosed(kids, start, full, maxDepth)
    ensures OnTrack(kids, start, full, maxNodes, maxDepth, [], Cut(start, maxNodes))
  {
    assert [] + Cut(start, maxNodes) == Cut(start, maxNodes);
    assert start == start + [];
    CutIsPrefix(start, maxNodes, full);
  }

  /** Moving the head of a queue over and appending to its end appends to the whole. */
  lemma MoveHead<T>(listed: seq<T>, queue: seq<T>, added: seq<T>)
    requires queue != []
    ensures (listed + [queue[0]]) + (queue[1..] + added) == (listed + queue) + added
    ensures listed + [queue[0]] == (listed + queue)[..|listed| + 1]
  {
  }

  lemma DropHead<T>(listed: seq<T>, queue: seq<T>)
    requires queue != []
    ensures (listed + queue)[..|listed|] + (listed + queue)[|listed| + 1..] == listed + queue[1..]
  {
  }

  lemma Regroup<T>(whole: seq<T>, a: seq<T>, bc: seq<T>, b: seq<T>, c: seq<T>)
    requires whole == a + bc && bc == b + c
    ensures whole == a + b + c
  {
  }

  lemma IsPrefix<T>(a: seq<T>, b: seq<T>)
    ensures a <= a + b
  {
  }

  lemma Associate<T>(a: seq<T>, b: seq<T>, c: seq<T>)
    ensures a + (b + c) == a + b + c
  {
  }

  lemma TrackVisit(kids: ObjectRef -> seq<ObjectRef>, start: seq<Entry>, full: seq<Entry>, maxNodes: nat, maxDepth: nat,
                   listed: seq<Entry>, queue: seq<Entry>)
    requires IsClosed(kids, start, full, maxDepth) && OnTrack(kids, start, full, maxNodes, maxDepth, listed, queue)
    requires queue != [] && |listed| + |queue| <= maxNodes
    ensures var added := Cut(ChildrenOf(kids, queue[0], |listed|, maxDepth), maxNodes - |listed| - |queue|);
            OnTrack(kids, start, full, maxNodes, maxDepth, listed + [queue[0]], queue[1..] + added)
  {
    var e := queue[0];
    var children := ChildrenOf(kids, e, |listed|, maxDepth);
    var brought := start + Offspring(kids, listed, 0, maxDepth);
    OffspringSnoc(kids, listed, e, 0, maxDepth);
    Associate(start, Offspring(kids, listed, 0, maxDepth), children);
    CutConcat(brought, children, maxNodes);
    MoveHead(listed, queue, Cut(children, maxNodes - |listed| - |queue|));
    NothingElseBroughtIn(kids, start, full, listed + queue, listed + [e], maxDepth);
    CutIsPrefix(brought + children, maxNodes, full);
  }

  /** A beginning of the full listing brings in no more than the full listing has. */
  lemma NothingElseBroughtIn(kids: ObjectRef -> seq<ObjectRef>, start: seq<Entry>, full: seq<Entry>,
                             whole: seq<Entry>, head: seq<Entry>, maxDepth: nat)
    requires IsClosed(kids, start, full, maxDepth)
    requires whole <= full && |head| <= |whole| && head == whole[..|head|]
    ensures start + Offspring(kids, head, 0, maxDepth) <= full
  {
    var tail := full[|head|..];
    HeadAndTail(full, whole, head, tail);
    var brought, later := Offspring(kids, head, 0, maxDepth), Offspring(kids, tail, |head|, maxDepth);
    OffspringConcat(kids, head, tail, 0, maxDepth);
    Regroup(full, start, Offspring(kids, full, 0, maxDepth), brought, later);
    IsPrefix(start + brought, later);
  }

  lemma HeadAndTail<T>(full: seq<T>, whole: seq<T>, head: seq<T>, tail: seq<T>)
    requires whole <= full && |head| <= |whole| && head == whole[..|head|] && tail == full[|head|..]
    ensures head + tail == full
  {
  }

  /** An empty queue means that everything is listed, up to the capacity. */
  lemma TrackEnd(kids: ObjectRef -> seq<ObjectRef>, roots: seq<ObjectRef>, maxNodes: nat, maxDepth: nat, listed: seq<Entry>)
    requires OnTrack(kids, RootEntries(roots), FullListing(kids, roots, maxDepth), maxNodes, maxDepth, listed, [])
    ensures listed == Cut(FullListing(kids, roots, maxDepth), maxNodes)
  {
    assert listed + [] == listed;
    if |listed| < maxNodes {
      NothingUnlisted(kids, roots, maxDepth, listed);
    }
  }

  /** A beginning of the full listing that holds all it brings in is the full listing. */
  lemma NothingUnlisted(kids: ObjectRef -> seq<ObjectRef>, roots: seq<ObjectRef>, maxDepth: nat, listed: seq<Entry>)
    requires listed <= FullListing(kids, roots, maxDepth)
    requires listed == RootEntries(roots) + Offspring(kids, listed, 0, maxDepth)
    ensures listed == FullListing(kids, roots, maxDepth)
  {
    var full := FullListing(kids, roots, maxDepth);
    var n := |listed|;
    if n < |full| {
      FullListingClosed(kids, roots, maxDepth);
      HeadAndTail(full, listed, listed, full[n..]);
      OffspringConcat(kids, listed, full[n..], 0, maxDepth);
      Regroup(full, RootEntries(roots), Offspring(kids, full, 0, maxDepth), Offspring(kids, listed, 0, maxDepth),
              Offspring(kids, full[n..], n, maxDepth));
      NextIsNew(kids, roots, maxDepth, n);
    }
  }

  /** No entry of the full listing is brought in by itself or a later one. */
  lemma NextIsNew(kids: ObjectRef -> seq<ObjectRef>, roots: seq<ObjectRef>, maxDepth: nat, n: nat)
    requires n < |FullListing(kids, roots, maxDepth)|
    ensures var full := FullListing(kids, roots, maxDepth);
            var later := Offspring(kids, full[n..], n, maxDepth);
            later == [] || full[n] != later[0]
  {
    var full := FullListing(kids, roots, maxDepth);
    var later := Offspring(kids, full[n..], n, maxDepth);
    if later != [] {
      OffspringParents(kids, full[n..], n, maxDepth, 0);
      LevelsParentsPrecede(kids, RootEntries(roots), 0, 0, maxDepth, n);
    }
  }

  /** On a reliable bus the children read are the first that fit the capacity; the budget cuts nothing. */
  lemma FirstChildrenRead(visit: Visit, children: seq<ObjectRef>, limit: nat, budget: nat)
    requires visit.Opened? && ReportsAll(visit, children) && limit <= budget
    ensures AttemptCount(|children|, limit, budget) == |Cut(children, limit)|
    ensures Answers(visit.children, AttemptCount(|children|, limit, budget)) == Cut(children, limit)
  {
    AnswersAll(visit, children, |Cut(children, limit)|);
    assert children[..|children|] == children;
  }

  // ----- the walk -----

  /** Visiting entry `n` appends its children to the walk. */
  lemma VisitKeepsWalk(all: seq<Entry>, n: nat, children: seq<ObjectRef>, maxDepth: nat)
    requires n < |all| && IsWalk(all, n, maxDepth)
    requires children != [] ==> all[n].depth < maxDepth
    ensures IsWalk(all + ChildEntries(children, all[n].depth + 1, n), n + 1, maxDepth)
  {
    var added := ChildEntries(children, all[n].depth + 1, n);
    var both, m := all + added, n + 1;
    forall i | 0 <= i < |all| ensures all[i].depth <= all[n].depth + 1 && ParentOrder(all[i].parent, Some(n)) {
      ComesBeforeChildren(all, n, maxDepth, i);
    }
    forall i | 0 <= i < |both| ensures Fits(both, m, maxDepth, i) {
      assert i < |all| ==> Fits(all, n, maxDepth, i);
    }
    forall i, j | 0 <= i < j < |both| ensures NotAfter(both, i, j) {
      assert j < |all| ==> NotAfter(all, i, j);
    }
  }

  /** Every entry of a walk comes before a child of entry `n`. */
  lemma ComesBeforeChildren(all: seq<Entry>, n: nat, maxDepth: nat, i: nat)
    requires n < |all| && IsWalk(all, n, maxDepth) && i < |all|
    ensures all[i].depth <= all[n].depth + 1 && ParentOrder(all[i].parent, Some(n))
  {
    assert Fits(all, n, maxDepth, i) && Fits(all, n, maxDepth, n);
    if i < n {
      assert NotAfter(all, i, n);
    } else if all[i].parent.Some? {
      assert NotAfter(all, all[i].parent.value, n);
    }
  }

  /** Leaving out entry `n`, which nothing names as parent, keeps the walk. */
  lemma SkipKeepsWalk(all: seq<Entry>, n: nat, maxDepth: nat)
    requires n < |all| && IsWalk(all, n, maxDepth)
    ensures IsWalk(all[..n] + all[n + 1..], n, maxDepth)
  {
    var rest := all[..n] + all[n + 1..];
    forall i | 0 <= i < |rest| ensures Fits(rest, n, maxDepth, i) {
      assert Fits(all, n, maxDepth, if i < n then i else i + 1);
    }
    forall i, j | 0 <= i < j < |rest| ensures NotAfter(rest, i, j) {
      assert NotAfter(all, if i < n then i else i + 1, if j < n then j else j + 1);
    }
  }

  lemma RootsAreWalk(roots: seq<ObjectRef>, room: nat, maxDepth: nat)
    ensures IsWalk(Cut(RootEntries(roots), room), 0, maxDepth)
  {
  }

  /** One visit: the head of the queue is listed, its children are queued, and the walk goes on in order. */
  lemma VisitStep(listed: seq<Entry>, queue: seq<Entry>, children: seq<ObjectRef>, maxDepth: nat)
    requires queue != [] && IsWalk(listed + queue, |listed|, maxDepth)
    requires children != [] ==> queue[0].depth < maxDepth
    ensures IsWalk((listed + [queue[0]]) + (queue[1..] + ChildEntries(children, queue[0].depth + 1, |listed|)),
                   |listed + [queue[0]]|, maxDepth)
  {
    VisitKeepsWalk(listed + queue, |listed|, children, maxDepth);
    MoveHead(listed, queue, ChildEntries(children, queue[0].depth + 1, |listed|));
  }

  lemma SkipStep(listed: seq<Entry>, queue: seq<Entry>, maxDepth: nat)
    requires queue != [] && IsWalk(listed + queue, |listed|, maxDepth)
    ensures IsWalk(listed + queue[1..], |listed|, maxDepth)
  {
    SkipKeepsWalk(listed + queue, |listed|, maxDepth);
    DropHead(listed, queue);
  }

  /** On a reliable bus one visit reads all children that fit the capacity. */
  lemma CompleteVisit(kids: ObjectRef -> seq<ObjectRef>, e: Entry, index: nat, maxDepth: nat,
                      visit: Visit, room: nat, budget: nat, children: seq<ObjectRef>)
    requires visit.Opened? && ReportsAll(visit, kids(e.ref)) && room <= budget
    requires e.depth >= maxDepth ==> children == []
    requires e.depth < maxDepth ==> children == Answers(visit.children, AttemptCount(|kids(e.ref)|, room, budget))
    ensures ChildEntries(children, e.depth + 1, index) == Cut(ChildrenOf(kids, e, index, maxDepth), room)
    ensures e.depth < maxDepth ==> AttemptCount(|kids(e.ref)|, room, budget) == |children|
  {
    if e.depth < maxDepth {
      FirstChildrenRead(visit, kids(e.ref), room, budget);
    }
  }

  /** What a walk on a reliable bus keeps: every attempt listed a node, and enough reads are left. */
  predicate IsComplete(kids: ObjectRef -> seq<ObjectRef>, start: seq<Entry>, full: seq<Entry>,
                       maxNodes: nat, maxDepth: nat, listed: seq<Entry>, queue: seq<Entry>, attempted: nat, budget: nat)
  {
    && IsClosed(kids, start, full, maxDepth)
    && |listed| == attempted
    && budget >= maxNodes - (attempted + |queue|)
    && OnTrack(kids, start, full, maxNodes, maxDepth, listed, queue)
  }

  // ----- where listed objects come from -----

  predicate IsAnswer(visit: Visit, ref: ObjectRef, k: nat)
  {
    visit.Opened? && visit.children(k) == Some(ref)
  }

  /** Some visit of `parent` answered some child read with `ref`. */
  ghost predicate IsChild(bus: Bus, parent: ObjectRef, ref: ObjectRef)
  {
    exists n: nat, k: nat :: IsAnswer(bus(n, parent), ref, k)
  }

  /** A root was asked for; any other entry is what its parent's visit answered. */
  ghost predicate IsGenuineAt(bus: Bus, roots: seq<ObjectRef>, all: seq<Entry>, i: nat)
    requires i < |all|
  {
    var e := all[i];
    if e.parent.None? then e.ref in roots
    else e.parent.value < |all| && IsChild(bus, all[e.parent.value].ref, e.ref)
  }

  ghost predicate IsGenuine(bus: Bus, roots: seq<ObjectRef>, all: seq<Entry>)
  {
    forall i | 0 <= i < |all| :: IsGenuineAt(bus, roots, all, i)
  }

  ghost predicate HasAnswer(visit: Visit, ref: ObjectRef)
  {
    exists k: nat :: IsAnswer(visit, ref, k)
  }

  ghost predicate AllAnswered(visit: Visit, children: seq<ObjectRef>)
  {
    forall i | 0 <= i < |children| :: HasAnswer(visit, children[i])
  }

  lemma GenuineVisit(bus: Bus, roots: seq<ObjectRef>, listed: seq<Entry>, queue: seq<Entry>, n: nat, children: seq<ObjectRef>)
    requires queue != [] && IsGenuine(bus, roots, listed + queue) && AllAnswered(bus(n, queue[0].ref), children)
    ensures IsGenuine(bus, roots, (listed + [queue[0]]) + (queue[1..] + ChildEntries(children, queue[0].depth + 1, |listed|)))
  {
    var (all, added) := (listed + queue, ChildEntries(children, queue[0].depth + 1, |listed|));
    MoveHead(listed, queue, added);
    forall i | 0 <= i < |all + added| ensures IsGenuineAt(bus, roots, all + added, i) {
      if i < |all| {
        assert IsGenuineAt(bus, roots, all, i);
      } else {
        assert HasAnswer(bus(n, queue[0].ref), children[i - |all|]);
        var k: nat :| IsAnswer(bus(n, queue[0].ref), children[i - |all|], k);
        assert IsChild(bus, queue[0].ref, children[i - |all|]);
      }
    }
  }

  lemma GenuineSkip(bus: Bus, roots: seq<ObjectRef>, listed: seq<Entry>, queue: seq<Entry>, maxDepth: nat)
    requires queue != [] && IsGenuine(bus, roots, listed + queue) && IsWalk(listed + queue, |listed|, maxDepth)
    ensures IsGenuine(bus, roots, listed + queue[1..])
  {
    var (all, rest) := (listed + queue, listed + queue[1..]);
    forall i | 0 <= i < |rest| ensures IsGenuineAt(bus, roots, rest, i) {
      var j := if i < |listed| then i else i + 1;
      assert rest[i] == all[j];
      assert IsGenuineAt(bus, roots, all, j) && Fits(all, |listed|, maxDepth, j);
    }
  }

  lemma GenuineRoots(bus: Bus, roots: seq<ObjectRef>, room: nat)
    ensures IsGenuine(bus, roots, Cut(RootEntries(roots), room))
  {
  }

  // ----- the account of a walk -----

  /** A walk as it happened: each entry taken from the queue, the reads spent on it and the children they found. */
  datatype Walk = Begun | Visited(before: Walk, entry: Entry, spent: nat, children: seq<ObjectRef>)
  {
    /** How many entries were taken from the queue. */
    function Attempts(): nat {
      if Begun? then 0 else before.Attempts() + 1
    }

    function Reads(): nat {
      if Begun? then 0 else before.Reads() + spent
    }

    /** The entries whose object opened, in the order of their visits. */
    function OpenedEntries(bus: Bus): seq<Entry> {
      if Begun? then []
      else before.OpenedEntries(bus) + if bus(before.Attempts(), entry.ref).Opened? then [entry] else []
    }

    /** Everything that was ever queued, in order: the first entries, then the children of each visit. */
    function Brought(bus: Bus, start: seq<Entry>): seq<Entry> {
      if Begun? then start
      else before.Brought(bus, start) + ChildEntries(children, entry.depth + 1, |before.OpenedEntries(bus)|)
    }
  }

  /** What one visit reads and finds under the room and the budget left: nothing when the object does
      not open, lies too deep or reports no count, and otherwise the successes among its first reads. */
  ghost predicate TakesChildren(visit: Visit, above: bool, room: nat, budget: nat, spent: nat, children: seq<ObjectRef>)
  {
    if visit.Opened? && above && visit.childCount.Some? then
      && spent == AttemptCount(visit.childCount.value, room, budget)
      && Succeed(visit.children, spent, children)
    else spent == 0 && children == []
  }

  /** The walk visits what was queued in the order it was queued, and every visit takes what it may. */
  ghost predicate Happens(bus: Bus, start: seq<Entry>, maxNodes: nat, maxDepth: nat, w: Walk)
  {
    w.Visited? ==>
      && Happens(bus, start, maxNodes, maxDepth, w.before)
      && var (n, brought) := (w.before.Attempts(), w.before.Brought(bus, start));
         && n < |brought| <= maxNodes && w.before.Reads() <= maxNodes
         && w.entry == brought[n]
         && TakesChildren(bus(n, w.entry.ref), w.entry.depth < maxDepth, maxNodes - |brought|,
                          maxNodes - w.before.Reads(), w.spent, w.children)
  }

  /** The first entries are the roots in order, as many as fit. */
  lemma RootsAreQueued(roots: seq<ObjectRef>, maxNodes: nat, i: nat)
    ensures |Cut(RootEntries(roots), maxNodes)| == if |roots| < maxNodes then |roots| else maxNodes
    ensures i < |roots| && i < maxNodes ==> Cut(RootEntries(roots), maxNodes)[i] == Entry(roots[i], 0, None)
  {
  }

  /** A visit queues its children in order, one level below it, behind everything queued before. */
  lemma ChildrenAreQueued(bus: Bus, start: seq<Entry>, w: Walk, i: nat)
    requires w.Visited?
    ensures var (brought, now) := (w.before.Brought(bus, start), w.Brought(bus, start));
            && |now| == |brought| + |w.children|
            && (i < |brought| ==> now[i] == brought[i])
            && (i < |w.children| ==>
                  now[|brought| + i] == Entry(w.children[i], w.entry.depth + 1, Some(|w.before.OpenedEntries(bus)|)))
  {
  }

  /** Nothing queued is left unvisited. */
  ghost predicate IsOver(bus: Bus, start: seq<Entry>, w: Walk)
  {
    w.Attempts() == |w.Brought(bus, start)|
  }

  /** Where a walk stands: what it has listed, what is queued, and the budget left. */
  ghost predicate StandsAt(bus: Bus, start: seq<Entry>, maxNodes: nat, maxDepth: nat, w: Walk,
                           listed: seq<Entry>, queue: seq<Entry>, budget: nat)
  {
    && Happens(bus, start, maxNodes, maxDepth, w)
    && w.Attempts() + |queue| == |w.Brought(bus, start)| <= maxNodes
    && queue == w.Brought(bus, start)[w.Attempts()..]
    && listed == w.OpenedEntries(bus)
    && w.Reads() + budget == maxNodes
  }

  /** Taking the head of a queue and appending to its end moves the position by one. */
  lemma QueueAfterHead<T>(all: seq<T>, n: nat, queue: seq<T>, added: seq<T>)
    requires n < |all| && queue == all[n..]
    ensures queue[0] == all[n] && queue[1..] + added == (all + added)[n + 1..]
  {
  }

  /** One more entry taken from the queue, whether its object opens or not. */
  lemma VisitHappens(bus: Bus, start: seq<Entry>, maxNodes: nat, maxDepth: nat, w: Walk, listed: seq<Entry>,
                     queue: seq<Entry>, budget: nat, visit: Visit, room: nat, spent: nat, children: seq<ObjectRef>)
    requires StandsAt(bus, start, maxNodes, maxDepth, w, listed, queue, budget) && queue != [] && spent <= budget
    requires visit == bus(w.Attempts(), queue[0].ref) && room + w.Attempts() + |queue| == maxNodes && |children| <= room
    requires TakesChildren(visit, queue[0].depth < maxDepth, room, budget, spent, children)
    ensures var (v, added) := (Visited(w, queue[0], spent, children), ChildEntries(children, queue[0].depth + 1, |listed|));
            && (visit.Opened? ==>
                  StandsAt(bus, start, maxNodes, maxDepth, v, listed + [queue[0]], queue[1..] + added, budget - spent))
            && (visit.Unopened? ==>
                  StandsAt(bus, start, maxNodes, maxDepth, v, listed, queue[1..] + added, budget - spent))
  {
    var (brought, added) := (w.Brought(bus, start), ChildEntries(children, queue[0].depth + 1, |listed|));
    QueueAfterHead(brought, w.Attempts(), queue, added);
    var v := Visited(w, queue[0], spent, children);
    assert v.Brought(bus, start) == brought + added;
    assert maxNodes - |brought| == room && maxNodes - w.Reads() == budget;
    assert Happens(bus, start, maxNodes, maxDepth, v);
    assert listed + [] == listed;
  }

  lemma SkipHappens(bus: Bus, start: seq<Entry>, maxNodes: nat, maxDepth: nat, w: Walk, listed: seq<Entry>,
                    queue: seq<Entry>, budget: nat)
    requires StandsAt(bus, start, maxNodes, maxDepth, w, listed, queue, budget) && queue != []
    requires bus(w.Attempts(), queue[0].ref).Unopened?
    ensures StandsAt(bus, start, maxNodes, maxDepth, Visited(w, queue[0], 0, []), listed, queue[1..], budget)
  {
    VisitHappens(bus, start, maxNodes, maxDepth, w, listed, queue, budget, bus(w.Attempts(), queue[0].ref),
                 maxNodes - (w.Attempts() + |queue|), 0, []);
    assert queue[1..] + ChildEntries([], queue[0].depth + 1, |listed|) == queue[1..];
  }

  // ----- the loop -----

  /** What the loop keeps: the walk happened as accounted, in order and from genuine answers, and on a
      reliable bus it is a beginning of the full listing. */
  ghost predicate IsOngoing(bus: Bus, roots: seq<ObjectRef>, kids: ObjectRef -> seq<ObjectRef>, complete: bool,
                            maxNodes: nat, maxDepth: nat, w: Walk, listed: seq<Entry>, queue: seq<Entry>, budget: nat)
  {
    && StandsAt(bus, Cut(RootEntries(roots), maxNodes), maxNodes, maxDepth, w, listed, queue, budget)
    && IsWalk(listed + queue, |listed|, maxDepth)
    && IsGenuine(bus, roots, listed + queue)
    && (complete ==>
          && Reliable(bus, kids)
          && IsComplete(kids, RootEntries(roots), FullListing(kids, roots, maxDepth), maxNodes, maxDepth, listed, queue,
                        w.Attempts(), budget))
  }

  lemma OngoingSkip(bus: Bus, roots: seq<ObjectRef>, kids: ObjectRef -> seq<ObjectRef>, complete: bool,
                    maxNodes: nat, maxDepth: nat, w: Walk, listed: seq<Entry>, queue: seq<Entry>, budget: nat)
    requires IsOngoing(bus, roots, kids, complete, maxNodes, maxDepth, w, listed, queue, budget) && queue != []
    requires bus(w.Attempts(), queue[0].ref).Unopened?
    ensures IsOngoing(bus, roots, kids, complete, maxNodes, maxDepth, Visited(w, queue[0], 0, []), listed, queue[1..], budget)
  {
    SkipHappens(bus, Cut(RootEntries(roots), maxNodes), maxNodes, maxDepth, w, listed, queue, budget);
    SkipStep(listed, queue, maxDepth);
    GenuineSkip(bus, roots, listed, queue, maxDepth);
  }

  lemma OngoingVisit(bus: Bus, roots: seq<ObjectRef>, kids: ObjectRef -> seq<ObjectRef>, complete: bool,
                     maxNodes: nat, maxDepth: nat, w: Walk, listed: seq<Entry>, queue: seq<Entry>, budget: nat,
                     visit: Visit, room: nat, spent: nat, children: seq<ObjectRef>, v: Walk, after: seq<Entry>, left: nat)
    requires IsOngoing(bus, roots, kids, complete, maxNodes, maxDepth, w, listed, queue, budget) && queue != []
    requires visit == bus(w.Attempts(), queue[0].ref) && room + w.Attempts() + |queue| == maxNodes
    requires visit.Opened? && left + spent == budget
    requires TakesChildren(visit, queue[0].depth < maxDepth, room, budget, spent, children)
    requires v == Visited(w, queue[0], spent, children)
    requires after == queue[1..] + ChildEntries(children, queue[0].depth + 1, |listed|)
    ensures IsOngoing(bus, roots, kids, complete, maxNodes, maxDepth, v, listed + [queue[0]], after, left)
  {
    TakenFits(visit, queue[0].depth < maxDepth, room, budget, spent, children);
    VisitHappens(bus, Cut(RootEntries(roots), maxNodes), maxNodes, maxDepth, w, listed, queue, budget,
                 visit, room, spent, children);
    VisitStep(listed, queue, children, maxDepth);
    GenuineVisit(bus, roots, listed, queue, w.Attempts(), children);
    if complete {
      assert ReportsAll(visit, kids(queue[0].ref));
      CompleteStep(kids, RootEntries(roots), FullListing(kids, roots, maxDepth), maxNodes, maxDepth, w.Attempts(), listed,
                   queue, budget, visit, room, spent, children);
      assert Visited(w, queue[0], spent, children).Attempts() == w.Attempts() + 1;
    }
  }

  /** Children taken are answers, at most as many as there is room and above the greatest depth. */
  lemma TakenFits(visit: Visit, above: bool, room: nat, budget: nat, spent: nat, children: seq<ObjectRef>)
    requires TakesChildren(visit, above, room, budget, spent, children)
    ensures |children| <= spent <= room && spent <= budget && (children != [] ==> above) && AllAnswered(visit, children)
  {
    if children != [] {
      var positions :| AreSuccesses(visit.children, spent, positions, children);
      SuccessesAreAnswers(visit.children, spent, positions, children);
      forall i | 0 <= i < |children| ensures HasAnswer(visit, children[i]) {
        assert IsSuccess(visit.children, spent, positions, children, i);
        assert IsAnswer(visit, children[i], positions[i]);
      }
    }
  }

  lemma CompleteStep(kids: ObjectRef -> seq<ObjectRef>, start: seq<Entry>, full: seq<Entry>, maxNodes: nat,
                     maxDepth: nat, attempted: nat, listed: seq<Entry>, queue: seq<Entry>, budget: nat,
                     visit: Visit, room: nat, spent: nat, children: seq<ObjectRef>)
    requires queue != [] && spent <= budget && room + attempted + |queue| == maxNodes
    requires visit.Opened? && ReportsAll(visit, kids(queue[0].ref))
    requires IsComplete(kids, start, full, maxNodes, maxDepth, listed, queue, attempted, budget)
    requires TakesChildren(visit, queue[0].depth < maxDepth, room, budget, spent, children)
    ensures IsComplete(kids, start, full, maxNodes, maxDepth, listed + [queue[0]],
                       queue[1..] + ChildEntries(children, queue[0].depth + 1, |listed|), attempted + 1, budget - spent)
  {
    TakenOnReliable(kids, queue[0], |listed|, maxDepth, visit, room, budget, spent, children);
    TrackVisit(kids, start, full, maxNodes, maxDepth, listed, queue);
    assert room == maxNodes - |listed| - |queue|;
  }

  lemma TakenOnReliable(kids: ObjectRef -> seq<ObjectRef>, e: Entry, index: nat, maxDepth: nat, visit: Visit,
                        room: nat, budget: nat, spent: nat, children: seq<ObjectRef>)
    requires visit.Opened? && ReportsAll(visit, kids(e.ref)) && room <= budget
    requires TakesChildren(visit, e.depth < maxDepth, room, budget, spent, children)
    ensures ChildEntries(children, e.depth + 1, index) == Cut(ChildrenOf(kids, e, index, maxDepth), room)
    ensures spent == |children|
  {
    if e.depth < maxDepth {
      var positions :| AreSuccesses(visit.children, spent, positions, children);
      SuccessesAreAnswers(visit.children, spent, positions, children);
    }
    CompleteVisit(kids, e, index, maxDepth, visit, room, budget, children);
  }

  /** Read and queue the children of the entry just taken from the queue. */
  method VisitChildren(traversal: BoundedTraversal, visit: Visit, entry: Entry, index: nat, budget: nat, maxDepth: nat)
    returns (left: nat, ghost room: nat, ghost children: seq<ObjectRef>)
    requires traversal.Valid() && visit.Opened?
    modifies traversal`queue
    ensures traversal.Valid() && left <= budget
    ensures traversal.queue == old(traversal.queue) + ChildEntries(children, entry.depth + 1, index)
    ensures room + traversal.attempted + |old(traversal.queue)| == traversal.maxItems
    ensures TakesChildren(visit, entry.depth < maxDepth, room, budget, budget - left, children)
  {
    var remaining := traversal.RemainingCapacity();
    room := remaining;
    var childRefs := [];
    left := budget;
    if entry.depth < maxDepth {
      childRefs, left := ChildrenUpTo(visit, remaining, budget);
    }
    traversal.Enqueue(ChildEntries(childRefs, entry.depth + 1, index));
    children := childRefs;
  }

  /** The nodes are the listed entries, numbered from zero. */
  predicate AreNodes(nodes: seq<Node>, listed: seq<Entry>)
  {
    |nodes| == |listed| && forall i | 0 <= i < |nodes| :: nodes[i] == Node(i, listed[i])
  }

  /** List the entry just taken from the queue and queue its children. */
  method ListNext(bus: Bus, traversal: BoundedTraversal, maxDepth: nat, visit: Visit, entry: Entry, nodes: seq<Node>, budget: nat,
                  ghost roots: seq<ObjectRef>, ghost kids: ObjectRef -> seq<ObjectRef>, ghost complete: bool,
                  ghost walk: Walk, ghost listed: seq<Entry>, ghost queue: seq<Entry>)
    returns (more: seq<Node>, left: nat, ghost visited: Walk)
    requires traversal.Valid() && queue != [] && queue[0] == entry && traversal.queue == queue[1..]
    requires walk.Attempts() + 1 == traversal.attempted && |nodes| == |listed| && visit.Opened?
    requires IsOngoing(bus, roots, kids, complete, traversal.maxItems, maxDepth, walk, listed, queue, budget)
    requires visit == bus(walk.Attempts(), queue[0].ref)
    modifies traversal`queue
    ensures traversal.Valid() && visited.Attempts() == traversal.attempted && left <= budget
    ensures more == nodes + [Node(|nodes|, entry)]
    ensures IsOngoing(bus, roots, kids, complete, traversal.maxItems, maxDepth, visited, listed + [entry], traversal.queue, left)
  {
    ghost var (room, found) := (0, []);
    left, room, found := VisitChildren(traversal, visit, entry, |nodes|, budget, maxDepth);
    ghost var spent := budget - left;
    visited := Visited(walk, entry, spent, found);
    assert room + walk.Attempts() + |queue| == traversal.maxItems;
    OngoingVisit(bus, roots, kids, complete, traversal.maxItems, maxDepth, walk, listed, queue, budget, visit, room, spent, found,
                 visited, traversal.queue, left);
    more := nodes + [Node(|nodes|, entry)];
  }

  /** Work through the queue: visit each entry once, list those that open and queue their children. */
  method WalkQueue(bus: Bus, traversal: BoundedTraversal, maxDepth: nat, ghost roots: seq<ObjectRef>,
                   ghost kids: ObjectRef -> seq<ObjectRef>, ghost complete: bool)
    returns (nodes: seq<Node>, readCount: nat, ghost listed: seq<Entry>, ghost walk: Walk)
    requires traversal.Valid() && traversal.attempted == 0
    requires IsOngoing(bus, roots, kids, complete, traversal.maxItems, maxDepth, Begun, [], traversal.queue, traversal.maxItems)
    modifies traversal
    ensures traversal.queue == [] && readCount <= traversal.maxItems && AreNodes(nodes, listed)
    ensures IsOngoing(bus, roots, kids, complete, traversal.maxItems, maxDepth, walk, listed, [], traversal.maxItems - readCount)
  {
    nodes, listed, walk := [], [], Begun;
    var budget: nat := traversal.maxItems;
    while true
      invariant traversal.Valid() && budget <= traversal.maxItems && walk.Attempts() == traversal.attempted
      invariant AreNodes(nodes, listed)
      invariant IsOngoing(bus, roots, kids, complete, traversal.maxItems, maxDepth, walk, listed, traversal.queue, budget)
      decreases traversal.maxItems - traversal.attempted
    {
      ghost var queue := traversal.queue;
      var item := traversal.Pop();
      if item.None? {
        break;
      }
      var visit := bus(traversal.attempted - 1, item.value.ref);
      if visit.Unopened? {
        OngoingSkip(bus, roots, kids, complete, traversal.maxItems, maxDepth, walk, listed, queue, budget);
        walk := Visited(walk, item.value, 0, []);
        continue;
      }
      nodes, budget, walk :=
        ListNext(bus, traversal, maxDepth, visit, item.value, nodes, budget, roots, kids, complete, walk, listed, queue);
      listed := listed + [item.value];
    }
    readCount := traversal.maxItems - budget;
  }

  /** A walk of a queue that starts with the roots begins as the full listing does. */
  lemma OngoingStart(bus: Bus, roots: seq<ObjectRef>, kids: ObjectRef -> seq<ObjectRef>, maxNodes: nat, maxDepth: nat)
    ensures IsOngoing(bus, roots, kids, Reliable(bus, kids), maxNodes, maxDepth, Begun, [],
                      Cut(RootEntries(roots), maxNodes), maxNodes)
  {
    var queue := Cut(RootEntries(roots), maxNodes);
    assert [] + queue == queue;
    RootsAreWalk(roots, maxNodes, maxDepth);
    GenuineRoots(bus, roots, maxNodes);
    FullListingClosed(kids, roots, maxDepth);
    TrackStart(kids, RootEntries(roots), FullListing(kids, roots, maxDepth), maxNodes, maxDepth);
  }

  /** For every bus the result is a snapshot within its bounds whose objects are roots or answers of
      their parents, and it lists what opened on a walk that visits everything queued; for a reliable
      one it is the full breadth-first listing down to `maxDepth`, up to the first `maxNodes` nodes,
      so neither queue capacity nor read budget cuts it short. */
  method SnapshotTree(bus: Bus, roots: seq<ObjectRef>, maxNodes: nat, maxDepth: nat,
                      ghost kids: ObjectRef -> seq<ObjectRef>)
    returns (nodes: seq<Node>, readCount: nat, ghost walk: Walk)
    ensures IsSnapshot(nodes, maxNodes, maxDepth)
    ensures IsGenuine(bus, roots, Listed(nodes))
    ensures readCount <= maxNodes
    ensures var start := Cut(RootEntries(roots), maxNodes);
            Happens(bus, start, maxNodes, maxDepth, walk) && IsOver(bus, start, walk)
    ensures Listed(nodes) == walk.OpenedEntries(bus) && readCount == walk.Reads()
    ensures Reliable(bus, kids) ==> Listed(nodes) == Cut(FullListing(kids, roots, maxDepth), maxNodes)
  {
    var traversal := new BoundedTraversal(maxNodes);
    traversal.Enqueue(RootEntries(roots));
    OngoingStart(bus, roots, kids, maxNodes, maxDepth);
    assert traversal.queue == Cut(RootEntries(roots), maxNodes);
    ghost var listed;
    nodes, readCount, listed, walk := WalkQueue(bus, traversal, maxDepth, roots, kids, Reliable(bus, kids));
    assert Listed(nodes) == listed == listed + [];
    FewOpened(bus, walk);
    if Reliable(bus, kids) {
      TrackEnd(kids, roots, maxNodes, maxDepth, listed);
    }
  }

  lemma {:induction false} FewOpened(bus: Bus, w: Walk)
    ensures |w.OpenedEntries(bus)| <= w.Attempts()
  {
    if w.Visited? {
      FewOpened(bus, w.before);
    }
  }

  // ----- the account leaves no choice -----

  /** The walk as it was after its first `n` visits. */
  function BackTo(w: Walk, n: nat): (r: Walk)
    requires n <= w.Attempts()
    ensures r.Attempts() == n
  {
    if n == w.Attempts() then w else BackTo(w.before, n)
  }

  lemma {:induction false} HappenedBefore(bus: Bus, start: seq<Entry>, maxNodes: nat, maxDepth: nat, w: Walk, n: nat)
    requires Happens(bus, start, maxNodes, maxDepth, w) && n <= w.Attempts()
    ensures Happens(bus, start, maxNodes, maxDepth, BackTo(w, n))
    ensures n < w.Attempts() ==> !IsOver(bus, start, BackTo(w, n))
  {
    if n < w.Attempts() {
      HappenedBefore(bus, start, maxNodes, maxDepth, w.before, n);
    }
  }

  lemma {:induction false} WalksAgree(bus: Bus, start: seq<Entry>, maxNodes: nat, maxDepth: nat, v: Walk, w: Walk)
    requires Happens(bus, start, maxNodes, maxDepth, v) && Happens(bus, start, maxNodes, maxDepth, w)
    requires v.Attempts() == w.Attempts()
    ensures v == w
  {
    if v.Visited? {
      WalksAgree(bus, start, maxNodes, maxDepth, v.before, w.before);
      var (visit, above) := (bus(v.before.Attempts(), v.entry.ref), v.entry.depth < maxDepth);
      if visit.Opened? && above && visit.childCount.Some? {
        var p :| AreSuccesses(visit.children, v.spent, p, v.children);
        var q :| AreSuccesses(visit.children, v.spent, q, w.children);
        SuccessesAreAnswers(visit.children, v.spent, p, v.children);
        SuccessesAreAnswers(visit.children, v.spent, q, w.children);
      }
    }
  }

  /** Whatever the bus answers, there is only one walk that visits everything queued. */
  lemma WalkIsDetermined(bus: Bus, start: seq<Entry>, maxNodes: nat, maxDepth: nat, v: Walk, w: Walk)
    requires Happens(bus, start, maxNodes, maxDepth, v) && IsOver(bus, start, v)
    requires Happens(bus, start, maxNodes, maxDepth, w) && IsOver(bus, start, w)
    ensures v == w
  {
    var n := if v.Attempts() < w.Attempts() then v.Attempts() else w.Attempts();
    HappenedBefore(bus, start, maxNodes, maxDepth, v, n);
    HappenedBefore(bus, start, maxNodes, maxDepth, w, n);
    WalksAgree(bus, start, maxNodes, maxDepth, BackTo(v, n), BackTo(w, n));
  }
}
