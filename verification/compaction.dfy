/**
 Compaction of an accessibility tree held as a node array with parent indices: nodes that say
 nothing are dropped, the others are renumbered and hung below their nearest kept ancestor.
 */
module Compaction {
  import opened Prelude
  import Snapshot
  import Text

  datatype Bounds = Bounds(x: int, y: int, width: int, height: int)

  /** What the bus says about a node, apart from its place in the tree. */
  datatype Content = Content(
    role: string,
    name: Option<string>,
    description: Option<string>,
    text: Option<string>,
    actionCount: nat,
    supportsEditableText: bool,
    hasValue: bool,
    bounds: Option<Bounds>)

  datatype Node = Node(index: nat, parentIndex: Option<nat>, depth: nat, childCount: int, content: Content)

  // ----- which nodes are kept -----

  predicate HasNonEmptyText(value: Option<string>) {
    value.Some? && Text.Trim(value.value) != []
  }

  predicate ShouldKeep(node: Node) {
    var c := node.content;
    || node.depth <= 1
    || c.actionCount > 0 || c.supportsEditableText || c.hasValue
    || HasNonEmptyText(c.name) || HasNonEmptyText(c.description) || HasNonEmptyText(c.text)
    || (c.role in ["page tab", "menu item", "menu", "list item", "tree item"] && c.bounds.Some?)
  }

  /** Absent or nothing but whitespace. */
  predicate IsSilent(value: Option<string>) {
    value.Some? ==> Text.IsBlank(value.value)
  }

  /** A node is dropped exactly when it lies below the second level, can do nothing, says nothing, and is
      not an item of a list, a menu or a tab bar that has a place on the screen. */
  lemma DroppedExactlyWhenSilent(node: Node)
    ensures var c := node.content;
            !ShouldKeep(node) <==>
              && node.depth > 1 && c.actionCount == 0 && !c.supportsEditableText && !c.hasValue
              && IsSilent(c.name) && IsSilent(c.description) && IsSilent(c.text)
              && (c.bounds.None? || c.role !in ["page tab", "menu item", "menu", "list item", "tree item"])
  {
    SilentExactly(node.content.name);
    SilentExactly(node.content.description);
    SilentExactly(node.content.text);
  }

  lemma SilentExactly(value: Option<string>)
    ensures IsSilent(value) <==> !HasNonEmptyText(value)
  {
    if value.Some? {
      Text.TrimIsEmpty(value.value);
    }
  }

  // ----- the forest -----

  /** Every parent that is an index of the array precedes its child. */
  predicate ParentsPrecede(nodes: seq<Node>) {
    forall i | 0 <= i < |nodes| :: ParentPrecedes(nodes, i)
  }

  predicate ParentPrecedes(nodes: seq<Node>, i: nat)
    requires i < |nodes|
  {
    var p := nodes[i].parentIndex;
    p.Some? && p.value < |nodes| ==> p.value < i
  }

  predicate HasParent(nodes: seq<Node>, i: nat)
    requires i < |nodes|
  {
    nodes[i].parentIndex.Some? && nodes[i].parentIndex.value < |nodes|
  }

  /** Node `a` lies above node `i`. */
  predicate IsAncestor(nodes: seq<Node>, a: nat, i: nat)
    requires ParentsPrecede(nodes) && i < |nodes|
    decreases i
  {
    HasParent(nodes, i) &&
    (assert ParentPrecedes(nodes, i);
     var p := nodes[i].parentIndex.value;
     a == p || IsAncestor(nodes, a, p))
  }

  lemma {:induction false} AncestorPrecedes(nodes: seq<Node>, a: nat, i: nat)
    requires ParentsPrecede(nodes) && i < |nodes| && IsAncestor(nodes, a, i)
    ensures a < i
    decreases i
  {
    assert ParentPrecedes(nodes, i);
    var p := nodes[i].parentIndex.value;
    if a != p {
      AncestorPrecedes(nodes, a, p);
    }
  }

  lemma {:induction false} AncestorTransitive(nodes: seq<Node>, a: nat, b: nat, i: nat)
    requires ParentsPrecede(nodes) && i < |nodes| && b < |nodes|
    requires IsAncestor(nodes, a, b) && IsAncestor(nodes, b, i)
    ensures IsAncestor(nodes, a, i)
    decreases i
  {
    assert ParentPrecedes(nodes, i);
    var p := nodes[i].parentIndex.value;
    if b != p {
      AncestorTransitive(nodes, a, b, p);
    }
  }

  // ----- what the pass should produce -----

  /** The indices of the kept nodes among the first `n`, in order. */
  function KeptIndices(nodes: seq<Node>, n: nat): (r: seq<nat>)
    requires n <= |nodes|
    ensures |r| <= n
  {
    if n == 0 then []
    else if ShouldKeep(nodes[n - 1]) then KeptIndices(nodes, n - 1) + [n - 1]
    else KeptIndices(nodes, n - 1)
  }

  /** The new index of a kept node. */
  function Rank(nodes: seq<Node>, i: nat): nat
    requires i < |nodes|
  {
    |KeptIndices(nodes, i)|
  }

  /** How far a climb from `parent` can still go. */
  function ClimbLeft(nodes: seq<Node>, parent: Option<nat>): nat {
    if parent.Some? && parent.value < |nodes| then parent.value + 1 else 0
  }

  /** From `parent` upwards, the first kept node. */
  function NearestKept(nodes: seq<Node>, parent: Option<nat>): (r: Option<nat>)
    requires ParentsPrecede(nodes)
    ensures r.Some? ==> r.value < |nodes| && parent.Some? && r.value <= parent.value
    decreases ClimbLeft(nodes, parent)
  {
    if parent.None? || parent.value >= |nodes| then None
    else if ShouldKeep(nodes[parent.value]) then parent
    else
      assert ParentPrecedes(nodes, parent.value);
      NearestKept(nodes, nodes[parent.value].parentIndex)
  }

  function NewParent(nodes: seq<Node>, i: nat): Option<nat>
    requires ParentsPrecede(nodes) && i < |nodes|
  {
    var p := NearestKept(nodes, nodes[i].parentIndex);
    if p.None? then None else Some(Rank(nodes, p.value))
  }

  /** The nodes among the first `n` that name `k` as their parent. */
  function NamedBy(nodes: seq<Node>, n: nat, k: nat): set<nat>
    requires n <= |nodes|
  {
    set i: nat | i < n && nodes[i].parentIndex == Some(k)
  }

  /** Entry `k` is the `k`-th kept node, hung below its nearest kept ancestor, with its children counted. */
  predicate IsCompacted(before: seq<Node>, after: seq<Node>, k: nat)
    requires ParentsPrecede(before) && k < |after| && k < |KeptIndices(before, |before|)|
  {
    var i := KeptIndices(before, |before|)[k];
    && i < |before|
    && after[k] == Node(k, NewParent(before, i), before[i].depth, |NamedBy(after, |after|, k)|, before[i].content)
  }

  predicate IsCompaction(before: seq<Node>, after: seq<Node>)
    requires ParentsPrecede(before)
  {
    && |after| == |KeptIndices(before, |before|)|
    && forall k | 0 <= k < |after| :: IsCompacted(before, after, k)
  }

  // ----- kept indices -----

  /** What is listed at `k` is a kept node of rank `k`. */
  lemma {:induction false} KeptAt(nodes: seq<Node>, n: nat, k: nat)
    requires n <= |nodes| && k < |KeptIndices(nodes, n)|
    ensures var i := KeptIndices(nodes, n)[k];
            i < n && ShouldKeep(nodes[i]) && Rank(nodes, i) == k
  {
    if k < |KeptIndices(nodes, n - 1)| {
      KeptAt(nodes, n - 1, k);
    }
  }

  /** A kept node is listed at its rank. */
  lemma {:induction false} KeptIsListed(nodes: seq<Node>, n: nat, i: nat)
    requires i < n <= |nodes| && ShouldKeep(nodes[i])
    ensures Rank(nodes, i) < |KeptIndices(nodes, n)| && KeptIndices(nodes, n)[Rank(nodes, i)] == i
  {
    if i < n - 1 {
      KeptIsListed(nodes, n - 1, i);
    }
  }

  lemma {:induction false} KeptAscend(nodes: seq<Node>, n: nat, j: nat, k: nat)
    requires n <= |nodes| && j < k < |KeptIndices(nodes, n)|
    ensures KeptIndices(nodes, n)[j] < KeptIndices(nodes, n)[k]
  {
    if k < |KeptIndices(nodes, n - 1)| {
      KeptAscend(nodes, n - 1, j, k);
    } else {
      KeptAt(nodes, n - 1, j);
    }
  }

  /** Exactly the kept nodes are listed, in order and each at its rank. */
  lemma KeptIndicesListKept(nodes: seq<Node>, n: nat)
    requires n <= |nodes|
    ensures var r := KeptIndices(nodes, n);
            && (forall k | 0 <= k < |r| :: r[k] < n && ShouldKeep(nodes[r[k]]) && Rank(nodes, r[k]) == k)
            && (forall i | 0 <= i < n && ShouldKeep(nodes[i]) :: Rank(nodes, i) < |r| && r[Rank(nodes, i)] == i)
            && (forall j, k | 0 <= j < k < |r| :: r[j] < r[k])
  {
    var r := KeptIndices(nodes, n);
    forall k | 0 <= k < |r| ensures r[k] < n && ShouldKeep(nodes[r[k]]) && Rank(nodes, r[k]) == k {
      KeptAt(nodes, n, k);
    }
    forall i | 0 <= i < n && ShouldKeep(nodes[i]) ensures Rank(nodes, i) < |r| && r[Rank(nodes, i)] == i {
      KeptIsListed(nodes, n, i);
    }
    forall j, k | 0 <= j < k < |r| ensures r[j] < r[k] {
      KeptAscend(nodes, n, j, k);
    }
  }

  /** The nearest kept node above `i` is a kept ancestor, and every other kept ancestor lies above it. */
  lemma {:induction false} NearestKeptIsNearest(nodes: seq<Node>, i: nat, a: nat)
    requires ParentsPrecede(nodes) && i < |nodes| && a < |nodes|
    ensures var r := NearestKept(nodes, nodes[i].parentIndex);
            && (r.Some? ==> r.value < i && ShouldKeep(nodes[r.value]) && IsAncestor(nodes, r.value, i))
            && (ShouldKeep(nodes[a]) && IsAncestor(nodes, a, i) ==>
                  r.Some? && (a == r.value || IsAncestor(nodes, a, r.value)))
    decreases i
  {
    if HasParent(nodes, i) {
      assert ParentPrecedes(nodes, i);
      var p := nodes[i].parentIndex.value;
      if !ShouldKeep(nodes[p]) {
        NearestKeptIsNearest(nodes, p, a);
      }
    }
  }

  // ----- the pass -----

  method NearestKeptParent(keep: seq<bool>, nodes: seq<Node>, i: nat) returns (r: Option<nat>)
    requires ParentsPrecede(nodes) && i < |nodes| == |keep|
    requires forall j | 0 <= j < |nodes| :: keep[j] == ShouldKeep(nodes[j])
    ensures r == NearestKept(nodes, nodes[i].parentIndex)
  {
    var parent: Option<nat> := nodes[i].parentIndex;
    while parent.Some?
      invariant NearestKept(nodes, parent) == NearestKept(nodes, nodes[i].parentIndex)
      decreases ClimbLeft(nodes, parent), parent.Some?
    {
      if parent.value < |keep| && keep[parent.value] {
        return parent;
      }
      if parent.value < |nodes| {
        assert ParentPrecedes(nodes, parent.value);
        parent := nodes[parent.value].parentIndex;
      } else {
        parent := None;
      }
    }
    r := None;
  }

  /** The kept nodes with their new indices but the old index of their new parent. */
  method CollectKept(nodes: seq<Node>) returns (oldToNew: seq<Option<nat>>, compacted: seq<Node>)
    requires ParentsPrecede(nodes)
    ensures |oldToNew| == |nodes|
    ensures forall i | 0 <= i < |nodes| ::
              oldToNew[i] == if ShouldKeep(nodes[i]) then Some(Rank(nodes, i)) else None
    ensures |compacted| == |KeptIndices(nodes, |nodes|)|
    ensures forall k | 0 <= k < |compacted| :: IsCollected(nodes, compacted, k)
  {
    var keep := seq(|nodes|, i requires 0 <= i < |nodes| => ShouldKeep(nodes[i]));
    oldToNew := seq(|nodes|, _ => None);
    compacted := [];
    for i := 0 to |nodes|
      invariant |oldToNew| == |nodes|
      invariant |compacted| == |KeptIndices(nodes, i)|
      invariant forall j | 0 <= j < i ::
                  oldToNew[j] == if ShouldKeep(nodes[j]) then Some(Rank(nodes, j)) else None
      invariant forall j | i <= j < |nodes| :: oldToNew[j] == None
      invariant forall k | 0 <= k < |compacted| ::
                  KeptIndices(nodes, i)[k] < i && CollectedFrom(nodes, compacted[k], k, KeptIndices(nodes, i)[k])
    {
      if !keep[i] {
        continue;
      }
      var parent := NearestKeptParent(keep, nodes, i);
      var node := nodes[i].(index := |compacted|, parentIndex := parent);
      oldToNew := oldToNew[i := Some(node.index)];
      compacted := compacted + [node];
    }
  }

  predicate CollectedFrom(nodes: seq<Node>, node: Node, k: nat, i: nat)
    requires ParentsPrecede(nodes) && i < |nodes|
  {
    node == nodes[i].(index := k, parentIndex := NearestKept(nodes, nodes[i].parentIndex))
  }

  predicate IsCollected(nodes: seq<Node>, compacted: seq<Node>, k: nat)
    requires ParentsPrecede(nodes) && k < |compacted| && k < |KeptIndices(nodes, |nodes|)|
  {
    var i := KeptIndices(nodes, |nodes|)[k];
    i < |nodes| && CollectedFrom(nodes, compacted[k], k, i)
  }

  /** How many nodes name each index as their parent. */
  method CountChildren(nodes: seq<Node>) returns (counts: seq<nat>)
    requires forall i | 0 <= i < |nodes| && nodes[i].parentIndex.Some? :: nodes[i].parentIndex.value < |nodes|
    ensures |counts| == |nodes|
    ensures forall k | 0 <= k < |nodes| :: counts[k] == |NamedBy(nodes, |nodes|, k)|
  {
    counts := seq(|nodes|, _ => 0);
    for n := 0 to |nodes|
      invariant |counts| == |nodes|
      invariant forall k | 0 <= k < |nodes| :: counts[k] == |NamedBy(nodes, n, k)|
    {
      forall k | 0 <= k < |nodes|
        ensures |NamedBy(nodes, n + 1, k)| == |NamedBy(nodes, n, k)| + if nodes[n].parentIndex == Some(k) then 1 else 0
      {
        NamedByNext(nodes, n, k);
      }
      var p := nodes[n].parentIndex;
      if p.Some? {
        counts := counts[p.value := counts[p.value] + 1];
      }
    }
  }

  lemma NamedByNext(nodes: seq<Node>, n: nat, k: nat)
    requires n < |nodes|
    ensures |NamedBy(nodes, n + 1, k)| == |NamedBy(nodes, n, k)| + if nodes[n].parentIndex == Some(k) then 1 else 0
  {
    var (before, after) := (NamedBy(nodes, n, k), NamedBy(nodes, n + 1, k));
    assert n !in before;
    if nodes[n].parentIndex == Some(k) {
      assert after == before + {n};
    } else {
      assert after == before;
    }
  }

  /** Two arrays with the same parents name the same nodes. */
  lemma NamedByParents(a: seq<Node>, b: seq<Node>, k: nat)
    requires |a| == |b| && forall i | 0 <= i < |a| :: a[i].parentIndex == b[i].parentIndex
    ensures NamedBy(a, |a|, k) == NamedBy(b, |b|, k)
  {
  }

  /** `linked` is `collected` with each parent replaced by its new index. */
  predicate IsLinked(nodes: seq<Node>, collected: seq<Node>, linked: seq<Node>, k: nat)
    requires ParentsPrecede(nodes) && k < |collected| && k < |linked| && k < |KeptIndices(nodes, |nodes|)|
  {
    var i := KeptIndices(nodes, |nodes|)[k];
    i < |nodes| && linked[k] == collected[k].(parentIndex := NewParent(nodes, i))
  }

  function Renumbered(oldToNew: seq<Option<nat>>, parent: Option<nat>): Option<nat> {
    if parent.Some? && parent.value < |oldToNew| then oldToNew[parent.value] else None
  }

  method LinkParents(oldToNew: seq<Option<nat>>, collected: seq<Node>) returns (linked: seq<Node>)
    ensures |linked| == |collected|
    ensures forall k | 0 <= k < |linked| ::
              linked[k] == collected[k].(parentIndex := Renumbered(oldToNew, collected[k].parentIndex))
  {
    linked := collected;
    for k := 0 to |collected|
      invariant |linked| == |collected|
      invariant forall j | 0 <= j < k ::
                  linked[j] == collected[j].(parentIndex := Renumbered(oldToNew, collected[j].parentIndex))
      invariant forall j | k <= j < |collected| :: linked[j] == collected[j]
    {
      linked := linked[k := linked[k].(parentIndex := Renumbered(oldToNew, linked[k].parentIndex))];
    }
  }

  lemma RenumberedIsNewParent(nodes: seq<Node>, oldToNew: seq<Option<nat>>, collected: seq<Node>, linked: seq<Node>, k: nat)
    requires ParentsPrecede(nodes) && |oldToNew| == |nodes|
    requires forall i | 0 <= i < |nodes| ::
               oldToNew[i] == if ShouldKeep(nodes[i]) then Some(Rank(nodes, i)) else None
    requires |collected| == |linked| == |KeptIndices(nodes, |nodes|)| && k < |linked|
    requires IsCollected(nodes, collected, k)
    requires linked[k] == collected[k].(parentIndex := Renumbered(oldToNew, collected[k].parentIndex))
    ensures IsLinked(nodes, collected, linked, k)
  {
    NearestKeptIsNearest(nodes, KeptIndices(nodes, |nodes|)[k], 0);
  }

  method SetChildCounts(linked: seq<Node>) returns (counted: seq<Node>)
    requires forall i | 0 <= i < |linked| && linked[i].parentIndex.Some? :: linked[i].parentIndex.value < |linked|
    ensures |counted| == |linked|
    ensures forall k | 0 <= k < |counted| :: counted[k] == linked[k].(childCount := |NamedBy(counted, |counted|, k)|)
  {
    var counts := CountChildren(linked);
    counted := linked;
    for k := 0 to |linked|
      invariant |counted| == |linked|
      invariant forall j | 0 <= j < k :: counted[j] == linked[j].(childCount := counts[j])
      invariant forall j | k <= j < |linked| :: counted[j] == linked[j]
    {
      counted := counted[k := counted[k].(childCount := counts[k])];
    }
    forall k | 0 <= k < |counted| ensures NamedBy(counted, |counted|, k) == NamedBy(linked, |linked|, k) {
      NamedByParents(linked, counted, k);
    }
  }

  method CompactAccessibilityTree(nodes: seq<Node>) returns (compacted: seq<Node>)
    requires ParentsPrecede(nodes)
    ensures IsCompaction(nodes, compacted)
  {
    if |nodes| == 0 {
      return nodes;
    }
    var oldToNew, collected := CollectKept(nodes);
    var linked := LinkParents(oldToNew, collected);
    forall k | 0 <= k < |linked| ensures IsLinked(nodes, collected, linked, k) {
      RenumberedIsNewParent(nodes, oldToNew, collected, linked, k);
    }
    NewParentsInRange(nodes, collected, linked);
    compacted := SetChildCounts(linked);
    forall k | 0 <= k < |compacted| ensures IsCompacted(nodes, compacted, k) {
      assert IsCollected(nodes, collected, k) && IsLinked(nodes, collected, linked, k);
    }
  }

  lemma NewParentsInRange(nodes: seq<Node>, collected: seq<Node>, linked: seq<Node>)
    requires ParentsPrecede(nodes) && |collected| == |linked| == |KeptIndices(nodes, |nodes|)|
    requires forall k | 0 <= k < |linked| :: IsLinked(nodes, collected, linked, k)
    ensures forall j | 0 <= j < |linked| && linked[j].parentIndex.Some? :: linked[j].parentIndex.value < |linked|
  {
    KeptIndicesListKept(nodes, |nodes|);
    forall j | 0 <= j < |linked| && linked[j].parentIndex.Some? ensures linked[j].parentIndex.value < |linked| {
      assert IsLinked(nodes, collected, linked, j);
      NearestKeptIsNearest(nodes, KeptIndices(nodes, |nodes|)[j], 0);
    }
  }

  // ----- what compaction preserves -----

  /** The result is a forest of the same form: dense indices, and every parent precedes its child. */
  lemma CompactionIsForest(before: seq<Node>, after: seq<Node>)
    requires ParentsPrecede(before) && IsCompaction(before, after)
    ensures ParentsPrecede(after)
    ensures forall k | 0 <= k < |after| :: after[k].index == k && ShouldKeep(after[k])
    ensures forall k | 0 <= k < |after| && after[k].parentIndex.Some? :: after[k].parentIndex.value < k
  {
    KeptIndicesListKept(before, |before|);
    var kept := KeptIndices(before, |before|);
    forall k | 0 <= k < |after|
      ensures after[k].index == k && ShouldKeep(after[k])
      ensures after[k].parentIndex.Some? ==> after[k].parentIndex.value < k
    {
      assert IsCompacted(before, after, k);
      NearestKeptIsNearest(before, kept[k], 0);
    }
    forall k | 0 <= k < |after| ensures ParentPrecedes(after, k) {
    }
  }

  /** A kept node lies above another after compaction exactly when it did before. */
  lemma {:induction false} CompactionKeepsAncestry(before: seq<Node>, after: seq<Node>, q: nat, k: nat)
    requires ParentsPrecede(before) && IsCompaction(before, after) && ParentsPrecede(after)
    requires q < |after| && k < |after|
    ensures var kept := KeptIndices(before, |before|);
            && kept[q] < |before| && kept[k] < |before|
            && (IsAncestor(after, q, k) <==> IsAncestor(before, kept[q], kept[k]))
    decreases k
  {
    KeptIndicesListKept(before, |before|);
    CompactionIsForest(before, after);
    var kept := KeptIndices(before, |before|);
    assert IsCompacted(before, after, k);
    NearestKeptIsNearest(before, kept[k], kept[q]);
    var nearest := NearestKept(before, before[kept[k]].parentIndex);
    if nearest.Some? {
      var up := Rank(before, nearest.value);
      CompactionKeepsAncestry(before, after, q, up);
      if IsAncestor(before, kept[q], nearest.value) {
        AncestorTransitive(before, kept[q], nearest.value, kept[k]);
      }
    }
  }

  /** When every node is kept, every index is its own rank. */
  lemma {:induction false} AllKept(nodes: seq<Node>, n: nat)
    requires n <= |nodes| && forall i | 0 <= i < |nodes| :: ShouldKeep(nodes[i])
    ensures |KeptIndices(nodes, n)| == n && forall k | 0 <= k < n :: KeptIndices(nodes, n)[k] == k
  {
    if n > 0 {
      AllKept(nodes, n - 1);
    }
  }

  /** Compacting the result of a compaction changes nothing. */
  lemma CompactionIsIdempotent(before: seq<Node>, once: seq<Node>, twice: seq<Node>)
    requires ParentsPrecede(before) && IsCompaction(before, once)
    requires ParentsPrecede(once) && IsCompaction(once, twice)
    ensures twice == once
  {
    CompactionIsForest(before, once);
    AllKept(once, |once|);
    forall k | 0 <= k < |once| ensures twice[k].parentIndex == once[k].parentIndex {
      assert IsCompacted(once, twice, k);
      if once[k].parentIndex.Some? {
        AllKept(once, once[k].parentIndex.value);
      }
    }
    forall k | 0 <= k < |once| ensures twice[k] == once[k] {
      assert IsCompacted(once, twice, k) && IsCompacted(before, once, k);
      NamedByParents(once, twice, k);
    }
  }

  /** The result of a compaction is its own compaction. */
  lemma CompactionIsFixed(before: seq<Node>, after: seq<Node>)
    requires ParentsPrecede(before) && IsCompaction(before, after)
    ensures ParentsPrecede(after) && IsCompaction(after, after)
  {
    CompactionIsForest(before, after);
    AllKept(after, |after|);
    forall k | 0 <= k < |after| ensures IsCompacted(after, after, k) {
      assert IsCompacted(before, after, k);
      if after[k].parentIndex.Some? {
        AllKept(after, after[k].parentIndex.value);
      }
    }
  }

  // ----- compaction of a snapshot -----

  /** The snapshot with what the bus said about each node when it was read, the reported child count
      included; an object listed twice may have changed in between. */
  function Described(nodes: seq<Snapshot.Node>, contents: nat -> Content,
                     counts: nat -> int): seq<Node>
  {
    seq(|nodes|, i requires 0 <= i < |nodes| =>
      var e := nodes[i].entry;
      Node(nodes[i].index, e.parent, e.depth, counts(i), contents(i)))
  }

  /** Every parent of a snapshot precedes its child, so the climb to a kept ancestor ends. */
  lemma SnapshotParentsPrecede(nodes: seq<Snapshot.Node>, contents: nat -> Content,
                               counts: nat -> int, maxNodes: nat, maxDepth: nat)
    requires Snapshot.IsSnapshot(nodes, maxNodes, maxDepth)
    ensures ParentsPrecede(Described(nodes, contents, counts))
  {
    var tree := Described(nodes, contents, counts);
    forall i | 0 <= i < |tree| ensures ParentPrecedes(tree, i) {
      assert Snapshot.Fits(Snapshot.Listed(nodes), |nodes|, maxDepth, i);
    }
  }

  /** Every node of a snapshot below the roots keeps an ancestor when the tree is compacted. */
  lemma {:induction false} SnapshotNodeHasKeptAncestor(nodes: seq<Snapshot.Node>, contents: nat -> Content,
                                                       counts: nat -> int, maxNodes: nat, maxDepth: nat, i: nat)
    requires Snapshot.IsSnapshot(nodes, maxNodes, maxDepth) && i < |nodes|
    requires ParentsPrecede(Described(nodes, contents, counts))
    ensures var tree := Described(nodes, contents, counts);
            NearestKept(tree, tree[i].parentIndex).None? <==> tree[i].depth == 0
    decreases i
  {
    var tree := Described(nodes, contents, counts);
    assert Snapshot.Fits(Snapshot.Listed(nodes), |nodes|, maxDepth, i);
    var parent := tree[i].parentIndex;
    if parent.Some? {
      SnapshotNodeHasKeptAncestor(nodes, contents, counts, maxNodes, maxDepth, parent.value);
    }
  }

  /** Compacting a snapshot orphans no node: those without a parent are exactly the roots. */
  lemma CompactedSnapshotHasNoOrphans(nodes: seq<Snapshot.Node>, contents: nat -> Content,
                                      counts: nat -> int, maxNodes: nat, maxDepth: nat,
                                      compacted: seq<Node>, k: nat)
    requires Snapshot.IsSnapshot(nodes, maxNodes, maxDepth)
    requires ParentsPrecede(Described(nodes, contents, counts))
    requires IsCompaction(Described(nodes, contents, counts), compacted) && k < |compacted|
    ensures compacted[k].parentIndex.None? <==> compacted[k].depth == 0
  {
    var tree := Described(nodes, contents, counts);
    assert IsCompacted(tree, compacted, k);
    SnapshotNodeHasKeptAncestor(nodes, contents, counts, maxNodes, maxDepth, KeptIndices(tree, |tree|)[k]);
  }

  /** Walk and compaction together, for every bus: `nodes` is the snapshot, the tree is its compaction,
      no node is orphaned, and compacting the tree once more changes nothing. On a reliable bus the
      snapshot is the full breadth-first listing up to its first `maxNodes` nodes. */
  method AccessibilityTree(bus: Snapshot.Bus, roots: seq<Snapshot.ObjectRef>, maxNodes: nat, maxDepth: nat,
                           contents: nat -> Content, counts: nat -> int,
                           ghost kids: Snapshot.ObjectRef -> seq<Snapshot.ObjectRef>)
    returns (tree: seq<Node>, rawCount: nat, ghost nodes: seq<Snapshot.Node>)
    ensures Snapshot.IsSnapshot(nodes, maxNodes, maxDepth) && rawCount == |nodes|
    ensures Snapshot.IsGenuine(bus, roots, Snapshot.Listed(nodes))
    ensures Snapshot.Reliable(bus, kids) ==>
              Snapshot.Listed(nodes) == Snapshot.Cut(Snapshot.FullListing(kids, roots, maxDepth), maxNodes)
    ensures ParentsPrecede(Described(nodes, contents, counts)) && IsCompaction(Described(nodes, contents, counts), tree)
    ensures ParentsPrecede(tree) && IsCompaction(tree, tree)
    ensures |tree| <= rawCount
    ensures forall k | 0 <= k < |tree| ::
              && tree[k].index == k && tree[k].depth <= maxDepth && ShouldKeep(tree[k])
              && (tree[k].parentIndex.None? <==> tree[k].depth == 0)
  {
    var listed, _, _ := Snapshot.SnapshotTree(bus, roots, maxNodes, maxDepth, kids);
    nodes := listed;
    rawCount := |listed|;
    SnapshotParentsPrecede(nodes, contents, counts, maxNodes, maxDepth);
    ghost var described := Described(nodes, contents, counts);
    tree := CompactAccessibilityTree(Described(listed, contents, counts));
    CompactionIsForest(described, tree);
    CompactionIsFixed(described, tree);
    forall k | 0 <= k < |tree|
      ensures tree[k].depth <= maxDepth && (tree[k].parentIndex.None? <==> tree[k].depth == 0)
    {
      CompactedSnapshotHasNoOrphans(nodes, contents, counts, maxNodes, maxDepth, tree, k);
      KeptNodeIsShallow(nodes, contents, counts, maxNodes, maxDepth, tree, k);
    }
  }

  lemma KeptNodeIsShallow(nodes: seq<Snapshot.Node>, contents: nat -> Content,
                          counts: nat -> int, maxNodes: nat, maxDepth: nat, compacted: seq<Node>, k: nat)
    requires Snapshot.IsSnapshot(nodes, maxNodes, maxDepth)
    requires ParentsPrecede(Described(nodes, contents, counts))
    requires IsCompaction(Described(nodes, contents, counts), compacted) && k < |compacted|
    ensures compacted[k].depth <= maxDepth
  {
    var described := Described(nodes, contents, counts);
    assert IsCompacted(described, compacted, k);
    assert Snapshot.Fits(Snapshot.Listed(nodes), |nodes|, maxDepth, KeptIndices(described, |described|)[k]);
  }
}
