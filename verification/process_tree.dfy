/**
 Walks up the parent links of a process table, and what they say about the processes that share a
 terminal device below a terminal application.
 */
module ProcessTree {
  import opened Prelude

  type Pid = nat

  /** Terminal devices, numbered in the order of their paths. */
  type Tty = nat

  datatype Process = Process(pid: Pid, ppid: Pid, startTicks: nat, commandName: string, ttys: set<Tty>)

  type Table = map<Pid, Process>

  const MAX_CLIMB: nat := 128

  /** The table by process id; a later entry replaces an earlier one of the same id. */
  function ByPid(processes: seq<Process>): Table {
    if processes == [] then map[]
    else
      var last := processes[|processes| - 1];
      ByPid(processes[..|processes| - 1])[last.pid := last]
  }

  predicate UniquePids(processes: seq<Process>) {
    forall i, j | 0 <= i < j < |processes| :: processes[i].pid != processes[j].pid
  }

  lemma {:induction false} ByPidFinds(processes: seq<Process>, i: nat)
    requires UniquePids(processes) && i < |processes|
    ensures processes[i].pid in ByPid(processes) && ByPid(processes)[processes[i].pid] == processes[i]
  {
    if i < |processes| - 1 {
      ByPidFinds(processes[..|processes| - 1], i);
    }
  }

  /** How many links lie between a process and the child of `ancestor` above it, in at most `steps` looks. */
  function Depth(table: Table, pid: Pid, ancestor: Pid, steps: nat): (r: Option<nat>)
    ensures r.Some? ==> r.value < steps
    decreases steps
  {
    if steps == 0 || pid !in table then None
    else if table[pid].ppid == ancestor then Some(0)
    else if table[pid].ppid == 0 || table[pid].ppid == pid then None
    else
      var above := Depth(table, table[pid].ppid, ancestor, steps - 1);
      if above.None? then None else Some(above.value + 1)
  }

  method IsDescendantOf(table: Table, pid: Pid, ancestor: Pid) returns (r: bool)
    ensures r <==> Depth(table, pid, ancestor, MAX_CLIMB).Some?
  {
    var current := pid;
    for n := 0 to MAX_CLIMB
      invariant Depth(table, current, ancestor, MAX_CLIMB - n).Some? <==> Depth(table, pid, ancestor, MAX_CLIMB).Some?
    {
      if current !in table {
        return false;
      }
      if table[current].ppid == ancestor {
        return true;
      }
      if table[current].ppid == 0 || table[current].ppid == current {
        return false;
      }
      current := table[current].ppid;
    }
    r := false;
  }

  /** The loop that counts agrees with the loop that decides: its result is finite exactly for descendants. */
  method ProcessDepth(table: Table, pid: Pid, ancestor: Pid) returns (r: Option<nat>)
    ensures r == Depth(table, pid, ancestor, MAX_CLIMB)
  {
    var current := pid;
    for depth := 0 to MAX_CLIMB
      invariant var above := Depth(table, current, ancestor, MAX_CLIMB - depth);
                Depth(table, pid, ancestor, MAX_CLIMB) == if above.None? then None else Some(above.value + depth)
    {
      if current !in table {
        return None;
      }
      if table[current].ppid == ancestor {
        return Some(depth);
      }
      if table[current].ppid == 0 || table[current].ppid == current {
        return None;
      }
      current := table[current].ppid;
    }
    r := None;
  }

  /** A climb that ends within some looks ends the same way with more of them. */
  lemma {:induction false} DepthNeedsNoMore(table: Table, pid: Pid, ancestor: Pid, steps: nat)
    ensures Depth(table, pid, ancestor, steps).Some? ==>
              Depth(table, pid, ancestor, steps + 1) == Depth(table, pid, ancestor, steps)
    decreases steps
  {
    if steps > 0 && pid in table {
      DepthNeedsNoMore(table, table[pid].ppid, ancestor, steps - 1);
    }
  }

  /** A chain of processes up to a child of `ancestor`: each names the next as its parent, and none
      before the last names the ancestor, process 0 or itself. */
  predicate IsChain(table: Table, chain: seq<Pid>, ancestor: Pid)
    decreases |chain|
  {
    && chain != [] && chain[0] in table
    && var parent := table[chain[0]].ppid;
       if |chain| == 1 then parent == ancestor
       else parent == chain[1] && parent !in {ancestor, 0, chain[0]} && IsChain(table, chain[1..], ancestor)
  }

  /** Such a chain within the number of looks gives the depth, whatever else the table holds. */
  lemma {:induction false} DepthIsChainLength(table: Table, chain: seq<Pid>, ancestor: Pid, steps: nat)
    requires IsChain(table, chain, ancestor) && |chain| <= steps
    ensures Depth(table, chain[0], ancestor, steps) == Some(|chain| - 1)
    decreases steps
  {
    if |chain| > 1 {
      DepthIsChainLength(table, chain[1..], ancestor, steps - 1);
    }
  }

  /** A chain that needs more looks than there are is cut off: its process counts as no descendant. */
  lemma {:induction false} LongChainIsCutOff(table: Table, chain: seq<Pid>, ancestor: Pid, steps: nat)
    requires IsChain(table, chain, ancestor) && |chain| > steps
    ensures Depth(table, chain[0], ancestor, steps) == None
    decreases steps
  {
    if steps > 0 && |chain| > 1 {
      LongChainIsCutOff(table, chain[1..], ancestor, steps - 1);
    }
  }

  /** And every finite depth comes from such a chain. */
  lemma {:induction false} DepthHasChain(table: Table, pid: Pid, ancestor: Pid, steps: nat) returns (chain: seq<Pid>)
    requires Depth(table, pid, ancestor, steps).Some?
    ensures IsChain(table, chain, ancestor) && chain[0] == pid
    ensures |chain| == Depth(table, pid, ancestor, steps).value + 1
    decreases steps
  {
    chain := [pid];
    if table[pid].ppid != ancestor {
      var above := DepthHasChain(table, table[pid].ppid, ancestor, steps - 1);
      chain := [pid] + above;
      assert chain[1..] == above;
    }
  }

  // ----- the processes on one terminal device -----

  /** The descendants of `terminal` that have `tty` open, in table order. */
  function Group(processes: seq<Process>, table: Table, terminal: Pid, tty: Tty): seq<Process> {
    if processes == [] then []
    else
      var last := processes[|processes| - 1];
      var before := Group(processes[..|processes| - 1], table, terminal, tty);
      if IsMember(last, table, terminal) && tty in last.ttys then before + [last] else before
  }

  predicate IsMember(p: Process, table: Table, terminal: Pid) {
    p.pid != terminal && Depth(table, p.pid, terminal, MAX_CLIMB).Some?
  }

  lemma {:induction false} GroupMembers(processes: seq<Process>, table: Table, terminal: Pid, tty: Tty, i: nat)
    requires i < |Group(processes, table, terminal, tty)|
    ensures var p := Group(processes, table, terminal, tty)[i];
            IsMember(p, table, terminal) && tty in p.ttys && p in processes
  {
    var before := Group(processes[..|processes| - 1], table, terminal, tty);
    if i < |before| {
      GroupMembers(processes[..|processes| - 1], table, terminal, tty, i);
    }
  }

  /** The group holds exactly the descendants of `terminal` that have `tty` open. */
  lemma {:induction false} GroupHoldsExactly(processes: seq<Process>, table: Table, terminal: Pid, tty: Tty, p: Process)
    ensures p in Group(processes, table, terminal, tty) <==> p in processes && IsMember(p, table, terminal) && tty in p.ttys
  {
    if processes != [] {
      var n := |processes| - 1;
      GroupHoldsExactly(processes[..n], table, terminal, tty, p);
      assert processes == processes[..n] + [processes[n]];
    }
  }

  /** And each of them once. */
  lemma {:induction false} GroupCounts(processes: seq<Process>, table: Table, terminal: Pid, tty: Tty)
    requires UniquePids(processes)
    ensures var group := Group(processes, table, terminal, tty);
            |group| == |set p | p in processes && IsMember(p, table, terminal) && tty in p.ttys|
  {
    if processes != [] {
      var (n, last) := (|processes| - 1, processes[|processes| - 1]);
      GroupCounts(processes[..n], table, terminal, tty);
      var before := set p | p in processes[..n] && IsMember(p, table, terminal) && tty in p.ttys;
      var all := set p | p in processes && IsMember(p, table, terminal) && tty in p.ttys;
      assert processes == processes[..n] + [last] && last !in processes[..n];
      assert all == before + if IsMember(last, table, terminal) && tty in last.ttys then {last} else {};
    }
  }

  /** No process of the group is a child of `p`. */
  predicate IsLeaf(group: seq<Process>, p: Process) {
    forall i | 0 <= i < |group| :: group[i].ppid != p.pid
  }

  function DepthOf(table: Table, p: Process, terminal: Pid): nat {
    var d := Depth(table, p.pid, terminal, MAX_CLIMB);
    if d.Some? then d.value else 0
  }

  lemma {:induction false} DeepestExists(group: seq<Process>, table: Table, terminal: Pid) returns (k: nat)
    requires group != []
    ensures k < |group|
    ensures forall i | 0 <= i < |group| :: DepthOf(table, group[i], terminal) <= DepthOf(table, group[k], terminal)
  {
    if |group| == 1 {
      k := 0;
    } else {
      var n := |group| - 1;
      k := DeepestExists(group[..n], table, terminal);
      assert forall i | 0 <= i < n :: group[i] == group[..n][i];
      if DepthOf(table, group[n], terminal) > DepthOf(table, group[k], terminal) {
        k := n;
      }
    }
  }

  /** A process whose parent belongs to the group lies deeper than that parent. */
  lemma ChildIsDeeper(processes: seq<Process>, terminal: Pid, parent: Process, child: Process)
    requires UniquePids(processes) && parent in processes && child in processes && child.ppid == parent.pid
    requires IsMember(parent, ByPid(processes), terminal) && IsMember(child, ByPid(processes), terminal)
    ensures DepthOf(ByPid(processes), parent, terminal) < DepthOf(ByPid(processes), child, terminal)
  {
    var table := ByPid(processes);
    var i :| 0 <= i < |processes| && processes[i] == child;
    ByPidFinds(processes, i);
    DepthNeedsNoMore(table, parent.pid, terminal, MAX_CLIMB - 1);
  }

  /** Every nonempty group has a leaf: its deepest process. */
  lemma GroupHasLeaf(processes: seq<Process>, terminal: Pid, tty: Tty) returns (k: nat)
    requires UniquePids(processes) && Group(processes, ByPid(processes), terminal, tty) != []
    ensures var group := Group(processes, ByPid(processes), terminal, tty);
            k < |group| && IsLeaf(group, group[k])
  {
    var table := ByPid(processes);
    var group := Group(processes, table, terminal, tty);
    k := DeepestExists(group, table, terminal);
    GroupMembers(processes, table, terminal, tty, k);
    forall i | 0 <= i < |group| ensures group[i].ppid != group[k].pid {
      GroupMembers(processes, table, terminal, tty, i);
      if group[i].ppid == group[k].pid {
        ChildIsDeeper(processes, terminal, group[k], group[i]);
        assert false;
      }
    }
  }

  // ----- the root and the active process of a group -----

  /** Started before, or at the same tick with a smaller id. */
  predicate StartedBefore(a: Process, b: Process) {
    a.startTicks < b.startTicks || (a.startTicks == b.startTicks && a.pid < b.pid)
  }

  predicate Precedes(table: Table, terminal: Pid, a: Process, b: Process) {
    var (da, db) := (DepthOf(table, a, terminal), DepthOf(table, b, terminal));
    da < db || (da == db && StartedBefore(a, b))
  }

  /** The first process of the group by depth, start and id. */
  function Root(table: Table, terminal: Pid, group: seq<Process>): (r: Process)
    requires group != []
    ensures r in group && forall i | 0 <= i < |group| :: !Precedes(table, terminal, group[i], r)
  {
    var n := |group| - 1;
    if n == 0 then group[0]
    else
      var first := Root(table, terminal, group[..n]);
      assert forall i | 0 <= i < n :: group[i] == group[..n][i];
      if Precedes(table, terminal, group[n], first) then group[n] else first
  }

  /** The process started last. */
  function Latest(group: seq<Process>): (r: Process)
    requires group != []
    ensures r in group && forall i | 0 <= i < |group| :: !StartedBefore(r, group[i])
  {
    var n := |group| - 1;
    if n == 0 then group[0]
    else
      var latest := Latest(group[..n]);
      assert forall i | 0 <= i < n :: group[i] == group[..n][i];
      if StartedBefore(group[n], latest) then latest else group[n]
  }

  /** The leaves of `group` among `some`. */
  function Leaves(group: seq<Process>, some: seq<Process>): seq<Process> {
    if some == [] then []
    else
      var last := some[|some| - 1];
      var before := Leaves(group, some[..|some| - 1]);
      if IsLeaf(group, last) then before + [last] else before
  }

  lemma {:induction false} LeavesAreLeaves(group: seq<Process>, some: seq<Process>, p: Process)
    ensures p in Leaves(group, some) <==> p in some && IsLeaf(group, p)
  {
    if some != [] {
      LeavesAreLeaves(group, some[..|some| - 1], p);
      assert some == some[..|some| - 1] + [some[|some| - 1]];
    }
  }

  function ActiveProcess(group: seq<Process>): Option<Process> {
    var leaves := Leaves(group, group);
    if leaves != [] then Some(Latest(leaves))
    else if group != [] then Some(Latest(group))
    else None
  }

  /** The active process of a nonempty group is always its latest leaf; the fallback is never needed. */
  lemma ActiveProcessIsLatestLeaf(processes: seq<Process>, terminal: Pid, tty: Tty, other: Process)
    requires UniquePids(processes) && Group(processes, ByPid(processes), terminal, tty) != []
    ensures var group := Group(processes, ByPid(processes), terminal, tty);
            var active := ActiveProcess(group);
            && Leaves(group, group) != []
            && active.Some? && active.value in group && IsLeaf(group, active.value)
            && (other in group && IsLeaf(group, other) ==> !StartedBefore(active.value, other))
  {
    var group := Group(processes, ByPid(processes), terminal, tty);
    var k := GroupHasLeaf(processes, terminal, tty);
    LeavesAreLeaves(group, group, group[k]);
    LeavesAreLeaves(group, group, ActiveProcess(group).value);
    LeavesAreLeaves(group, group, other);
  }
}
