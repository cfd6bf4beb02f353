/**
 Matching terminal windows to the sessions below a terminal application: the sessions are its
 pseudo-terminals, and windows and sessions are paired in order of creation when they are equally many.
 */
module TerminalSessions {
  import opened Prelude
  import opened ProcessTree
  import Sorting

  datatype Session = Session(tty: Tty, root: Process, active: Option<Process>, processCount: nat)

  datatype Context = Context(session: Session, certain: bool)

  datatype Window = Window(id: nat, looksLikeTerminal: bool, pid: Option<Pid>, terminal: Option<Context>)

  // ----- the sessions below a terminal application -----

  /** The terminal devices that descendants of `terminal` have open. */
  function Ttys(processes: seq<Process>, table: Table, terminal: Pid): set<Tty> {
    set p, t | p in processes && IsMember(p, table, terminal) && t in p.ttys :: t
  }

  function SessionOf(processes: seq<Process>, table: Table, terminal: Pid, tty: Tty): Session
    requires Group(processes, table, terminal, tty) != []
  {
    var group := Group(processes, table, terminal, tty);
    Session(tty, Root(table, terminal, group), ActiveProcess(group), |group|)
  }

  /** A session tells of the descendants of the terminal that have its device open: how many there are, which of
      them comes first, and which leaf among them was started last. */
  lemma SessionTells(processes: seq<Process>, terminal: Pid, tty: Tty, p: Process)
    requires UniquePids(processes) && Group(processes, ByPid(processes), terminal, tty) != []
    ensures var (table, group) := (ByPid(processes), Group(processes, ByPid(processes), terminal, tty));
            var s := SessionOf(processes, table, terminal, tty);
            && s.tty == tty
            && s.processCount == |set q | q in processes && IsMember(q, table, terminal) && tty in q.ttys|
            && IsMember(s.root, table, terminal) && tty in s.root.ttys && s.root in processes
            && s.active.Some? && IsMember(s.active.value, table, terminal) && tty in s.active.value.ttys
            && s.active.value in processes && IsLeaf(group, s.active.value)
            && (p in processes && IsMember(p, table, terminal) && tty in p.ttys ==>
                  && !Precedes(table, terminal, p, s.root)
                  && (IsLeaf(group, p) ==> !StartedBefore(s.active.value, p)))
  {
    var table := ByPid(processes);
    var s := SessionOf(processes, table, terminal, tty);
    GroupCounts(processes, table, terminal, tty);
    ActiveProcessIsLatestLeaf(processes, terminal, tty, p);
    GroupHoldsExactly(processes, table, terminal, tty, s.root);
    GroupHoldsExactly(processes, table, terminal, tty, s.active.value);
    GroupHoldsExactly(processes, table, terminal, tty, p);
  }

  lemma {:induction false} GroupIsNonempty(processes: seq<Process>, table: Table, terminal: Pid, tty: Tty)
    ensures Group(processes, table, terminal, tty) != [] <==> tty in Ttys(processes, table, terminal)
  {
    if processes != [] {
      var n := |processes| - 1;
      GroupIsNonempty(processes[..n], table, terminal, tty);
      TtysNext(processes[..n], processes[n], table, terminal);
      assert processes == processes[..n] + [processes[n]];
    }
  }

  lemma TtysNext(processes: seq<Process>, p: Process, table: Table, terminal: Pid)
    ensures Ttys(processes + [p], table, terminal) ==
            Ttys(processes, table, terminal) + if IsMember(p, table, terminal) then p.ttys else {}
  {
    assert forall q :: q in processes + [p] <==> q in processes || q == p;
  }

  /** `p` is added to the group of each device it has open. */
  function WithMember(grouped: map<Tty, seq<Process>>, p: Process): (r: map<Tty, seq<Process>>)
    ensures r.Keys == grouped.Keys + p.ttys
    ensures forall t | t in r ::
              r[t] == (if t in grouped then grouped[t] else []) + (if t in p.ttys then [p] else [])
  {
    map t | t in grouped.Keys + p.ttys ::
      (if t in grouped then grouped[t] else []) + (if t in p.ttys then [p] else [])
  }

  /** The descendants of `terminal`, by the terminal devices they have open. */
  method GroupByTty(terminal: Pid, processes: seq<Process>, table: Table) returns (grouped: map<Tty, seq<Process>>)
    ensures grouped.Keys == Ttys(processes, table, terminal)
    ensures forall t | t in grouped :: grouped[t] == Group(processes, table, terminal, t) != []
  {
    grouped := map[];
    for n := 0 to |processes|
      invariant grouped.Keys == Ttys(processes[..n], table, terminal)
      invariant forall t | t in grouped :: grouped[t] == Group(processes[..n], table, terminal, t)
    {
      var p := processes[n];
      assert processes[..n + 1] == processes[..n] + [p] && processes[..n + 1][..n] == processes[..n];
      TtysNext(processes[..n], p, table, terminal);
      var descends := IsDescendantOf(table, p.pid, terminal);
      if p.pid == terminal || !descends {
        continue;
      }
      forall t | t !in grouped ensures Group(processes[..n], table, terminal, t) == [] {
        GroupIsNonempty(processes[..n], table, terminal, t);
      }
      grouped := WithMember(grouped, p);
    }
    assert processes[..|processes|] == processes;
    forall t | t in grouped ensures grouped[t] != [] {
      GroupIsNonempty(processes, table, terminal, t);
    }
  }

  predicate IsSession(s: Session, processes: seq<Process>, table: Table, terminal: Pid) {
    && Group(processes, table, terminal, s.tty) != []
    && s == SessionOf(processes, table, terminal, s.tty)
  }

  /** One session for each terminal device, in order of the devices. */
  ghost predicate IsSessionList(sessions: seq<Session>, processes: seq<Process>, table: Table, terminal: Pid) {
    && AreSessions(sessions, processes, table, terminal)
    && Sorting.IsAscending(Devices(sessions))
    && forall t :: t in Devices(sessions) <==> t in Ttys(processes, table, terminal)
  }

  function Devices(sessions: seq<Session>): seq<Tty> {
    seq(|sessions|, i requires 0 <= i < |sessions| => sessions[i].tty)
  }

  method SessionFrom(tty: Tty, terminal: Pid, processes: seq<Process>, table: Table, group: seq<Process>)
    returns (session: Session)
    requires group == Group(processes, table, terminal, tty) != []
    ensures session.tty == tty && IsSession(session, processes, table, terminal)
  {
    session := Session(tty, Root(table, terminal, group), ActiveProcess(group), |group|);
  }

  predicate AreSessions(sessions: seq<Session>, processes: seq<Process>, table: Table, terminal: Pid) {
    forall i | 0 <= i < |sessions| :: IsSession(sessions[i], processes, table, terminal)
  }

  lemma OneMoreSession(sessions: seq<Session>, s: Session, processes: seq<Process>, table: Table, terminal: Pid)
    requires AreSessions(sessions, processes, table, terminal) && IsSession(s, processes, table, terminal)
    ensures AreSessions(sessions + [s], processes, table, terminal)
    ensures Devices(sessions + [s]) == Devices(sessions) + [s.tty]
  {
    forall i | 0 <= i < |sessions + [s]| ensures IsSession((sessions + [s])[i], processes, table, terminal) {
      assert i < |sessions| ==> IsSession(sessions[i], processes, table, terminal);
    }
  }

  method SessionsFrom(ttys: seq<Tty>, terminal: Pid, processes: seq<Process>, table: Table, grouped: map<Tty, seq<Process>>)
    returns (sessions: seq<Session>)
    requires forall i | 0 <= i < |ttys| :: ttys[i] in grouped
    requires forall t | t in grouped :: grouped[t] == Group(processes, table, terminal, t) != []
    ensures Devices(sessions) == ttys && AreSessions(sessions, processes, table, terminal)
  {
    sessions := [];
    for n := 0 to |ttys|
      invariant Devices(sessions) == ttys[..n] && AreSessions(sessions, processes, table, terminal)
    {
      var session := SessionFrom(ttys[n], terminal, processes, table, grouped[ttys[n]]);
      OneMoreSession(sessions, session, processes, table, terminal);
      assert ttys[..n + 1] == ttys[..n] + [ttys[n]];
      sessions := sessions + [session];
    }
  }

  method TerminalSessionsForPid(terminal: Pid, processes: seq<Process>, table: Table) returns (sessions: seq<Session>)
    ensures IsSessionList(sessions, processes, table, terminal)
  {
    var grouped := GroupByTty(terminal, processes, table);
    var ttys := Sorting.Ascending(grouped.Keys);
    assert forall i | 0 <= i < |ttys| :: ttys[i] in ttys;
    sessions := SessionsFrom(ttys, terminal, processes, table, grouped);
  }

  // ----- pairing windows with sessions -----

  predicate BelongsTo(w: Window, pid: Pid) {
    w.looksLikeTerminal && w.pid == Some(pid)
  }

  /** The terminal windows of `pid` among the first `n`, in order. */
  function IndexesOf(windows: seq<Window>, n: nat, pid: Pid): seq<nat>
    requires n <= |windows|
  {
    if n == 0 then []
    else
      var before := IndexesOf(windows, n - 1, pid);
      if BelongsTo(windows[n - 1], pid) then before + [n - 1] else before
  }

  lemma {:induction false} IndexesAreThose(windows: seq<Window>, n: nat, pid: Pid)
    requires n <= |windows|
    ensures var idx := IndexesOf(windows, n, pid);
            && Sorting.IsAscending(idx)
            && forall i :: i in idx <==> 0 <= i < n && BelongsTo(windows[i], pid)
  {
    if n > 0 {
      IndexesAreThose(windows, n - 1, pid);
      var before := IndexesOf(windows, n - 1, pid);
      assert forall k | 0 <= k < |before| :: before[k] in before;
    }
  }

  function Ids(windows: seq<Window>): seq<nat> {
    seq(|windows|, i requires 0 <= i < |windows| => windows[i].id)
  }

  function IdAt(ids: seq<nat>, i: nat): nat {
    if i < |ids| then ids[i] else 0
  }

  function IdKey(ids: seq<nat>): nat -> int {
    (i: nat) => IdAt(ids, i)
  }

  function Itself(i: nat): int { i }

  function StartOf(s: Session): int { s.root.startTicks }

  function DeviceOf(s: Session): int { s.tty }

  /** The terminal windows of `pid` by window id, that is by creation. */
  function WindowOrder(ids: seq<nat>, indexes: seq<nat>): seq<nat> {
    Sorting.SortByKey(indexes, IdKey(ids))
  }

  /** Sessions by the start of their root process. */
  function SessionOrder(sessions: seq<Session>): seq<Session> {
    Sorting.SortByKey(sessions, StartOf)
  }

  function Position(order: seq<nat>, i: nat): (k: nat)
    requires i in order
    ensures k < |order| && order[k] == i
  {
    if order[0] == i then 0 else Position(order[1..], i) + 1
  }

  /** Window `i` after the windows of `pid` have been matched: the `k`-th window gets the `k`-th
      session when there are equally many, and nothing changes otherwise. */
  function Matched(windows: seq<Window>, pid: Pid, sessions: seq<Session>, i: nat): Window
    requires i < |windows|
  {
    var order := WindowOrder(Ids(windows), IndexesOf(windows, |windows|, pid));
    var sorted := SessionOrder(sessions);
    if i !in order || |order| != |sorted| then windows[i]
    else windows[i].(terminal := Some(Context(sorted[Position(order, i)], |order| == 1)))
  }

  /** The two orders: windows by id and then by index, sessions by start and then by device. */
  lemma OrdersAreStable(windows: seq<Window>, pid: Pid, sessions: seq<Session>)
    requires Sorting.IsAscending(Devices(sessions))
    ensures Sorting.IsOrdered(WindowOrder(Ids(windows), IndexesOf(windows, |windows|, pid)), IdKey(Ids(windows)), Itself)
    ensures Sorting.IsOrdered(SessionOrder(sessions), StartOf, DeviceOf)
  {
    IndexesAreThose(windows, |windows|, pid);
    forall i, j | 0 <= i < j < |sessions| ensures DeviceOf(sessions[i]) < DeviceOf(sessions[j]) {
      assert Devices(sessions)[i] < Devices(sessions)[j];
    }
    Sorting.SortIsStable(IndexesOf(windows, |windows|, pid), IdKey(Ids(windows)), Itself);
    Sorting.SortIsStable(sessions, StartOf, DeviceOf);
  }

  function SessionOfWindow(windows: seq<Window>, pid: Pid, sessions: seq<Session>, i: nat): Session
    requires AreEquallyMany(windows, pid, sessions) && i in WindowOrder(Ids(windows), IndexesOf(windows, |windows|, pid))
  {
    SessionOrder(sessions)[Position(WindowOrder(Ids(windows), IndexesOf(windows, |windows|, pid)), i)]
  }

  predicate AreEquallyMany(windows: seq<Window>, pid: Pid, sessions: seq<Session>) {
    |WindowOrder(Ids(windows), IndexesOf(windows, |windows|, pid))| == |SessionOrder(sessions)|
  }

  /** That is: as many terminal windows of `pid` as sessions. Otherwise no window changes. */
  lemma MatchedOnlyWhenEquallyMany(windows: seq<Window>, pid: Pid, sessions: seq<Session>, i: nat)
    requires i < |windows|
    ensures AreEquallyMany(windows, pid, sessions) <==> |IndexesOf(windows, |windows|, pid)| == |sessions|
    ensures !AreEquallyMany(windows, pid, sessions) || !BelongsTo(windows[i], pid) ==>
              Matched(windows, pid, sessions, i) == windows[i]
    ensures AreEquallyMany(windows, pid, sessions) && BelongsTo(windows[i], pid) ==>
              && i in WindowOrder(Ids(windows), IndexesOf(windows, |windows|, pid))
              && Matched(windows, pid, sessions, i).terminal ==
                 Some(Context(SessionOfWindow(windows, pid, sessions, i), |sessions| == 1))
  {
    Sorting.SameLength(WindowOrder(Ids(windows), IndexesOf(windows, |windows|, pid)), IndexesOf(windows, |windows|, pid));
    Sorting.SameLength(SessionOrder(sessions), sessions);
    WindowOrderKeepsElements(windows, pid, i);
  }

  /** The windows in order are the terminal windows of `pid`. */
  lemma WindowOrderKeepsElements(windows: seq<Window>, pid: Pid, i: nat)
    ensures i in WindowOrder(Ids(windows), IndexesOf(windows, |windows|, pid)) <==>
            i < |windows| && BelongsTo(windows[i], pid)
  {
    var indexes := IndexesOf(windows, |windows|, pid);
    IndexesAreThose(windows, |windows|, pid);
    Sorting.SameElements(WindowOrder(Ids(windows), indexes), indexes, i);
  }

  /** Earlier windows get earlier sessions and different windows different devices. */
  lemma MatchingKeepsOrder(windows: seq<Window>, pid: Pid, sessions: seq<Session>, i: nat, j: nat)
    requires AreEquallyMany(windows, pid, sessions) && Sorting.IsAscending(Devices(sessions))
    requires i < |windows| && j < |windows| && BelongsTo(windows[i], pid) && BelongsTo(windows[j], pid)
    requires i in WindowOrder(Ids(windows), IndexesOf(windows, |windows|, pid))
    requires j in WindowOrder(Ids(windows), IndexesOf(windows, |windows|, pid))
    ensures var (a, b) := (SessionOfWindow(windows, pid, sessions, i), SessionOfWindow(windows, pid, sessions, j));
            && (Sorting.Before(i, j, IdKey(Ids(windows)), Itself) <==> Sorting.Before(a, b, StartOf, DeviceOf))
            && (a.tty == b.tty <==> i == j)
  {
    var order := WindowOrder(Ids(windows), IndexesOf(windows, |windows|, pid));
    var sorted := SessionOrder(sessions);
    OrdersAreStable(windows, pid, sessions);
    var (k, l) := (Position(order, i), Position(order, j));
    assert k < l ==> Sorting.Before(order[k], order[l], IdKey(Ids(windows)), Itself);
    assert l < k ==> Sorting.Before(order[l], order[k], IdKey(Ids(windows)), Itself);
    assert k < l ==> Sorting.Before(sorted[k], sorted[l], StartOf, DeviceOf);
    assert l < k ==> Sorting.Before(sorted[l], sorted[k], StartOf, DeviceOf);
    if k != l {
      DevicesDiffer(sessions, sorted, k, l);
    }
  }

  /** Sorted sessions have distinct devices. */
  lemma DevicesDiffer(sessions: seq<Session>, sorted: seq<Session>, k: nat, l: nat)
    requires Sorting.IsAscending(Devices(sessions)) && multiset(sorted) == multiset(sessions)
    requires k < |sorted| && l < |sorted| && k != l
    ensures sorted[k].tty != sorted[l].tty
  {
    if sorted[k].tty == sorted[l].tty {
      OneSessionPerDevice(sessions, sorted[k], sorted[l]);
      var s := sorted[k];
      var (low, high) := if k < l then (k, l) else (l, k);
      assert sorted == sorted[..low] + [s] + sorted[low + 1..high] + [s] + sorted[high + 1..];
      assert multiset(sorted)[s] >= 2;
      OccursOnce(sessions, s);
      assert false;
    }
  }

  lemma OneSessionPerDevice(sessions: seq<Session>, a: Session, b: Session)
    requires Sorting.IsAscending(Devices(sessions)) && a in multiset(sessions) && b in multiset(sessions)
    requires a.tty == b.tty
    ensures a == b
  {
    assert a in sessions && b in sessions;
    var i :| 0 <= i < |sessions| && sessions[i] == a;
    var j :| 0 <= j < |sessions| && sessions[j] == b;
    assert Devices(sessions)[i] == Devices(sessions)[j];
  }

  lemma {:induction false} OccursOnce(sessions: seq<Session>, s: Session)
    requires Sorting.IsAscending(Devices(sessions))
    ensures multiset(sessions)[s] <= 1
  {
    if sessions != [] {
      var n := |sessions| - 1;
      var rest := sessions[..n];
      assert sessions == rest + [sessions[n]];
      assert Devices(rest) == Devices(sessions)[..n];
      OccursOnce(rest, s);
      forall i | 0 <= i < n ensures rest[i] != sessions[n] {
        assert Devices(sessions)[i] < Devices(sessions)[n];
      }
      assert sessions[n] !in multiset(rest) by {
        assert sessions[n] !in rest;
      }
    }
  }

  /** Every session is shown by a window. */
  lemma EverySessionIsShown(windows: seq<Window>, pid: Pid, sessions: seq<Session>, s: Session) returns (i: nat)
    requires AreEquallyMany(windows, pid, sessions) && s in sessions
    ensures i in WindowOrder(Ids(windows), IndexesOf(windows, |windows|, pid))
    ensures i < |windows| && BelongsTo(windows[i], pid) && SessionOfWindow(windows, pid, sessions, i) == s
  {
    var order := WindowOrder(Ids(windows), IndexesOf(windows, |windows|, pid));
    Sorting.SameElements(SessionOrder(sessions), sessions, s);
    var k :| 0 <= k < |order| && SessionOrder(sessions)[k] == s;
    i := order[k];
    WindowOrderKeepsElements(windows, pid, i);
    IndexesAreThose(windows, |windows|, pid);
    PositionIsUnique(windows, pid, k);
  }

  lemma PositionIsUnique(windows: seq<Window>, pid: Pid, k: nat)
    requires k < |WindowOrder(Ids(windows), IndexesOf(windows, |windows|, pid))|
    ensures var order := WindowOrder(Ids(windows), IndexesOf(windows, |windows|, pid));
            Position(order, order[k]) == k
  {
    var order := WindowOrder(Ids(windows), IndexesOf(windows, |windows|, pid));
    OrdersAreStable(windows, pid, []);
    var l := Position(order, order[k]);
    assert l < k ==> Sorting.Before(order[l], order[k], IdKey(Ids(windows)), Itself);
    assert k < l ==> Sorting.Before(order[k], order[l], IdKey(Ids(windows)), Itself);
  }

  // ----- writing the matches into the windows -----

  /** Write the `k`-th session into the `k`-th window of `order`. */
  method PairUp(windows: array<Window>, order: seq<nat>, sorted: seq<Session>)
    requires |order| == |sorted|
    requires forall k | 0 <= k < |order| :: order[k] < windows.Length
    requires forall j, k | 0 <= j < k < |order| :: order[j] != order[k]
    modifies windows
    ensures forall k | 0 <= k < |order| ::
              windows[order[k]] == old(windows[order[k]]).(terminal := Some(Context(sorted[k], |order| == 1)))
    ensures forall i | 0 <= i < windows.Length && i !in order :: windows[i] == old(windows[i])
  {
    for k := 0 to |order|
      invariant forall j | 0 <= j < k ::
                  windows[order[j]] == old(windows[order[j]]).(terminal := Some(Context(sorted[j], |order| == 1)))
      invariant forall j | k <= j < |order| :: windows[order[j]] == old(windows[order[j]])
      invariant forall i | 0 <= i < windows.Length && i !in order :: windows[i] == old(windows[i])
    {
      var i := order[k];
      windows[i] := windows[i].(terminal := Some(Context(sorted[k], |order| == 1)));
    }
  }

  lemma OrderIsDistinct(windows: seq<Window>, pid: Pid)
    ensures var order := WindowOrder(Ids(windows), IndexesOf(windows, |windows|, pid));
            && (forall k | 0 <= k < |order| :: order[k] < |windows|)
            && (forall j, k | 0 <= j < k < |order| :: order[j] != order[k])
  {
    var order := WindowOrder(Ids(windows), IndexesOf(windows, |windows|, pid));
    OrdersAreStable(windows, pid, []);
    forall j, k | 0 <= j < k < |order| ensures order[j] != order[k] {
      assert Sorting.Before<nat>(order[j], order[k], IdKey(Ids(windows)), Itself);
    }
    forall k | 0 <= k < |order| ensures order[k] < |windows| {
      WindowOrderKeepsElements(windows, pid, order[k]);
    }
  }

  /** Pair the windows at `indexes` with `sessions`, if there are equally many. */
  method MatchWindows(windows: array<Window>, pid: Pid, indexes: seq<nat>, sessions: seq<Session>)
    requires indexes == IndexesOf(windows[..], windows.Length, pid)
    modifies windows
    ensures forall i | 0 <= i < windows.Length :: windows[i] == Matched(old(windows[..]), pid, sessions, i)
  {
    ghost var before := windows[..];
    var order := WindowOrder(Ids(windows[..]), indexes);
    var sorted := SessionOrder(sessions);
    if |order| != |sorted| {
      return;
    }
    OrderIsDistinct(before, pid);
    PairUp(windows, order, sorted);
    forall i | 0 <= i < windows.Length ensures windows[i] == Matched(before, pid, sessions, i) {
      if i in order {
        assert order[Position(order, i)] == i;
      }
    }
  }

  /** The indexes of the terminal windows, by the application that owns them. */
  method IndexesByPid(windows: seq<Window>) returns (byPid: map<Pid, seq<nat>>)
    ensures forall pid | pid in byPid :: byPid[pid] == IndexesOf(windows, |windows|, pid) != []
    ensures forall pid | pid !in byPid :: IndexesOf(windows, |windows|, pid) == []
  {
    byPid := map[];
    for n := 0 to |windows|
      invariant forall pid | pid in byPid :: byPid[pid] == IndexesOf(windows, n, pid) != []
      invariant forall pid | pid !in byPid :: IndexesOf(windows, n, pid) == []
    {
      var w := windows[n];
      if w.looksLikeTerminal && w.pid.Some? {
        var pid := w.pid.value;
        var known := if pid in byPid then byPid[pid] else [];
        byPid := byPid[pid := known + [n]];
      }
    }
  }

  predicate HaveSameIdentity(a: Window, b: Window) {
    a.(terminal := None) == b.(terminal := None)
  }

  /** Which windows are matched does not depend on what was matched before. */
  lemma {:induction false} SameIdentitySameIndexes(a: seq<Window>, b: seq<Window>, n: nat, pid: Pid)
    requires |a| == |b| && n <= |a| && forall i | 0 <= i < |a| :: HaveSameIdentity(a[i], b[i])
    ensures Ids(a) == Ids(b) && IndexesOf(a, n, pid) == IndexesOf(b, n, pid)
  {
    forall i | 0 <= i < |a| ensures Ids(a)[i] == Ids(b)[i] {
      assert HaveSameIdentity(a[i], b[i]);
    }
    if n > 0 {
      assert HaveSameIdentity(a[n - 1], b[n - 1]);
      SameIdentitySameIndexes(a, b, n - 1, pid);
    }
  }

  /** Window `i` after all applications in `sessions` have been matched. */
  function Enriched(windows: seq<Window>, sessions: map<Pid, seq<Session>>, i: nat): Window
    requires i < |windows|
  {
    var w := windows[i];
    if w.looksLikeTerminal && w.pid.Some? && w.pid.value in sessions
    then Matched(windows, w.pid.value, sessions[w.pid.value], i)
    else w
  }

  /** Matching one more application changes its own windows as if nothing else had been matched. */
  lemma MatchedAfterOthers(before: seq<Window>, now: seq<Window>, sessions: map<Pid, seq<Session>>,
                           pid: Pid, list: seq<Session>, i: nat)
    requires |now| == |before| && i < |before| && pid !in sessions
    requires forall j | 0 <= j < |before| :: now[j] == Enriched(before, sessions, j)
    ensures Matched(now, pid, list, i) == Enriched(before, sessions[pid := list], i)
  {
    forall j | 0 <= j < |before| ensures HaveSameIdentity(now[j], before[j]) {
      assert now[j] == Enriched(before, sessions, j);
    }
    SameIdentitySameIndexes(now, before, |before|, pid);
    WindowOrderKeepsElements(before, pid, i);
    assert now[i] == Enriched(before, sessions, i);
  }

  /** Every terminal window ends as the matching of its own application says; all others stay as they were. */
  method EnrichTerminalWindows(windows: array<Window>, processes: seq<Process>) returns (ghost sessions: map<Pid, seq<Session>>)
    modifies windows
    ensures forall pid | pid in sessions :: IsSessionList(sessions[pid], processes, ByPid(processes), pid)
    ensures forall i | 0 <= i < windows.Length && old(windows[i]).looksLikeTerminal && old(windows[i]).pid.Some? ::
              old(windows[i]).pid.value in sessions
    ensures forall i | 0 <= i < windows.Length :: windows[i] == Enriched(old(windows[..]), sessions, i)
  {
    sessions := map[];
    ghost var before := windows[..];
    var byPid := IndexesByPid(windows[..]);
    var pids := Sorting.Ascending(byPid.Keys);
    var table := ByPid(processes);
    for n := 0 to |pids|
      invariant forall pid | pid in sessions :: IsSessionList(sessions[pid], processes, table, pid)
      invariant forall pid :: pid in sessions <==> pid in pids[..n]
      invariant forall i | 0 <= i < windows.Length :: windows[i] == Enriched(before, sessions, i)
    {
      var pid := pids[n];
      assert pid in pids;
      var list := TerminalSessionsForPid(pid, processes, table);
      ghost var now := windows[..];
      forall j | 0 <= j < |now| ensures HaveSameIdentity(now[j], before[j]) {
      }
      SameIdentitySameIndexes(now, before, |before|, pid);
      MatchWindows(windows, pid, byPid[pid], list);
      forall i | 0 <= i < windows.Length ensures windows[i] == Enriched(before, sessions[pid := list], i) {
        MatchedAfterOthers(before, now, sessions, pid, list, i);
      }
      sessions := sessions[pid := list];
    }
    forall i | 0 <= i < |before| && before[i].looksLikeTerminal && before[i].pid.Some?
      ensures before[i].pid.value in sessions
    {
      IndexesAreThose(before, |before|, before[i].pid.value);
      assert pids[..|pids|] == pids;
    }
  }
}
