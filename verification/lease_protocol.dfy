/**
 Every interleaving of `ensure`, `restart`, lease acquisition, lease drop, the reaper and
 `shutdown`, as a machine whose atomic steps are the critical sections of `RuntimeManager`.

 The `lifecycle` mutex is the `lifecycle` field: one `ensure` or one `shutdown` holds it from
 beginning to end, while acquisitions, lease drops, the reaper and process stops interleave.
 */
module LeaseProtocol {
  import opened Prelude
  import opened ProcessTable

  /** Who removed an instance from the table and is now stopping it. */
  datatype Stopper = ByEnsure | ByAcquire | ByReaper | ByShutdown

  /** Where a successfully started instance is. */
  datatype Place = OnTable(clientId: ClientId) | InHand | Stopping(stopper: Stopper) | Stopped

  /** The process table, the undropped leases, and the place of every instance ever started. */
  datatype Table = Table(processes: Processes, held: multiset<ProcessLease>, place: map<nat, Place>)

  datatype EnsurePhase =
    | CheckWorker
    | LookingUp
    | Pruning
    | MakingRoom
    | Allocating
    | Starting(id: nat)
    | Inserting(process: ManagedProcess)
    | Finishing

  datatype ShutdownPhase = RaisingFlag | TakingWorker | JoiningWorker | TakingProcesses | StoppingAll

  datatype Lifecycle =
    | Free
    | Ensuring(request: EnsureRequest, phase: EnsurePhase)
    | ShuttingDown(stage: ShutdownPhase)

  /** The reaper thread; `at` is the time it read before it locked the table. */
  datatype Reaper = Gone | Waiting | Reaping(at: nat) | StoppingExpired

  datatype EnsureOutcome = Ready | Failed | RefusedByShutdown | TooManyActive

  datatype State = State(
    timing: CleanupTiming,
    now: nat,
    exited: set<nat>,
    nextInstance: nat,
    table: Table,
    lifecycle: Lifecycle,
    reaper: Reaper,
    hasHandle: bool,
    flag: bool,
    shutdownReturned: bool,
    outcome: Option<EnsureOutcome>)

  datatype Step =
    | Tick(elapsed: nat)
    | LeaderExits(id: nat)
    | StopDone(id: nat)
    | Connect(clientId: ClientId, failed: set<nat>)
    | DropLease(lease: ProcessLease)
    | ReaperWakes
    | Reap(failed: set<nat>)
    | ReaperWaits
    | BeginEnsure(request: EnsureRequest)
    | ProxyFails
    | EnsureWorker(spawns: bool)
    | LookUpExisting(failed: set<nat>, socketReady: bool)
    | Prune(failed: set<nat>)
    | MakeRoom(victim: ClientId)
    | Allocate
    | StartServer(ready: bool)
    | Insert
    | FinishEnsure
    | BeginShutdown
    | RaiseFlag
    | TakeWorker
    | JoinWorker
    | TakeProcesses
    | FinishShutdown

  function Init(timing: CleanupTiming): State
  {
    State(timing, 0, {}, 1, Table(map[], multiset{}, map[]), Free, Gone, false, false, false, None)
  }

  // ----- steps on the table -----

  function Ids(ps: Processes, clients: set<ClientId>): set<nat>
  {
    set c | c in clients && c in ps :: ps[c].instanceId
  }

  /** Take `clients` off the table and begin stopping their processes. */
  function Remove(t: Table, clients: set<ClientId>, who: Stopper): Table
  {
    var stops: map<nat, Place> := map i | i in Ids(t.processes, clients) :: Stopping(who);
    t.(processes := t.processes - clients, place := t.place + stops)
  }

  function ConnectTo(t: Table, clientId: ClientId, probe: Probe, now: nat): Table
  {
    var (ps, r) := Acquire(t.processes, clientId, probe, now);
    match r
    case LeaderGone(_) => Remove(t, {clientId}, ByAcquire)
    case Leased(lease) => t.(processes := ps, held := t.held + multiset{lease})
    case _ => t
  }

  function Drop(t: Table, lease: ProcessLease, grace: nat, now: nat): Table
  {
    t.(processes := Release(t.processes, lease, grace, now).0, held := t.held - multiset{lease})
  }

  function InsertInto(t: Table, clientId: ClientId, p: ManagedProcess): Table
  {
    var place :=
      if clientId in t.processes then t.place[t.processes[clientId].instanceId := Stopping(ByEnsure)]
      else t.place;
    t.(processes := t.processes[clientId := p], place := place[p.instanceId := OnTable(clientId)])
  }

  // ----- steps of the machine -----

  predicate InPhase(s: State, phase: EnsurePhase)
  {
    s.lifecycle.Ensuring? && s.lifecycle.phase == phase
  }

  /** The stops begun by `who` are done. */
  predicate Settled(t: Table, who: Stopper)
  {
    forall i | i in t.place :: t.place[i] != Stopping(who)
  }

  predicate Enabled(s: State, step: Step)
  {
    match step
    case Tick(_) => true
    case LeaderExits(id) => id in s.table.place
    case StopDone(id) => id in s.table.place && s.table.place[id].Stopping?
    case Connect(_, _) => true
    case DropLease(lease) => lease in s.table.held
    case ReaperWakes => s.reaper.Waiting?
    case Reap(_) => s.reaper.Reaping?
    case ReaperWaits => s.reaper.StoppingExpired? && Settled(s.table, ByReaper)
    case BeginEnsure(_) => s.lifecycle.Free?
    case ProxyFails => InPhase(s, CheckWorker)
    case EnsureWorker(_) => InPhase(s, CheckWorker)
    case LookUpExisting(_, _) => InPhase(s, LookingUp)
    case Prune(_) => InPhase(s, Pruning) && Settled(s.table, ByEnsure)
    case MakeRoom(victim) =>
      && InPhase(s, MakingRoom)
      && Settled(s.table, ByEnsure)
      && (MustEvict(s.table.processes) ==> IsEvictable(s.table.processes, victim))
    case Allocate => InPhase(s, Allocating) && Settled(s.table, ByEnsure)
    case StartServer(_) => s.lifecycle.Ensuring? && s.lifecycle.phase.Starting?
    case Insert => s.lifecycle.Ensuring? && s.lifecycle.phase.Inserting?
    case FinishEnsure => InPhase(s, Finishing) && Settled(s.table, ByEnsure)
    case BeginShutdown => s.lifecycle.Free?
    case RaiseFlag => s.lifecycle == ShuttingDown(RaisingFlag)
    case TakeWorker => s.lifecycle == ShuttingDown(TakingWorker)
    case JoinWorker => s.lifecycle == ShuttingDown(JoiningWorker) && s.reaper.Gone?
    case TakeProcesses => s.lifecycle == ShuttingDown(TakingProcesses)
    case FinishShutdown => s.lifecycle == ShuttingDown(StoppingAll) && Settled(s.table, ByShutdown)
  }

  predicate MustEvict(ps: Processes)
  {
    |ps| >= MAX_APP_SERVER_PROCESSES && !NoIdleProcess(ps)
  }

  function EndEnsure(s: State, outcome: EnsureOutcome): State
  {
    s.(lifecycle := Free, outcome := Some(outcome))
  }

  function ToPhase(s: State, phase: EnsurePhase): State
    requires s.lifecycle.Ensuring?
  {
    s.(lifecycle := Ensuring(s.lifecycle.request, phase))
  }

  function AfterEnsureWorker(s: State, spawns: bool): State
    requires s.lifecycle.Ensuring?
  {
    if s.hasHandle && !s.reaper.Gone? then ToPhase(s, LookingUp)
    else if s.flag then EndEnsure(s.(hasHandle := false), RefusedByShutdown)
    else if !spawns then EndEnsure(s.(hasHandle := false), Failed)
    else ToPhase(s.(hasHandle := true, reaper := Waiting), LookingUp)
  }

  function AfterLookUp(s: State, failed: set<nat>, socketReady: bool): State
    requires s.lifecycle.Ensuring?
  {
    var request := s.lifecycle.request;
    var (ps, r) := LookUp(s.table.processes, request, Probe(s.exited, failed), socketReady,
                          s.timing.unconnectedTimeout, s.now);
    match r
    case LookUpError => EndEnsure(s, Failed)
    case Kept => EndEnsure(s.(table := s.table.(processes := ps)), Ready)
    case Absent => ToPhase(s, Pruning)
    case Taken(_) => ToPhase(s.(table := Remove(s.table, {request.clientId}, ByEnsure)), Pruning)
  }

  function AfterMakeRoom(s: State, victim: ClientId): State
    requires s.lifecycle.Ensuring?
  {
    if |s.table.processes| < MAX_APP_SERVER_PROCESSES then AfterAllocate(s)
    else if NoIdleProcess(s.table.processes) then EndEnsure(s, TooManyActive)
    else ToPhase(s.(table := Remove(s.table, {victim}, ByEnsure)), Allocating)
  }

  function AfterAllocate(s: State): State
    requires s.lifecycle.Ensuring?
  {
    ToPhase(s.(nextInstance := s.nextInstance + 1), Starting(s.nextInstance))
  }

  function AfterStart(s: State, ready: bool): State
    requires s.lifecycle.Ensuring? && s.lifecycle.phase.Starting?
  {
    if !ready then EndEnsure(s, Failed)
    else
      var id := s.lifecycle.phase.id;
      var process := ManagedProcess(id, s.lifecycle.request.endpoint, 0,
                                    Some(s.now + s.timing.unconnectedTimeout), s.now);
      ToPhase(s.(table := s.table.(place := s.table.place[id := InHand])), Inserting(process))
  }

  function Apply(s: State, step: Step): State
    requires Enabled(s, step)
  {
    match step
    case Tick(elapsed) => s.(now := s.now + elapsed)
    case LeaderExits(id) => s.(exited := s.exited + {id})
    case StopDone(id) => s.(table := s.table.(place := s.table.place[id := Stopped]))
    case Connect(clientId, failed) =>
      s.(table := ConnectTo(s.table, clientId, Probe(s.exited, failed), s.now))
    case DropLease(lease) => s.(table := Drop(s.table, lease, s.timing.disconnectedGrace, s.now))
    case ReaperWakes => s.(reaper := if s.flag then Gone else Reaping(s.now))
    case Reap(failed) =>
      var doomed := ExpiredClients(s.table.processes, Probe(s.exited, failed), s.reaper.at);
      s.(table := Remove(s.table, doomed, ByReaper), reaper := StoppingExpired)
    case ReaperWaits => s.(reaper := Waiting)
    case BeginEnsure(request) => s.(lifecycle := Ensuring(request, CheckWorker))
    case ProxyFails => EndEnsure(s, Failed)
    case EnsureWorker(spawns) => AfterEnsureWorker(s, spawns)
    case LookUpExisting(failed, socketReady) => AfterLookUp(s, failed, socketReady)
    case Prune(failed) =>
      var doomed := ExitedClients(s.table.processes, Probe(s.exited, failed));
      ToPhase(s.(table := Remove(s.table, doomed, ByEnsure)), MakingRoom)
    case MakeRoom(victim) => AfterMakeRoom(s, victim)
    case Allocate => AfterAllocate(s)
    case StartServer(ready) => AfterStart(s, ready)
    case Insert =>
      ToPhase(s.(table := InsertInto(s.table, s.lifecycle.request.clientId, s.lifecycle.phase.process)),
              Finishing)
    case FinishEnsure => EndEnsure(s, Ready)
    case BeginShutdown => s.(lifecycle := ShuttingDown(RaisingFlag))
    case RaiseFlag => s.(flag := true, lifecycle := ShuttingDown(TakingWorker))
    case TakeWorker =>
      if s.hasHandle then s.(hasHandle := false, lifecycle := ShuttingDown(JoiningWorker))
      else s.(lifecycle := ShuttingDown(TakingProcesses))
    case JoinWorker => s.(lifecycle := ShuttingDown(TakingProcesses))
    case TakeProcesses =>
      s.(table := Remove(s.table, s.table.processes.Keys, ByShutdown), lifecycle := ShuttingDown(StoppingAll))
    case FinishShutdown => s.(lifecycle := Free, shutdownReturned := true)
  }

  // ----- which steps take processes off the table -----

  predicate IsRemoval(s: State, step: Step)
    requires Enabled(s, step)
  {
    match step
    case Connect(c, failed) => Acquire(s.table.processes, c, Probe(s.exited, failed), s.now).1.LeaderGone?
    case Reap(_) => true
    case Prune(_) => true
    case TakeProcesses => true
    case LookUpExisting(failed, socketReady) =>
      LookUp(s.table.processes, s.lifecycle.request, Probe(s.exited, failed), socketReady,
             s.timing.unconnectedTimeout, s.now).1.Taken?
    case MakeRoom(_) => MustEvict(s.table.processes)
    case _ => false
  }

  function Doomed(s: State, step: Step): set<ClientId>
    requires Enabled(s, step)
  {
    match step
    case Connect(c, _) => {c}
    case Reap(failed) => ExpiredClients(s.table.processes, Probe(s.exited, failed), s.reaper.at)
    case Prune(failed) => ExitedClients(s.table.processes, Probe(s.exited, failed))
    case TakeProcesses => s.table.processes.Keys
    case LookUpExisting(_, _) => {s.lifecycle.request.clientId}
    case MakeRoom(victim) => {victim}
    case _ => {}
  }

  function Remover(step: Step): Stopper
  {
    match step
    case Connect(_, _) => ByAcquire
    case Reap(_) => ByReaper
    case TakeProcesses => ByShutdown
    case _ => ByEnsure
  }

  lemma RemovalTable(s: State, step: Step)
    requires Enabled(s, step) && IsRemoval(s, step)
    ensures Apply(s, step).table == Remove(s.table, Doomed(s, step), Remover(step))
  {
  }

  predicate IsEntryStep(step: Step)
  {
    step.Connect? || step.DropLease? || step.LookUpExisting?
  }

  /** `u` differs from `t` at most in the entry of `c`, which keeps its instance. */
  predicate DiffersOnlyAt(u: Table, t: Table, c: ClientId)
  {
    && u.place == t.place
    && u.processes.Keys == t.processes.Keys
    && (c in t.processes ==>
          && u.processes[c].instanceId == t.processes[c].instanceId
          && u.processes[c].endpoint == t.processes[c].endpoint)
    && forall d | d in t.processes && d != c :: u.processes[d] == t.processes[d]
  }

  lemma ConnectTable(s: State, step: Step)
    requires step.Connect? && !IsRemoval(s, step)
    ensures DiffersOnlyAt(Apply(s, step).table, s.table, step.clientId)
  {
  }

  lemma DropTable(s: State, step: Step)
    requires step.DropLease? && Enabled(s, step)
    ensures DiffersOnlyAt(Apply(s, step).table, s.table, step.lease.clientId)
    ensures step.lease.clientId in s.table.processes
            && s.table.processes[step.lease.clientId].instanceId != step.lease.instanceId ==>
              Apply(s, step).table.processes == s.table.processes
  {
  }

  lemma LookUpTable(s: State, step: Step)
    requires step.LookUpExisting? && Enabled(s, step) && !IsRemoval(s, step)
    ensures DiffersOnlyAt(Apply(s, step).table, s.table, s.lifecycle.request.clientId)
    ensures Apply(s, step).table != s.table ==>
              Apply(s, step).lifecycle.Free? && Apply(s, step).outcome == Some(Ready)
  {
  }

  predicate IsPlaceStep(step: Step)
  {
    step.StopDone? || step.StartServer? || step.Insert?
  }

  lemma QuietStepTable(s: State, step: Step)
    requires Enabled(s, step) && !IsRemoval(s, step) && !IsEntryStep(step) && !IsPlaceStep(step)
    ensures Apply(s, step).table == s.table
  {
  }

  // ----- runs -----

  predicate IsRun(s: State, steps: seq<Step>)
    decreases |steps|
  {
    steps == [] || (Enabled(s, steps[0]) && IsRun(Apply(s, steps[0]), steps[1..]))
  }

  function After(s: State, steps: seq<Step>): State
    requires IsRun(s, steps)
    decreases |steps|
  {
    if steps == [] then s else After(Apply(s, steps[0]), steps[1..])
  }

  ghost predicate Reachable(s: State)
  {
    exists timing, steps :: IsRun(Init(timing), steps) && s == After(Init(timing), steps)
  }

  // ----- the invariant -----

  predicate CountsLeases(t: Table)
  {
    forall c | c in t.processes :: t.processes[c].leases == t.held[ProcessLease(c, t.processes[c].instanceId)]
  }

  predicate DeadlineIffIdle(ps: Processes)
  {
    forall c | c in ps :: ps[c].cleanupDeadline.Some? <==> ps[c].leases == 0
  }

  /** An instance is placed on the table exactly when the table has it. */
  predicate PlacesMatch(t: Table)
  {
    && (forall c | c in t.processes ::
          t.processes[c].instanceId in t.place && t.place[t.processes[c].instanceId] == OnTable(c))
    && (forall i | i in t.place && t.place[i].OnTable? ::
          t.place[i].clientId in t.processes && t.processes[t.place[i].clientId].instanceId == i)
  }

  /** Leases exist only for instances that have been on the table. */
  predicate LeasesWerePlaced(t: Table)
  {
    forall l: ProcessLease | l in t.held :: l.instanceId in t.place && t.place[l.instanceId] != InHand
  }

  predicate TableInv(t: Table)
  {
    CountsLeases(t) && DeadlineIffIdle(t.processes) && PlacesMatch(t) && LeasesWerePlaced(t)
  }

  predicate IdsAllocated(s: State)
  {
    forall i | i in s.table.place :: i < s.nextInstance
  }

  /** What the phase of the running `ensure` guarantees about the table. */
  predicate PhaseOk(s: State)
  {
    && (s.lifecycle.Ensuring? ==>
          var c, phase := s.lifecycle.request.clientId, s.lifecycle.phase;
          && (phase.Pruning? || phase.MakingRoom? || phase.Allocating? || phase.Starting? || phase.Inserting? ==>
                c !in s.table.processes)
          && (phase.Allocating? || phase.Starting? || phase.Inserting? ==>
                |s.table.processes| < MAX_APP_SERVER_PROCESSES)
          && (phase.Starting? ==> phase.id < s.nextInstance && phase.id !in s.table.place)
          && (phase.Inserting? ==>
                && phase.process.leases == 0
                && phase.process.cleanupDeadline.Some?
                && phase.process.instanceId in s.table.place
                && s.table.place[phase.process.instanceId] == InHand))
    && (forall i | i in s.table.place && s.table.place[i] == InHand ::
          s.lifecycle.Ensuring? && s.lifecycle.phase.Inserting? && s.lifecycle.phase.process.instanceId == i)
  }

  predicate ShutdownOk(s: State)
  {
    && (s.lifecycle.ShuttingDown? && !s.lifecycle.stage.RaisingFlag? ==> s.flag)
    && (s.lifecycle.ShuttingDown? && !s.lifecycle.stage.RaisingFlag? && !s.lifecycle.stage.TakingWorker? ==>
          !s.hasHandle)
    && (!s.hasHandle && s.lifecycle != ShuttingDown(JoiningWorker) ==> s.reaper.Gone?)
    && (s.lifecycle == ShuttingDown(StoppingAll) ==> s.table.processes == map[])
    && (s.shutdownReturned ==>
          && s.table.processes == map[]
          && s.flag
          && !s.hasHandle
          && s.reaper.Gone?
          && (s.lifecycle.Ensuring? ==> s.lifecycle.phase.CheckWorker?))
  }

  predicate Inv(s: State)
  {
    && TableInv(s.table)
    && |s.table.processes| <= MAX_APP_SERVER_PROCESSES
    && IdsAllocated(s)
    && PhaseOk(s)
    && ShutdownOk(s)
  }

  // ----- the table operations keep its invariant -----

  lemma {:induction false} SubsetSize<T>(a: set<T>, b: set<T>)
    requires a <= b
    ensures |a| <= |b|
  {
    assert b == a + (b - a);
  }

  lemma RemoveShrinks(t: Table, clients: set<ClientId>, who: Stopper)
    ensures |Remove(t, clients, who).processes| <= |t.processes|
    ensures forall c | c in clients && c in t.processes ::
              |Remove(t, clients, who).processes| < |t.processes|
  {
    var ps, rest := t.processes, t.processes - clients;
    assert rest.Keys == ps.Keys - clients;
    assert |rest| == |rest.Keys| && |ps| == |ps.Keys|;
    SubsetSize(rest.Keys, ps.Keys);
    forall c | c in clients && c in ps ensures |rest| < |ps| {
      SubsetSize(rest.Keys, ps.Keys - {c});
    }
  }

  /** What removal does to the places: the removed instances are being stopped, the others stay put. */
  lemma RemovePlaces(t: Table, clients: set<ClientId>, who: Stopper)
    requires PlacesMatch(t)
    ensures var u := Remove(t, clients, who);
            && u.place.Keys == t.place.Keys
            && forall i | i in t.place ::
                 u.place[i] == if t.place[i].OnTable? && t.place[i].clientId in clients then Stopping(who)
                               else t.place[i]
  {
    var u := Remove(t, clients, who);
    forall i | i in Ids(t.processes, clients)
      ensures i in t.place && t.place[i].OnTable? && t.place[i].clientId in clients
    {
      var c :| c in clients && c in t.processes && t.processes[c].instanceId == i;
    }
    forall i | i in t.place && t.place[i].OnTable? && t.place[i].clientId in clients
      ensures i in Ids(t.processes, clients)
    {
      assert t.processes[t.place[i].clientId].instanceId == i;
    }
  }

  /** `u` has no client, no instance and no instance in hand that `t` has not. */
  predicate Narrows(u: Table, t: Table)
  {
    && u.processes.Keys <= t.processes.Keys
    && |u.processes| <= |t.processes|
    && u.place.Keys == t.place.Keys
    && forall i | i in t.place :: u.place[i] == InHand <==> t.place[i] == InHand
  }

  lemma RemoveKeepsInv(t: Table, clients: set<ClientId>, who: Stopper)
    requires TableInv(t)
    ensures TableInv(Remove(t, clients, who)) && Narrows(Remove(t, clients, who), t)
  {
    RemovePlaces(t, clients, who);
    RemoveShrinks(t, clients, who);
  }

  /** The table with the entry of `c` replaced and the leases held on it adjusted to match. */
  function WithEntry(t: Table, c: ClientId, p: ManagedProcess): Table
  {
    t.(processes := t.processes[c := p], held := t.held[ProcessLease(c, p.instanceId) := p.leases])
  }

  lemma UpdateKeepsInv(t: Table, c: ClientId, p: ManagedProcess)
    requires TableInv(t)
    requires c in t.processes && p.instanceId == t.processes[c].instanceId
    requires p.cleanupDeadline.Some? <==> p.leases == 0
    ensures TableInv(WithEntry(t, c, p)) && Narrows(WithEntry(t, c, p), t)
  {
    assert t.processes[c := p].Keys == t.processes.Keys;
    assert |t.processes[c := p]| == |t.processes[c := p].Keys| && |t.processes| == |t.processes.Keys|;
    assert t.place[p.instanceId] == OnTable(c);
  }

  /** A connection that gets a lease raises the count of its process with the leases held. */
  lemma LeasingUpdatesEntry(t: Table, c: ClientId, probe: Probe, now: nat)
    requires CountsLeases(t) && Acquire(t.processes, c, probe, now).1.Leased?
    ensures var p := Acquire(t.processes, c, probe, now).0[c];
            && ConnectTo(t, c, probe, now) == WithEntry(t, c, p)
            && p.instanceId == t.processes[c].instanceId && p.leases > 0 && p.cleanupDeadline.None?
  {
    var (ps, r) := Acquire(t.processes, c, probe, now);
    assert ps[c].leases == t.held[r.lease] + 1;
    assert t.held + multiset{r.lease} == t.held[r.lease := ps[c].leases];
  }

  lemma ConnectKeepsInv(t: Table, c: ClientId, probe: Probe, now: nat)
    requires TableInv(t)
    ensures TableInv(ConnectTo(t, c, probe, now)) && Narrows(ConnectTo(t, c, probe, now), t)
  {
    var (ps, r) := Acquire(t.processes, c, probe, now);
    if r.LeaderGone? {
      RemoveKeepsInv(t, {c}, ByAcquire);
    } else if r.Leased? {
      LeasingUpdatesEntry(t, c, probe, now);
      UpdateKeepsInv(t, c, ps[c]);
    } else {
      assert ConnectTo(t, c, probe, now) == t;
    }
  }

  /** Dropping a lease on the mapped instance lowers the count of its process with the leases held. */
  lemma DroppingUpdatesEntry(t: Table, lease: ProcessLease, grace: nat, now: nat)
    requires TableInv(t) && lease in t.held
    requires lease.clientId in t.processes && t.processes[lease.clientId].instanceId == lease.instanceId
    ensures Release(t.processes, lease, grace, now).1.Released?
    ensures var p := Release(t.processes, lease, grace, now).0[lease.clientId];
            && Drop(t, lease, grace, now) == WithEntry(t, lease.clientId, p)
            && p.instanceId == lease.instanceId && (p.cleanupDeadline.Some? <==> p.leases == 0)
  {
    var (ps, r) := Release(t.processes, lease, grace, now);
    assert t.held - multiset{lease} == t.held[lease := ps[lease.clientId].leases];
  }

  /** Dropping a lease on any other instance leaves the processes alone. */
  lemma DroppingStaleKeepsInv(t: Table, lease: ProcessLease)
    requires TableInv(t)
    requires lease.clientId in t.processes ==> t.processes[lease.clientId].instanceId != lease.instanceId
    ensures TableInv(t.(held := t.held - multiset{lease}))
  {
    var u := t.(held := t.held - multiset{lease});
    assert forall l: ProcessLease | l in u.held :: l in t.held;
    forall c | c in u.processes
      ensures u.processes[c].leases == u.held[ProcessLease(c, u.processes[c].instanceId)]
    {
      assert ProcessLease(c, u.processes[c].instanceId) != lease;
    }
  }

  lemma DropKeepsInv(t: Table, lease: ProcessLease, grace: nat, now: nat)
    requires TableInv(t) && lease in t.held
    ensures TableInv(Drop(t, lease, grace, now)) && Narrows(Drop(t, lease, grace, now), t)
  {
    if lease.clientId in t.processes && t.processes[lease.clientId].instanceId == lease.instanceId {
      DroppingUpdatesEntry(t, lease, grace, now);
      UpdateKeepsInv(t, lease.clientId, Release(t.processes, lease, grace, now).0[lease.clientId]);
    } else {
      DroppingStaleKeepsInv(t, lease);
      assert Drop(t, lease, grace, now) == t.(held := t.held - multiset{lease});
    }
  }

  /** Keeping the existing process changes its deadline and touch time only. */
  lemma KeepingUpdatesEntry(t: Table, c: ClientId, p: ManagedProcess)
    requires CountsLeases(t) && c in t.processes
    requires p.instanceId == t.processes[c].instanceId && p.leases == t.processes[c].leases
    ensures t.(processes := t.processes[c := p]) == WithEntry(t, c, p)
  {
    assert t.held[ProcessLease(c, p.instanceId) := p.leases] == t.held;
  }

  /** No lease mentions an instance still in hand, so the new entry starts with the right count. */
  lemma InsertCounts(t: Table, c: ClientId, p: ManagedProcess)
    requires TableInv(t) && p.leases == 0
    requires p.instanceId in t.place && t.place[p.instanceId] == InHand
    ensures CountsLeases(InsertInto(t, c, p))
  {
    assert ProcessLease(c, p.instanceId) !in t.held;
  }

  lemma InsertPlaces(t: Table, c: ClientId, p: ManagedProcess)
    requires PlacesMatch(t) && c !in t.processes
    requires p.instanceId in t.place && t.place[p.instanceId] == InHand
    ensures PlacesMatch(InsertInto(t, c, p))
    ensures InsertInto(t, c, p).place == t.place[p.instanceId := OnTable(c)]
  {
  }

  lemma InsertGrows(ps: Processes, c: ClientId, p: ManagedProcess)
    requires c !in ps
    ensures |ps[c := p]| == |ps| + 1
  {
    assert ps[c := p].Keys == ps.Keys + {c};
    assert |ps[c := p]| == |ps[c := p].Keys| && |ps| == |ps.Keys|;
  }

  lemma InsertKeepsInv(t: Table, c: ClientId, p: ManagedProcess)
    requires TableInv(t) && c !in t.processes
    requires p.instanceId in t.place && t.place[p.instanceId] == InHand
    requires p.leases == 0 && p.cleanupDeadline.Some?
    ensures TableInv(InsertInto(t, c, p))
    ensures |InsertInto(t, c, p).processes| == |t.processes| + 1
  {
    InsertGrows(t.processes, c, p);
    InsertCounts(t, c, p);
    InsertPlaces(t, c, p);
  }

  // ----- every step keeps the invariant -----

  lemma InitInv(timing: CleanupTiming)
    ensures Inv(Init(timing))
  {
  }

  lemma NarrowingKeepsInv(s: State, t: Table)
    requires Inv(s) && TableInv(t) && Narrows(t, s.table)
    ensures Inv(s.(table := t))
  {
    if s.table.processes == map[] {
      assert t.processes.Keys == {};
    }
  }

  lemma RemoveStepKeepsInv(s: State, clients: set<ClientId>, who: Stopper)
    requires Inv(s)
    ensures Inv(s.(table := Remove(s.table, clients, who)))
  {
    RemoveKeepsInv(s.table, clients, who);
    NarrowingKeepsInv(s, Remove(s.table, clients, who));
  }

  lemma TableStepKeepsInv(s: State, step: Step)
    requires Inv(s) && Enabled(s, step)
    requires step.Connect? || step.DropLease? || step.StopDone?
    ensures Inv(Apply(s, step))
  {
    match step {
      case Connect(c, failed) => ConnectKeepsInv(s.table, c, Probe(s.exited, failed), s.now);
      case DropLease(lease) => DropKeepsInv(s.table, lease, s.timing.disconnectedGrace, s.now);
      case StopDone(_) =>
    }
    NarrowingKeepsInv(s, Apply(s, step).table);
  }

  lemma EndEnsureKeepsInv(s: State, outcome: EnsureOutcome)
    requires Inv(s) && InPhase(s, LookingUp)
    ensures Inv(EndEnsure(s, outcome))
  {
    var t := EndEnsure(s, outcome);
    assert t.table == s.table && t.nextInstance == s.nextInstance;
    assert PhaseOk(t);
  }

  lemma PruningKeepsInv(s: State)
    requires Inv(s) && InPhase(s, LookingUp) && s.lifecycle.request.clientId !in s.table.processes
    ensures Inv(ToPhase(s, Pruning))
  {
    var t := ToPhase(s, Pruning);
    assert t.table == s.table && t.nextInstance == s.nextInstance;
    assert PhaseOk(t);
  }

  lemma LookUpStepKeepsInv(s: State, failed: set<nat>, socketReady: bool)
    requires Inv(s) && InPhase(s, LookingUp)
    ensures Inv(AfterLookUp(s, failed, socketReady))
  {
    var request := s.lifecycle.request;
    var (ps, r) := LookUp(s.table.processes, request, Probe(s.exited, failed), socketReady,
                          s.timing.unconnectedTimeout, s.now);
    match r {
      case LookUpError => EndEnsureKeepsInv(s, Failed);
      case Kept =>
        var p := ps[request.clientId];
        UpdateKeepsInv(s.table, request.clientId, p);
        KeepingUpdatesEntry(s.table, request.clientId, p);
        NarrowingKeepsInv(s, WithEntry(s.table, request.clientId, p));
        EndEnsureKeepsInv(s.(table := WithEntry(s.table, request.clientId, p)), Ready);
      case Absent => PruningKeepsInv(s);
      case Taken(_) =>
        RemoveStepKeepsInv(s, {request.clientId}, ByEnsure);
        PruningKeepsInv(s.(table := Remove(s.table, {request.clientId}, ByEnsure)));
    }
  }

  lemma MakeRoomStepKeepsInv(s: State, victim: ClientId)
    requires Inv(s) && Enabled(s, MakeRoom(victim))
    ensures Inv(AfterMakeRoom(s, victim))
  {
    if MustEvict(s.table.processes) {
      RemoveStepKeepsInv(s, {victim}, ByEnsure);
      RemoveShrinks(s.table, {victim}, ByEnsure);
    }
  }

  lemma AllocateStepKeepsInv(s: State)
    requires Inv(s) && Enabled(s, Allocate)
    ensures Inv(AfterAllocate(s))
  {
  }

  lemma StartStepKeepsInv(s: State, ready: bool)
    requires Inv(s) && Enabled(s, StartServer(ready))
    ensures Inv(AfterStart(s, ready))
  {
    var t := AfterStart(s, ready).table;
    assert TableInv(t);
  }

  lemma InsertStepKeepsInv(s: State)
    requires Inv(s) && Enabled(s, Insert)
    ensures Inv(Apply(s, Insert))
  {
    var c, p := s.lifecycle.request.clientId, s.lifecycle.phase.process;
    InsertKeepsInv(s.table, c, p);
  }

  lemma ReaperStepKeepsInv(s: State, step: Step)
    requires Inv(s) && Enabled(s, step)
    requires step.Tick? || step.LeaderExits? || step.ReaperWakes? || step.ReaperWaits?
    ensures Inv(Apply(s, step))
  {
  }

  lemma LifecycleStepKeepsInv(s: State, step: Step)
    requires Inv(s) && Enabled(s, step)
    requires step.BeginEnsure? || step.ProxyFails? || step.EnsureWorker? || step.FinishEnsure?
    ensures Inv(Apply(s, step))
  {
    var t := Apply(s, step);
    assert t.table == s.table && t.nextInstance == s.nextInstance;
    assert PhaseOk(t);
  }

  lemma ShutdownStepKeepsInv(s: State, step: Step)
    requires Inv(s) && Enabled(s, step)
    requires step.BeginShutdown? || step.RaiseFlag? || step.TakeWorker? || step.JoinWorker? || step.FinishShutdown?
    ensures Inv(Apply(s, step))
  {
    var t := Apply(s, step);
    assert t.table == s.table && t.nextInstance == s.nextInstance;
    assert PhaseOk(t);
  }

  lemma SweepStepKeepsInv(s: State, step: Step)
    requires Inv(s) && Enabled(s, step) && (step.Reap? || step.Prune? || step.TakeProcesses?)
    ensures Inv(Apply(s, step))
  {
    match step
    case Reap(failed) =>
      RemoveStepKeepsInv(s, ExpiredClients(s.table.processes, Probe(s.exited, failed), s.reaper.at), ByReaper);
    case Prune(failed) =>
      RemoveStepKeepsInv(s, ExitedClients(s.table.processes, Probe(s.exited, failed)), ByEnsure);
    case TakeProcesses =>
      RemoveStepKeepsInv(s, s.table.processes.Keys, ByShutdown);
      assert Apply(s, step).table.processes.Keys == {};
  }

  lemma StepKeepsInv(s: State, step: Step)
    requires Inv(s) && Enabled(s, step)
    ensures Inv(Apply(s, step))
  {
    match step {
      case Connect(_, _) => TableStepKeepsInv(s, step);
      case DropLease(_) => TableStepKeepsInv(s, step);
      case StopDone(_) => TableStepKeepsInv(s, step);
      case Reap(_) => SweepStepKeepsInv(s, step);
      case Prune(_) => SweepStepKeepsInv(s, step);
      case TakeProcesses => SweepStepKeepsInv(s, step);
      case LookUpExisting(failed, socketReady) => LookUpStepKeepsInv(s, failed, socketReady);
      case MakeRoom(victim) => MakeRoomStepKeepsInv(s, victim);
      case Allocate => AllocateStepKeepsInv(s);
      case StartServer(ready) => StartStepKeepsInv(s, ready);
      case Insert => InsertStepKeepsInv(s);
      case Tick(_) => ReaperStepKeepsInv(s, step);
      case LeaderExits(_) => ReaperStepKeepsInv(s, step);
      case ReaperWakes => ReaperStepKeepsInv(s, step);
      case ReaperWaits => ReaperStepKeepsInv(s, step);
      case BeginEnsure(_) => LifecycleStepKeepsInv(s, step);
      case ProxyFails => LifecycleStepKeepsInv(s, step);
      case EnsureWorker(_) => LifecycleStepKeepsInv(s, step);
      case FinishEnsure => LifecycleStepKeepsInv(s, step);
      case _ => ShutdownStepKeepsInv(s, step);
    }
  }

  lemma {:induction false} RunKeepsInv(s: State, steps: seq<Step>)
    requires Inv(s) && IsRun(s, steps)
    ensures Inv(After(s, steps))
    decreases |steps|
  {
    if steps != [] {
      StepKeepsInv(s, steps[0]);
      RunKeepsInv(Apply(s, steps[0]), steps[1..]);
    }
  }

  lemma ReachableInv(s: State)
    requires Reachable(s)
    ensures Inv(s)
  {
    var timing, steps :| IsRun(Init(timing), steps) && s == After(Init(timing), steps);
    InitInv(timing);
    RunKeepsInv(Init(timing), steps);
  }
}
