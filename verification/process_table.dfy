/**
 The table of managed app-server processes of `RuntimeManager`: what each critical
 section of the `processes` mutex computes, as a function of the table, and the
 class whose methods update the table in place and are proved against those functions.
 */
module ProcessTable {
  import opened Prelude

  type ClientId = string

  const MAX_APP_SERVER_PROCESSES: nat := 16
  const MAX_LEASES: nat := 0xFFFF_FFFF_FFFF_FFFF

  datatype Endpoint = Endpoint(entryId: string, proxyHost: string, proxyPort: nat)

  datatype ManagedProcess = ManagedProcess(
    instanceId: nat,
    endpoint: Endpoint,
    leases: nat,
    cleanupDeadline: Option<nat>,
    lastTouched: nat)

  type Processes = map<ClientId, ManagedProcess>

  datatype ProcessLease = ProcessLease(clientId: ClientId, instanceId: nat)

  datatype CleanupTiming = CleanupTiming(disconnectedGrace: nat, unconnectedTimeout: nat)

  datatype EnsureRequest = EnsureRequest(clientId: ClientId, endpoint: Endpoint, restart: bool)

  /** What `waitid` answers for each leader during one critical section: an error for the
      instances in `failed`, otherwise whether the leader is among the exited ones. */
  datatype Probe = Probe(exited: set<nat>, failed: set<nat>)
  {
    predicate Fails(id: nat) { id in failed }
    predicate Exited(id: nat) { id !in failed && id in exited }
  }

  // ----- critical sections as functions of the table -----

  datatype AcquireResult =
    | NotRunning
    | ProbeError
    | LeaderGone(stop: ManagedProcess)
    | TooManyLeases
    | Leased(lease: ProcessLease)

  function Acquire(ps: Processes, clientId: ClientId, probe: Probe, now: nat): (Processes, AcquireResult)
  {
    if clientId !in ps then (ps, NotRunning)
    else
      var p := ps[clientId];
      if probe.Fails(p.instanceId) then (ps, ProbeError)
      else if probe.Exited(p.instanceId) then (ps - {clientId}, LeaderGone(p))
      else if p.leases == MAX_LEASES then (ps, TooManyLeases)
      else
        (ps[clientId := p.(leases := p.leases + 1, cleanupDeadline := None, lastTouched := now)],
         Leased(ProcessLease(clientId, p.instanceId)))
  }

  datatype ReleaseResult = NoSuchProcess | OtherInstance | UnderflowPrevented | Released

  function Release(ps: Processes, lease: ProcessLease, grace: nat, now: nat): (Processes, ReleaseResult)
  {
    if lease.clientId !in ps then (ps, NoSuchProcess)
    else
      var p := ps[lease.clientId];
      if p.instanceId != lease.instanceId then (ps, OtherInstance)
      else if p.leases == 0 then (ps, UnderflowPrevented)
      else
        var deadline := if p.leases == 1 then Some(now + grace) else p.cleanupDeadline;
        (ps[lease.clientId := p.(leases := p.leases - 1, cleanupDeadline := deadline, lastTouched := now)],
         Released)
  }

  datatype Reuse = Keep | Replace | CannotTell

  function IsReusable(p: ManagedProcess, request: EnsureRequest, probe: Probe, socketReady: bool): Reuse
  {
    if request.restart || p.endpoint != request.endpoint then Replace
    else if probe.Fails(p.instanceId) then CannotTell
    else if !probe.Exited(p.instanceId) && socketReady then Keep
    else Replace
  }

  datatype LookUpResult = LookUpError | Kept | Absent | Taken(stale: ManagedProcess)

  function LookUp(ps: Processes, request: EnsureRequest, probe: Probe, socketReady: bool, timeout: nat, now: nat)
    : (Processes, LookUpResult)
  {
    var clientId := request.clientId;
    if clientId !in ps then (ps, Absent)
    else
      var p := ps[clientId];
      match IsReusable(p, request, probe, socketReady)
      case CannotTell => (ps, LookUpError)
      case Replace => (ps - {clientId}, Taken(p))
      case Keep =>
        var deadline := if p.leases == 0 then Some(now + timeout) else p.cleanupDeadline;
        (ps[clientId := p.(cleanupDeadline := deadline, lastTouched := now)], Kept)
  }

  /** The clients whose leader the probe reports as exited. */
  function ExitedClients(ps: Processes, probe: Probe): set<ClientId>
  {
    set c | c in ps && probe.Exited(ps[c].instanceId)
  }

  predicate LeaseExpired(p: ManagedProcess, now: nat)
  {
    p.leases == 0 && p.cleanupDeadline.Some? && p.cleanupDeadline.value <= now
  }

  /** The clients one pass of the reaper removes. */
  function ExpiredClients(ps: Processes, probe: Probe, now: nat): set<ClientId>
  {
    set c | c in ps && (probe.Exited(ps[c].instanceId) || LeaseExpired(ps[c], now))
  }

  /** `victim` is an idle process that was touched least recently. */
  predicate IsEvictable(ps: Processes, victim: ClientId)
  {
    && victim in ps
    && ps[victim].leases == 0
    && forall c | c in ps && ps[c].leases == 0 :: ps[victim].lastTouched <= ps[c].lastTouched
  }

  predicate NoIdleProcess(ps: Processes)
  {
    forall c | c in ps :: ps[c].leases != 0
  }

  // ----- the table updated in place -----

  class RuntimeManager {
    const timing: CleanupTiming
    var processes: Processes
    var nextProcessInstance: nat

    constructor (timing: CleanupTiming)
      ensures this.timing == timing && processes == map[] && nextProcessInstance == 1
    {
      this.timing := timing;
      processes := map[];
      nextProcessInstance := 1;
    }

    method AcquireProcessLease(clientId: ClientId, probe: Probe, now: nat) returns (r: AcquireResult)
      modifies this`processes
      ensures (processes, r) == Acquire(old(processes), clientId, probe, now)
      ensures r.NotRunning? <==> clientId !in old(processes)
      ensures clientId in old(processes) ==>
                var p := old(processes)[clientId];
                && (r.ProbeError? <==> p.instanceId in probe.failed)
                && (r == LeaderGone(p) <==> p.instanceId !in probe.failed && p.instanceId in probe.exited)
                && (r.Leased? || r.TooManyLeases? <==> p.instanceId !in probe.failed && p.instanceId !in probe.exited)
                && (r.TooManyLeases? ==> p.leases == MAX_LEASES)
                && (r.Leased? ==>
                      && p.leases != MAX_LEASES
                      && r.lease == ProcessLease(clientId, p.instanceId)
                      && processes == old(processes)[clientId := p.(leases := p.leases + 1, cleanupDeadline := None, lastTouched := now)])
      ensures r.LeaderGone? ==> processes == old(processes) - {clientId}
      ensures !r.Leased? && !r.LeaderGone? ==> processes == old(processes)
    {
      if clientId !in processes {
        return NotRunning;
      }
      var process := processes[clientId];
      if probe.Fails(process.instanceId) {
        return ProbeError;
      }
      if probe.Exited(process.instanceId) {
        processes := processes - {clientId};
        return LeaderGone(process);
      }
      if process.leases == MAX_LEASES {
        return TooManyLeases;
      }
      process := process.(leases := process.leases + 1);
      process := process.(cleanupDeadline := None);
      process := process.(lastTouched := now);
      processes := processes[clientId := process];
      return Leased(ProcessLease(clientId, process.instanceId));
    }

    method ReleaseProcessLease(lease: ProcessLease, now: nat) returns (r: ReleaseResult)
      modifies this`processes
      ensures (processes, r) == Release(old(processes), lease, timing.disconnectedGrace, now)
      ensures r.NoSuchProcess? <==> lease.clientId !in old(processes)
      ensures lease.clientId in old(processes) ==>
                var p := old(processes)[lease.clientId];
                && (r.OtherInstance? <==> p.instanceId != lease.instanceId)
                && (r.UnderflowPrevented? <==> p.instanceId == lease.instanceId && p.leases == 0)
                && (r.Released? ==>
                      processes == old(processes)[lease.clientId := ManagedProcess(
                        p.instanceId, p.endpoint, p.leases - 1,
                        if p.leases == 1 then Some(now + timing.disconnectedGrace) else p.cleanupDeadline, now)])
      ensures !r.Released? ==> processes == old(processes)
    {
      if lease.clientId !in processes {
        return NoSuchProcess;
      }
      var process := processes[lease.clientId];
      if process.instanceId != lease.instanceId {
        return OtherInstance;
      }
      if process.leases == 0 {
        return UnderflowPrevented;
      }
      process := process.(leases := process.leases - 1, lastTouched := now);
      if process.leases == 0 {
        process := process.(cleanupDeadline := Some(now + timing.disconnectedGrace));
      }
      processes := processes[lease.clientId := process];
      return Released;
    }

    /** First critical section of `ensure_process_locked`. */
    method KeepOrTakeExisting(request: EnsureRequest, probe: Probe, socketReady: bool, now: nat)
      returns (r: LookUpResult)
      modifies this`processes
      ensures (processes, r) ==
              LookUp(old(processes), request, probe, socketReady, timing.unconnectedTimeout, now)
      ensures r.Absent? <==> request.clientId !in old(processes)
      ensures request.clientId in old(processes) ==>
                var p := old(processes)[request.clientId];
                && (r.Kept? <==>
                      && !request.restart && p.endpoint == request.endpoint
                      && p.instanceId !in probe.failed && p.instanceId !in probe.exited && socketReady)
                && (r.LookUpError? <==> !request.restart && p.endpoint == request.endpoint && p.instanceId in probe.failed)
                && (r == Taken(p) <==>
                      || request.restart || p.endpoint != request.endpoint
                      || (p.instanceId !in probe.failed && (p.instanceId in probe.exited || !socketReady)))
                && (r.Kept? ==>
                      processes == old(processes)[request.clientId := ManagedProcess(
                        p.instanceId, p.endpoint, p.leases,
                        if p.leases == 0 then Some(now + timing.unconnectedTimeout) else p.cleanupDeadline, now)])
      ensures r.Taken? ==> processes == old(processes) - {request.clientId}
      ensures r.Absent? || r.LookUpError? ==> processes == old(processes)
    {
      if request.clientId !in processes {
        return Absent;
      }
      var process := processes[request.clientId];
      var reuse := IsReusable(process, request, probe, socketReady);
      if reuse == CannotTell {
        return LookUpError;
      }
      if reuse == Keep {
        process := process.(lastTouched := now);
        if process.leases == 0 {
          process := process.(cleanupDeadline := Some(now + timing.unconnectedTimeout));
        }
        processes := processes[request.clientId := process];
        return Kept;
      }
      processes := processes - {request.clientId};
      return Taken(process);
    }

    /** Removes the clients in `doomed` one by one and returns their processes. */
    method RemoveAll(doomed: seq<ClientId>) returns (removed: seq<ManagedProcess>)
      requires forall i, j | 0 <= i < j < |doomed| :: doomed[i] != doomed[j]
      requires forall c | c in doomed :: c in processes
      modifies this`processes
      ensures processes == old(processes) - (set c | c in doomed)
      ensures |removed| == |doomed|
      ensures forall i | 0 <= i < |doomed| :: removed[i] == old(processes)[doomed[i]]
    {
      removed := [];
      for i := 0 to |doomed|
        invariant |removed| == i
        invariant processes == old(processes) - (set c | c in doomed[..i])
        invariant forall k | 0 <= k < i :: removed[k] == old(processes)[doomed[k]]
      {
        assert doomed[i] !in doomed[..i];
        removed := removed + [processes[doomed[i]]];
        processes := processes - {doomed[i]};
        assert doomed[..i + 1] == doomed[..i] + [doomed[i]];
      }
      assert doomed[..|doomed|] == doomed;
    }

    /** One pass of the reaper: collect the expired clients, then remove them. */
    method ReapIdleProcesses(probe: Probe, now: nat) returns (expired: seq<ManagedProcess>)
      modifies this`processes
      ensures processes == old(processes) - ExpiredClients(old(processes), probe, now)
      ensures forall c | c in old(processes) ::
                c !in processes <==>
                var p := old(processes)[c];
                || (p.instanceId !in probe.failed && p.instanceId in probe.exited)
                || (p.leases == 0 && p.cleanupDeadline.Some? && p.cleanupDeadline.value <= now)
      ensures |expired| == |ExpiredClients(old(processes), probe, now)|
      ensures forall p :: p in expired <==>
                exists c :: c in ExpiredClients(old(processes), probe, now) && old(processes)[c] == p
    {
      var doomed: seq<ClientId> := [];
      var todo := processes.Keys;
      while todo != {}
        invariant todo <= processes.Keys && processes == old(processes)
        invariant forall i, j | 0 <= i < j < |doomed| :: doomed[i] != doomed[j]
        invariant forall c :: c in doomed <==> c in ExpiredClients(processes, probe, now) && c !in todo
        decreases todo
      {
        var clientId :| clientId in todo;
        var process := processes[clientId];
        if probe.Exited(process.instanceId) || LeaseExpired(process, now) {
          doomed := doomed + [clientId];
        }
        todo := todo - {clientId};
      }
      assert (set c | c in doomed) == ExpiredClients(processes, probe, now);
      expired := RemoveAll(doomed);
      DistinctSize(doomed);
      forall p | p in expired
        ensures exists c :: c in ExpiredClients(old(processes), probe, now) && old(processes)[c] == p
      {
        var i :| 0 <= i < |expired| && expired[i] == p;
        assert doomed[i] in doomed;
      }
    }

    /** Second critical section of `ensure_process_locked`: drop the processes that have exited. */
    method PruneExited(probe: Probe) returns (exited: seq<ManagedProcess>)
      modifies this`processes
      ensures processes == old(processes) - ExitedClients(old(processes), probe)
      ensures forall c | c in old(processes) ::
                c !in processes <==>
                old(processes)[c].instanceId !in probe.failed && old(processes)[c].instanceId in probe.exited
      ensures |exited| == |ExitedClients(old(processes), probe)|
    {
      var doomed: seq<ClientId> := [];
      var todo := processes.Keys;
      while todo != {}
        invariant todo <= processes.Keys && processes == old(processes)
        invariant forall i, j | 0 <= i < j < |doomed| :: doomed[i] != doomed[j]
        invariant forall c :: c in doomed <==> c in ExitedClients(processes, probe) && c !in todo
        decreases todo
      {
        var clientId :| clientId in todo;
        if probe.Exited(processes[clientId].instanceId) {
          doomed := doomed + [clientId];
        }
        todo := todo - {clientId};
      }
      assert (set c | c in doomed) == ExitedClients(processes, probe);
      exited := RemoveAll(doomed);
      DistinctSize(doomed);
    }

    /** Third critical section: below capacity nothing happens, at capacity the idlest process goes. */
    method MakeRoom() returns (full: bool, evicted: Option<ManagedProcess>)
      modifies this`processes
      ensures full <==> |old(processes)| >= 16 && forall c | c in old(processes) :: old(processes)[c].leases > 0
      ensures full || |old(processes)| < MAX_APP_SERVER_PROCESSES ==>
                evicted.None? && processes == old(processes)
      ensures !full && |old(processes)| >= MAX_APP_SERVER_PROCESSES ==>
                exists victim :: IsEvictable(old(processes), victim)
                  && processes == old(processes) - {victim} && evicted == Some(old(processes)[victim])
      ensures evicted.Some? ==>
                && evicted.value.leases == 0
                && forall c | c in old(processes) && old(processes)[c].leases == 0 ::
                     evicted.value.lastTouched <= old(processes)[c].lastTouched
    {
      if |processes| < MAX_APP_SERVER_PROCESSES {
        return false, None;
      }
      var idle: Option<ClientId> := None;
      var todo := processes.Keys;
      while todo != {}
        invariant todo <= processes.Keys && processes == old(processes)
        invariant idle.None? ==> forall c | c in processes.Keys - todo :: processes[c].leases != 0
        invariant idle.Some? ==> idle.value in processes && processes[idle.value].leases == 0
        invariant idle.Some? ==> forall c | c in processes.Keys - todo && processes[c].leases == 0 ::
                    processes[idle.value].lastTouched <= processes[c].lastTouched
        decreases todo
      {
        var clientId :| clientId in todo;
        if processes[clientId].leases == 0
           && (idle.None? || processes[clientId].lastTouched < processes[idle.value].lastTouched) {
          idle := Some(clientId);
        }
        todo := todo - {clientId};
      }
      if idle.None? {
        return true, None;
      }
      assert IsEvictable(processes, idle.value);
      evicted := Some(processes[idle.value]);
      processes := processes - {idle.value};
      return false, evicted;
    }

    method AllocateInstance() returns (id: nat)
      modifies this`nextProcessInstance
      ensures id == old(nextProcessInstance) && nextProcessInstance == id + 1
    {
      id := nextProcessInstance;
      nextProcessInstance := nextProcessInstance + 1;
    }

    /** Last critical section of `ensure_process_locked`. */
    method InsertStarted(clientId: ClientId, process: ManagedProcess) returns (displaced: Option<ManagedProcess>)
      modifies this`processes
      ensures processes == old(processes)[clientId := process]
      ensures displaced == if clientId in old(processes) then Some(old(processes)[clientId]) else None
    {
      displaced := if clientId in processes then Some(processes[clientId]) else None;
      processes := processes[clientId := process];
    }

    method TakeAll() returns (taken: Processes)
      modifies this`processes
      ensures taken == old(processes) && processes == map[]
    {
      taken := processes;
      processes := map[];
    }
  }

  /** A sequence without repetitions is as long as the set of its elements. */
  lemma {:induction false} DistinctSize(s: seq<ClientId>)
    requires forall i, j | 0 <= i < j < |s| :: s[i] != s[j]
    ensures |set c | c in s| == |s|
  {
    if s != [] {
      var rest := s[..|s| - 1];
      DistinctSize(rest);
      assert s == rest + [s[|s| - 1]];
      assert (set c | c in s) == (set c | c in rest) + {s[|s| - 1]};
      assert s[|s| - 1] !in rest;
    }
  }
}
