/**
 What an ensure that ends well has achieved, and what the clock fields of a mapped process mean, in
 every interleaving of the lease protocol.
 */
module EnsureTheorems {
  import opened Prelude
  import opened ProcessTable
  import opened LeaseProtocol
  import opened LeaseTheorems

  // ----- an ensure that ends Ready -----

  /** The client of the request has left the table, or is served: by a process of the requested
      endpoint, and after a restart by an instance that was started since. */
  predicate IsServed(t: Table, request: EnsureRequest, first: nat)
  {
    request.clientId in t.processes ==>
      var p := t.processes[request.clientId];
      p.endpoint == request.endpoint && (request.restart ==> p.instanceId >= first)
  }

  /** How far the running ensure has come; `first` was the next instance id when it began. */
  predicate IsUnderway(s: State, request: EnsureRequest, first: nat)
  {
    && s.lifecycle.Ensuring? && s.lifecycle.request == request && s.nextInstance >= first
    && match s.lifecycle.phase
       case Starting(id) => id >= first
       case Inserting(p) => p.instanceId >= first && p.endpoint == request.endpoint
       case Finishing => IsServed(s.table, request, first)
       case _ => true
  }

  /** A removal, a connection or a lease drop leaves every client it keeps with its instance and endpoint. */
  lemma KeepsServing(s: State, step: Step, request: EnsureRequest, first: nat)
    requires Inv(s) && Enabled(s, step) && IsServed(s.table, request, first)
    requires !step.Insert? && !step.LookUpExisting?
    ensures IsServed(Apply(s, step).table, request, first)
  {
    if IsRemoval(s, step) {
      RemovalTable(s, step);
    } else if IsEntryStep(step) {
      EntryStep(s, step);
    } else if !IsPlaceStep(step) {
      QuietStepTable(s, step);
    }
  }

  /** Steps of the others do not move the ensure, and its own steps do what they should. */
  lemma EnsureStep(s: State, step: Step, request: EnsureRequest, first: nat)
    requires Inv(s) && Enabled(s, step) && IsUnderway(s, request, first)
    ensures var t := Apply(s, step);
            || IsUnderway(t, request, first)
            || (t.lifecycle.Free? && (t.outcome == Some(Ready) ==> IsServed(t.table, request, first)))
  {
    if s.lifecycle.phase.Finishing? {
      KeepsServing(s, step, request, first);
    } else if step.LookUpExisting? {
      LookUpServes(s, step, request, first);
    } else {
      EarlierStep(s, step, request, first);
    }
  }

  lemma EarlierStep(s: State, step: Step, request: EnsureRequest, first: nat)
    requires Enabled(s, step) && IsUnderway(s, request, first) && !step.LookUpExisting? && !s.lifecycle.phase.Finishing?
    ensures var t := Apply(s, step);
            IsUnderway(t, request, first) || (t.lifecycle.Free? && t.outcome != Some(Ready))
  {
  }

  /** The look-up keeps only what a restart does not replace. */
  lemma LookUpServes(s: State, step: Step, request: EnsureRequest, first: nat)
    requires Enabled(s, step) && step.LookUpExisting? && IsUnderway(s, request, first)
    ensures var t := Apply(s, step);
            || IsUnderway(t, request, first)
            || (t.lifecycle.Free? && (t.outcome == Some(Ready) ==> IsServed(t.table, request, first) && !request.restart))
  {
  }

  /** The ensure is running all along and over at the end. */
  predicate EndsAtLast(s: State, steps: seq<Step>)
    requires IsRun(s, steps)
    decreases |steps|
  {
    && steps != [] && s.lifecycle.Ensuring?
    && if |steps| == 1 then !Apply(s, steps[0]).lifecycle.Ensuring? else EndsAtLast(Apply(s, steps[0]), steps[1..])
  }

  lemma {:induction false} UnderwayEndsServed(s: State, steps: seq<Step>, request: EnsureRequest, first: nat)
    requires Inv(s) && IsRun(s, steps) && EndsAtLast(s, steps) && IsUnderway(s, request, first)
    ensures After(s, steps).outcome == Some(Ready) ==> IsServed(After(s, steps).table, request, first)
    decreases |steps|
  {
    EnsureStep(s, steps[0], request, first);
    StepKeepsInv(s, steps[0]);
    if |steps| == 1 {
      assert steps[1..] == [];
    } else {
      UnderwayEndsServed(Apply(s, steps[0]), steps[1..], request, first);
    }
  }

  /** An ensure that ends Ready, whatever runs beside it, leaves its client served as requested; a
      restart never leaves it on an instance that existed when the ensure began. */
  lemma ReadyMeansServed(s: State, request: EnsureRequest, steps: seq<Step>)
    requires Reachable(s) && Enabled(s, BeginEnsure(request))
    requires IsRun(Apply(s, BeginEnsure(request)), steps) && EndsAtLast(Apply(s, BeginEnsure(request)), steps)
    ensures var t := After(Apply(s, BeginEnsure(request)), steps);
            t.outcome == Some(Ready) && request.clientId in t.table.processes ==>
              var p := t.table.processes[request.clientId];
              && p.endpoint == request.endpoint
              && (request.restart ==> p.instanceId >= s.nextInstance && p.instanceId !in s.table.place)
  {
    ReachableInv(s);
    StepKeepsInv(s, BeginEnsure(request));
    UnderwayEndsServed(Apply(s, BeginEnsure(request)), steps, request, s.nextInstance);
  }

  // ----- deadlines and touches -----

  /** An idle process has its deadline one of the two timeouts after it was last touched, which is not
      in the future. */
  predicate IsTimed(p: ManagedProcess, timing: CleanupTiming, now: nat)
  {
    && p.lastTouched <= now
    && (p.leases == 0 ==>
          || p.cleanupDeadline == Some(p.lastTouched + timing.disconnectedGrace)
          || p.cleanupDeadline == Some(p.lastTouched + timing.unconnectedTimeout))
  }

  predicate TableTimed(ps: Processes, timing: CleanupTiming, now: nat)
  {
    forall c | c in ps :: IsTimed(ps[c], timing, now)
  }

  predicate PhaseTimed(lifecycle: Lifecycle, timing: CleanupTiming, now: nat)
  {
    lifecycle.Ensuring? && lifecycle.phase.Inserting? ==> IsTimed(lifecycle.phase.process, timing, now)
  }

  predicate AllTimed(s: State)
  {
    TableTimed(s.table.processes, s.timing, s.now) && PhaseTimed(s.lifecycle, s.timing, s.now)
  }

  lemma AcquireKeepsTimed(ps: Processes, clientId: ClientId, probe: Probe, timing: CleanupTiming, now: nat)
    requires TableTimed(ps, timing, now)
    ensures TableTimed(Acquire(ps, clientId, probe, now).0, timing, now)
  {
  }

  lemma ReleaseKeepsTimed(ps: Processes, lease: ProcessLease, timing: CleanupTiming, now: nat)
    requires TableTimed(ps, timing, now)
    ensures TableTimed(Release(ps, lease, timing.disconnectedGrace, now).0, timing, now)
  {
  }

  lemma LookUpKeepsTimed(ps: Processes, request: EnsureRequest, probe: Probe, socketReady: bool, timing: CleanupTiming, now: nat)
    requires TableTimed(ps, timing, now)
    ensures TableTimed(LookUp(ps, request, probe, socketReady, timing.unconnectedTimeout, now).0, timing, now)
  {
  }

  lemma EntryStepKeepsTimed(s: State, step: Step)
    requires Enabled(s, step) && TableTimed(s.table.processes, s.timing, s.now)
    requires IsEntryStep(step) && !IsRemoval(s, step)
    ensures TableTimed(Apply(s, step).table.processes, s.timing, s.now)
  {
    if step.Connect? {
      AcquireKeepsTimed(s.table.processes, step.clientId, Probe(s.exited, step.failed), s.timing, s.now);
    } else if step.DropLease? {
      ReleaseKeepsTimed(s.table.processes, step.lease, s.timing, s.now);
    } else {
      LookUpKeepsTimed(s.table.processes, s.lifecycle.request, Probe(s.exited, step.failed), step.socketReady, s.timing, s.now);
    }
  }

  /** The clock only moves forward, and only by its own step. */
  lemma ClockMovesForward(s: State, step: Step)
    requires Enabled(s, step)
    ensures Apply(s, step).timing == s.timing && Apply(s, step).now >= s.now && (!step.Tick? ==> Apply(s, step).now == s.now)
  {
  }

  /** A process is brought to be inserted only by being started. */
  lemma OnlyStartBringsProcess(s: State, step: Step)
    requires Enabled(s, step) && !step.StartServer?
    ensures var l := Apply(s, step).lifecycle;
            l.Ensuring? && l.phase.Inserting? ==> l == s.lifecycle
  {
  }

  lemma StepKeepsPhaseTimed(s: State, step: Step)
    requires Enabled(s, step) && PhaseTimed(s.lifecycle, s.timing, s.now)
    ensures PhaseTimed(Apply(s, step).lifecycle, s.timing, Apply(s, step).now)
  {
    ClockMovesForward(s, step);
    if !step.StartServer? {
      OnlyStartBringsProcess(s, step);
    }
  }

  lemma StepKeepsTableTimed(s: State, step: Step)
    requires Enabled(s, step) && AllTimed(s)
    ensures TableTimed(Apply(s, step).table.processes, s.timing, s.now)
  {
    if IsRemoval(s, step) {
      RemovalTable(s, step);
    } else if IsEntryStep(step) {
      EntryStepKeepsTimed(s, step);
    } else if !IsPlaceStep(step) {
      QuietStepTable(s, step);
    }
  }

  lemma StepKeepsTimed(s: State, step: Step)
    requires Enabled(s, step) && AllTimed(s)
    ensures AllTimed(Apply(s, step))
  {
    ClockMovesForward(s, step);
    StepKeepsPhaseTimed(s, step);
    StepKeepsTableTimed(s, step);
  }

  lemma {:induction false} RunKeepsTimed(s: State, steps: seq<Step>)
    requires IsRun(s, steps) && AllTimed(s)
    ensures AllTimed(After(s, steps))
    decreases |steps|
  {
    if steps != [] {
      StepKeepsTimed(s, steps[0]);
      RunKeepsTimed(Apply(s, steps[0]), steps[1..]);
    }
  }

  lemma ReachableTimed(s: State)
    requires Reachable(s)
    ensures AllTimed(s)
  {
    var timing, steps :| IsRun(Init(timing), steps) && s == After(Init(timing), steps);
    RunKeepsTimed(Init(timing), steps);
  }

  /** In every reachable state the deadline of an idle process is its last touch plus the grace after a
      disconnection or the timeout for a process nobody connected to. */
  lemma DeadlineFollowsLastTouch(s: State, c: ClientId)
    requires Reachable(s) && c in s.table.processes
    ensures s.table.processes[c].lastTouched <= s.now
    ensures ProcessLease(c, s.table.processes[c].instanceId) !in s.table.held ==>
              var p := s.table.processes[c];
              || p.cleanupDeadline == Some(p.lastTouched + s.timing.disconnectedGrace)
              || p.cleanupDeadline == Some(p.lastTouched + s.timing.unconnectedTimeout)
  {
    ReachableTimed(s);
    LeaseCountIsExact(s, c);
  }

  /** The last lease dropped gives the process the disconnection grace from now on. */
  lemma LastDropStartsGrace(s: State, lease: ProcessLease)
    requires Reachable(s) && Enabled(s, DropLease(lease)) && s.table.held[lease] == 1
    requires lease.clientId in s.table.processes && s.table.processes[lease.clientId].instanceId == lease.instanceId
    ensures var p := Apply(s, DropLease(lease)).table.processes[lease.clientId];
            p.leases == 0 && p.lastTouched == s.now && p.cleanupDeadline == Some(s.now + s.timing.disconnectedGrace)
  {
    ReachableInv(s);
  }

  /** A process that was just started may wait for its first connection for the whole timeout. */
  lemma StartedWaitsForConnection(s: State, ready: bool)
    requires Reachable(s) && Enabled(s, StartServer(ready)) && ready
    ensures var t := Apply(s, StartServer(ready));
            && Enabled(t, Insert)
            && var p := Apply(t, Insert).table.processes[s.lifecycle.request.clientId];
               && p.instanceId == s.lifecycle.phase.id && p.endpoint == s.lifecycle.request.endpoint
               && p.leases == 0 && p.lastTouched == s.now
               && p.cleanupDeadline == Some(s.now + s.timing.unconnectedTimeout)
  {
    ReachableInv(s);
  }

  /** The reaper takes no process that is leased, or not yet due when the reaper read the time, as long as
      its leader lives. */
  lemma ReaperSparesUndue(s: State, failed: set<nat>, c: ClientId)
    requires Reachable(s) && Enabled(s, Reap(failed)) && c in s.table.processes
    requires s.table.processes[c].instanceId !in s.exited
    requires var p := s.table.processes[c]; p.cleanupDeadline.None? || p.cleanupDeadline.value > s.reaper.at
    ensures var t := Apply(s, Reap(failed)).table;
            c in t.processes && t.processes[c] == s.table.processes[c]
  {
  }
}
