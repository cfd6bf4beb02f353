/** What holds in every reachable state and over every run of the lease protocol. */
module LeaseTheorems {
  import opened Prelude
  import opened ProcessTable
  import opened LeaseProtocol

  // ----- leases -----

  /** The count kept with a mapped process is the number of undropped leases on that very instance. */
  lemma LeaseCountIsExact(s: State, c: ClientId)
    requires Reachable(s) && c in s.table.processes
    ensures s.table.processes[c].leases == s.table.held[ProcessLease(c, s.table.processes[c].instanceId)]
  {
    ReachableInv(s);
  }

  /** The guard against lease underflow never fires. */
  lemma UnderflowIsDead(s: State, lease: ProcessLease)
    requires Reachable(s) && Enabled(s, DropLease(lease))
    ensures !Release(s.table.processes, lease, s.timing.disconnectedGrace, s.now).1.UnderflowPrevented?
  {
    ReachableInv(s);
  }

  /** Dropping a lease whose instance has left the table changes no process. */
  lemma StaleLeaseChangesNothing(s: State, lease: ProcessLease)
    requires Reachable(s) && Enabled(s, DropLease(lease))
    requires HasLeft(s.table.place, lease.instanceId)
    ensures Apply(s, DropLease(lease)).table.processes == s.table.processes
  {
    ReachableInv(s);
  }

  predicate HasLeft(place: map<nat, Place>, id: nat)
  {
    id in place && (place[id].Stopping? || place[id].Stopped?)
  }

  /** A lease taken before a restart never affects the process that replaced its own, however long it is kept. */
  lemma StaleLeaseNeverCounts(s: State, steps: seq<Step>, lease: ProcessLease)
    requires Reachable(s) && HasLeft(s.table.place, lease.instanceId)
    requires IsRun(s, steps) && Enabled(After(s, steps), DropLease(lease))
    ensures Apply(After(s, steps), DropLease(lease)).table.processes == After(s, steps).table.processes
  {
    ReachableInv(s);
    PlacesOnlyAdvance(s, steps);
    ReachableExtends(s, steps);
    StaleLeaseChangesNothing(After(s, steps), lease);
  }

  // ----- conservation and capacity -----

  function Rank(p: Place): nat
  {
    match p
    case InHand => 0
    case OnTable(_) => 1
    case Stopping(_) => 2
    case Stopped => 3
  }

  /** Every instance of `before` is still known in `after` and has not moved back. */
  predicate Advances(before: map<nat, Place>, after: map<nat, Place>)
  {
    forall i | i in before ::
      && i in after
      && Rank(before[i]) <= Rank(after[i])
      && (before[i].OnTable? && after[i].OnTable? ==> before[i] == after[i])
  }

  /** A connection, a lease drop or a look-up that removes nothing changes at most one entry, in place. */
  lemma EntryStep(s: State, step: Step)
    requires Enabled(s, step) && IsEntryStep(step) && !IsRemoval(s, step)
    ensures DiffersOnlyAt(Apply(s, step).table, s.table, Concerned(s, step))
    ensures step.DropLease? && step.lease.clientId in s.table.processes
            && s.table.processes[step.lease.clientId].instanceId != step.lease.instanceId ==>
              Apply(s, step).table.processes == s.table.processes
    ensures step.LookUpExisting? && Apply(s, step).table != s.table ==>
              Apply(s, step).lifecycle.Free? && Apply(s, step).outcome == Some(Ready)
  {
    if step.Connect? {
      ConnectTable(s, step);
    } else if step.DropLease? {
      DropTable(s, step);
    } else {
      LookUpTable(s, step);
    }
  }

  function Concerned(s: State, step: Step): ClientId
    requires Enabled(s, step) && IsEntryStep(step)
  {
    if step.Connect? then step.clientId
    else if step.DropLease? then step.lease.clientId
    else s.lifecycle.request.clientId
  }

  lemma StepAdvances(s: State, step: Step)
    requires Inv(s) && Enabled(s, step)
    ensures Advances(s.table.place, Apply(s, step).table.place)
  {
    if IsRemoval(s, step) {
      RemovalTable(s, step);
      RemovePlaces(s.table, Doomed(s, step), Remover(step));
    } else if IsEntryStep(step) {
      EntryStep(s, step);
    } else if !IsPlaceStep(step) {
      QuietStepTable(s, step);
    }
  }

  /** Over any run an instance moves only from hand to table to being stopped to stopped. */
  lemma {:induction false} PlacesOnlyAdvance(s: State, steps: seq<Step>)
    requires Inv(s) && IsRun(s, steps)
    ensures Advances(s.table.place, After(s, steps).table.place)
    decreases |steps|
  {
    if steps != [] {
      StepAdvances(s, steps[0]);
      StepKeepsInv(s, steps[0]);
      PlacesOnlyAdvance(Apply(s, steps[0]), steps[1..]);
    }
  }

  /** The table holds at most sixteen processes, of pairwise different instances, and every
      instance ever started is on it, in the hand of the ensure that started it, being stopped
      or stopped: on it exactly when its place says so. */
  lemma EveryInstanceIsInOnePlace(s: State)
    requires Reachable(s)
    ensures |s.table.processes| <= MAX_APP_SERVER_PROCESSES
    ensures forall c, d | c in s.table.processes && d in s.table.processes
              && s.table.processes[c].instanceId == s.table.processes[d].instanceId :: c == d
    ensures forall i, c :: i in s.table.place && s.table.place[i] == OnTable(c) <==>
              c in s.table.processes && s.table.processes[c].instanceId == i
    ensures forall i | i in s.table.place && s.table.place[i] == InHand ::
              && s.lifecycle.Ensuring? && s.lifecycle.phase.Inserting?
              && s.lifecycle.phase.process.instanceId == i
  {
    ReachableInv(s);
  }

  /** The final insert always finds its slot vacant, so no process is ever displaced. */
  lemma InsertFindsVacantSlot(s: State)
    requires Reachable(s) && Enabled(s, Insert)
    ensures s.lifecycle.request.clientId !in s.table.processes
    ensures Advances(s.table.place, Apply(s, Insert).table.place)
    ensures forall i | i in s.table.place && s.table.place[i] != InHand ::
              Apply(s, Insert).table.place[i] == s.table.place[i]
    ensures |Apply(s, Insert).table.processes| <= MAX_APP_SERVER_PROCESSES
  {
    ReachableInv(s);
    StepAdvances(s, Insert);
    InsertKeepsInv(s.table, s.lifecycle.request.clientId, s.lifecycle.phase.process);
  }

  /** An ensure is refused for capacity only when sixteen processes all have a live lease. */
  lemma RefusalMeansAllLeased(s: State, victim: ClientId)
    requires Reachable(s) && Enabled(s, MakeRoom(victim))
    requires Apply(s, MakeRoom(victim)).lifecycle.Free?
    ensures |s.table.processes| == MAX_APP_SERVER_PROCESSES
    ensures forall c | c in s.table.processes ::
              ProcessLease(c, s.table.processes[c].instanceId) in s.table.held
  {
    ReachableInv(s);
  }

  // ----- leased processes are kept -----

  /** `c` maps instance `id` with a lease on it and a live leader. */
  predicate LeasedAndLive(s: State, c: ClientId, id: nat)
  {
    && c in s.table.processes
    && s.table.processes[c].instanceId == id
    && ProcessLease(c, id) in s.table.held
    && id !in s.exited
  }

  /** The steps that may take a live leased process of `c` off the table: an ensure for `c` itself that
      cannot reuse it, and shutdown. */
  predicate MayTake(s: State, step: Step, c: ClientId)
    requires Enabled(s, step)
  {
    || step.TakeProcesses?
    || (step.LookUpExisting? && s.lifecycle.request.clientId == c && Apply(s, step).lifecycle.Ensuring?)
  }

  /** A reaper pass, eviction, pruning, connection or foreign ensure never dooms a live leased process. */
  lemma RemovalSparesLeased(s: State, step: Step, c: ClientId, id: nat)
    requires Inv(s) && Enabled(s, step) && LeasedAndLive(s, c, id) && !MayTake(s, step, c)
    requires IsRemoval(s, step)
    ensures c !in Doomed(s, step)
  {
    assert s.table.processes[c].leases > 0;
  }

  lemma LeasedSurvivesStep(s: State, step: Step, c: ClientId, id: nat)
    requires Inv(s) && Enabled(s, step) && LeasedAndLive(s, c, id) && !MayTake(s, step, c)
    ensures var t := Apply(s, step).table;
            c in t.processes && t.processes[c].instanceId == id
  {
    if IsRemoval(s, step) {
      RemovalTable(s, step);
      RemovalSparesLeased(s, step, c, id);
    } else if IsEntryStep(step) {
      EntryStep(s, step);
    } else if !IsPlaceStep(step) {
      QuietStepTable(s, step);
    }
  }

  /** Along the run the lease on `id` is not dropped, its leader lives, and nothing entitled to does take it. */
  predicate Undisturbed(s: State, steps: seq<Step>, c: ClientId, id: nat)
    requires IsRun(s, steps)
    decreases |steps|
  {
    && ProcessLease(c, id) in s.table.held
    && id !in s.exited
    && (steps != [] ==> !MayTake(s, steps[0], c) && Undisturbed(Apply(s, steps[0]), steps[1..], c, id))
  }

  lemma {:induction false} LeasedProcessIsKept(s: State, steps: seq<Step>, c: ClientId, id: nat)
    requires Inv(s) && IsRun(s, steps) && Undisturbed(s, steps, c, id)
    requires c in s.table.processes && s.table.processes[c].instanceId == id
    ensures var t := After(s, steps).table;
            c in t.processes && t.processes[c].instanceId == id && t.processes[c].leases > 0
    decreases |steps|
  {
    if steps == [] {
      assert s.table.processes[c].leases > 0;
    } else {
      LeasedSurvivesStep(s, steps[0], c, id);
      StepKeepsInv(s, steps[0]);
      LeasedProcessIsKept(Apply(s, steps[0]), steps[1..], c, id);
    }
  }

  // ----- idle processes are collected -----

  /** A mapped process has a cleanup deadline exactly when nobody holds a lease on it. */
  lemma DeadlineExactlyWhenIdle(s: State, c: ClientId)
    requires Reachable(s) && c in s.table.processes
    ensures s.table.processes[c].cleanupDeadline.Some? <==>
            ProcessLease(c, s.table.processes[c].instanceId) !in s.table.held
  {
    ReachableInv(s);
  }

  /** The steps that renew an idle process of `c`: a connection that gets a lease on it, an ensure that keeps it. */
  predicate Touches(s: State, step: Step, c: ClientId)
    requires Enabled(s, step)
  {
    || (step.Connect? && step.clientId == c
        && Acquire(s.table.processes, c, Probe(s.exited, step.failed), s.now).1.Leased?)
    || (step.LookUpExisting? && s.lifecycle.request.clientId == c && Apply(s, step).outcome == Some(Ready)
        && Apply(s, step).lifecycle.Free?)
  }

  /** No step of the run touches `c`. */
  predicate Untouched(s: State, steps: seq<Step>, c: ClientId)
    requires IsRun(s, steps)
    decreases |steps|
  {
    steps != [] ==> !Touches(s, steps[0], c) && Untouched(Apply(s, steps[0]), steps[1..], c)
  }

  /** Some step of the run is a pass of a reaper that read a time at or after `deadline`. */
  predicate ReapsAfter(s: State, steps: seq<Step>, deadline: nat)
    requires IsRun(s, steps)
    decreases |steps|
  {
    steps != [] && ((steps[0].Reap? && s.reaper.at >= deadline) || ReapsAfter(Apply(s, steps[0]), steps[1..], deadline))
  }

  /** Untouched, an idle process stays exactly as it is or leaves the table; a late enough reap takes it. */
  lemma IdleStep(s: State, step: Step, c: ClientId)
    requires Inv(s) && Enabled(s, step) && !Touches(s, step, c)
    requires c in s.table.processes && s.table.processes[c].leases == 0
    ensures var p, t := s.table.processes[c], Apply(s, step).table;
            && (HasLeft(t.place, p.instanceId) || (c in t.processes && t.processes[c] == p))
            && (step.Reap? && s.reaper.at >= p.cleanupDeadline.value ==> HasLeft(t.place, p.instanceId))
  {
    var p := s.table.processes[c];
    assert s.table.place[p.instanceId] == OnTable(c);
    assert ProcessLease(c, p.instanceId) !in s.table.held;
    if IsRemoval(s, step) {
      RemovalTable(s, step);
      RemovePlaces(s.table, Doomed(s, step), Remover(step));
    } else if IsEntryStep(step) {
      EntryStep(s, step);
    } else if !IsPlaceStep(step) {
      QuietStepTable(s, step);
    }
  }

  /** An idle process is off the table after the first reap at or past its deadline, unless touched before. */
  lemma {:induction false} IdleProcessIsCollected(s: State, steps: seq<Step>, c: ClientId)
    requires Inv(s) && IsRun(s, steps) && Untouched(s, steps, c)
    requires c in s.table.processes && s.table.processes[c].leases == 0
    requires ReapsAfter(s, steps, s.table.processes[c].cleanupDeadline.value)
    ensures HasLeft(After(s, steps).table.place, s.table.processes[c].instanceId)
    decreases |steps|
  {
    var t, p := Apply(s, steps[0]), s.table.processes[c];
    IdleRunGoesOn(s, steps, c, p.cleanupDeadline.value);
    IdleStep(s, steps[0], c);
    StepKeepsInv(s, steps[0]);
    if HasLeft(t.table.place, p.instanceId) {
      PlacesOnlyAdvance(t, steps[1..]);
    } else {
      IdleProcessIsCollected(t, steps[1..], c);
    }
  }

  /** The first step of an untouched run with a late reap does not touch, and unless it is that reap,
      the reap is yet to come. */
  lemma IdleRunGoesOn(s: State, steps: seq<Step>, c: ClientId, deadline: nat)
    requires IsRun(s, steps) && Untouched(s, steps, c) && ReapsAfter(s, steps, deadline)
    ensures var (step, rest) := (steps[0], steps[1..]);
            && Enabled(s, step) && !Touches(s, step, c) && IsRun(Apply(s, step), rest)
            && After(s, steps) == After(Apply(s, step), rest) && Untouched(Apply(s, step), rest, c)
            && ((step.Reap? && s.reaper.at >= deadline) || ReapsAfter(Apply(s, step), rest, deadline))
  {
  }

  // ----- shutdown -----

  lemma {:induction false} RunConcat(s: State, first: seq<Step>, second: seq<Step>)
    requires IsRun(s, first) && IsRun(After(s, first), second)
    ensures IsRun(s, first + second) && After(s, first + second) == After(After(s, first), second)
    decreases |first|
  {
    if first == [] {
      assert first + second == second;
    } else {
      assert (first + second)[1..] == first[1..] + second;
      RunConcat(Apply(s, first[0]), first[1..], second);
    }
  }

  lemma ReachableExtends(s: State, steps: seq<Step>)
    requires Reachable(s) && IsRun(s, steps)
    ensures Reachable(After(s, steps))
  {
    var timing, before :| IsRun(Init(timing), before) && s == After(Init(timing), before);
    RunConcat(Init(timing), before, steps);
  }

  lemma {:induction false} ReturnedStays(s: State, steps: seq<Step>)
    requires IsRun(s, steps) && s.shutdownReturned
    ensures After(s, steps).shutdownReturned
    decreases |steps|
  {
    if steps != [] {
      ReturnedStays(Apply(s, steps[0]), steps[1..]);
    }
  }

  /** Once a shutdown has returned, no later state has a process, whatever is called. */
  lemma ShutdownIsFinal(s: State, steps: seq<Step>)
    requires Reachable(s) && s.shutdownReturned && IsRun(s, steps)
    ensures After(s, steps).table.processes == map[]
    ensures !After(s, steps).reaper.Reaping?
  {
    ReachableInv(s);
    ReturnedStays(s, steps);
    RunKeepsInv(s, steps);
  }

  /** After a shutdown has returned every ensure that gets as far as the worker check is refused. */
  lemma EnsureAfterShutdownIsRefused(s: State, spawns: bool)
    requires Reachable(s) && s.shutdownReturned && Enabled(s, EnsureWorker(spawns))
    ensures Apply(s, EnsureWorker(spawns)).lifecycle.Free?
    ensures Apply(s, EnsureWorker(spawns)).outcome == Some(RefusedByShutdown)
  {
    ReachableInv(s);
  }

  /** A reaper thread is started only when none is running. */
  lemma OneReaperAtATime(s: State, spawns: bool)
    requires Reachable(s) && Enabled(s, EnsureWorker(spawns))
    requires Apply(s, EnsureWorker(spawns)).reaper != s.reaper
    ensures s.reaper.Gone?
  {
    ReachableInv(s);
  }
}
