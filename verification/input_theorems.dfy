/** What holds of the portal input protocol in every reachable state and over every run. */
module InputTheorems {
  import opened Prelude
  import opened InputScripts
  import opened InputProtocol

  /** The guard stack of a task, empty unless it is acting. */
  function GuardOf(t: Task): seq<Key>
  {
    if t.stage.Acting? then t.stage.guard else []
  }

  /** On a valid session every key that may be down is in the guard of the task that holds the
      input lock, counting repetitions; without such a task nothing is down. */
  lemma PossiblyDownIsGuarded(s: State, session: nat)
    requires Reachable(s) && session in s.sessions && s.sessions[session].valid
    ensures s.sessions[session].down != multiset{} ==>
              && s.inputLock.Some?
              && s.inputLock.value in s.tasks
              && s.tasks[s.inputLock.value].session == session
              && s.sessions[session].down <= multiset(GuardOf(s.tasks[s.inputLock.value]))
  {
    ReachableInv(s);
  }

  /** Whenever the input lock is free, no valid session has anything pressed. */
  lemma FreeLockMeansNothingPressed(s: State)
    requires Reachable(s) && s.inputLock.None?
    ensures forall i | i in s.sessions && s.sessions[i].valid :: s.sessions[i].down == multiset{}
  {
    ReachableInv(s);
  }

  /** An action that runs to its end leaves nothing pressed and its session as valid as it was. */
  lemma CompletionLeavesNothing(s: State, task: nat)
    requires Reachable(s) && Enabled(s, Complete(task))
    ensures s.tasks[task].stage.guard == [] && s.sessions[s.tasks[task].session].down == multiset{}
    ensures Apply(s, Complete(task)).sessions == s.sessions
    ensures Apply(s, Complete(task)).inputLock.None?
  {
    ReachableInv(s);
  }

  /** At most one task is past the queue. */
  lemma OneTaskAtATime(s: State, t: nat, u: nat)
    requires Reachable(s) && t in s.tasks && u in s.tasks
    requires !s.tasks[t].stage.Queued? && !s.tasks[u].stage.Queued?
    ensures t == u
  {
    ReachableInv(s);
  }

  /** The operation lock cannot pass to another operation while a task holds a reference to it. */
  lemma OperationLockHeldByTask(s: State, t: nat)
    requires Reachable(s) && t in s.tasks && s.tasks[t].hasRef
    ensures s.operation.Some?
    ensures forall op :: !Enabled(s, BeginOperation(op))
  {
    ReachableInv(s);
    assert t in Referents(s.tasks);
  }

  /** An operation that was spawned keeps the operation lock until it has ended itself, whatever
      becomes of the caller that waits for it. */
  lemma {:induction false} DetachedOperationKeepsLock(s: State, steps: seq<Step>)
    requires Inv(s) && s.detached > 0 && IsRun(s, steps)
    requires DetachedReturns !in steps && DetachedEndsAlone !in steps
    ensures var t := After(s, steps);
            t.detached >= s.detached && t.operation.Some? && t.operation == s.operation
    ensures forall op :: !Enabled(After(s, steps), BeginOperation(op))
    decreases |steps|
  {
    if steps != [] {
      DetachedStep(s, steps[0]);
      StepKeepsInv(s, steps[0]);
      DetachedOperationKeepsLock(Apply(s, steps[0]), steps[1..]);
    }
  }

  lemma DetachedStep(s: State, step: Step)
    requires Inv(s) && s.detached > 0 && Enabled(s, step) && !step.DetachedReturns? && !step.DetachedEndsAlone?
    ensures Apply(s, step).detached >= s.detached && Apply(s, step).operation == s.operation
  {
    StepKeepsInv(s, step);
  }

  // ----- abnormal exits -----

  /** The task is cleaning up after an abnormal exit with `pressed` armed. */
  predicate CleansUp(s: State, task: nat, session: nat, pressed: seq<Key>, hasRef: bool)
  {
    && task in s.tasks
    && s.tasks[task].session == session
    && s.tasks[task].hasRef == hasRef
    && ((s.tasks[task].stage.Releasing? && s.tasks[task].stage.pressed == pressed)
        || (s.tasks[task].stage.Closing? && s.tasks[task].stage.pressed == pressed))
  }

  lemma CleanupGoesOn(s: State, step: Step, task: nat, session: nat, pressed: seq<Key>, hasRef: bool)
    requires Inv(s) && Enabled(s, step) && step != CloseSession(task)
    requires CleansUp(s, task, session, pressed, hasRef)
    ensures CleansUp(Apply(s, step), task, session, pressed, hasRef)
    ensures hasRef ==> Apply(s, step).operation == s.operation
  {
    if hasRef {
      assert task in Referents(s.tasks);
      StepKeepsInv(s, step);
      assert CleansUp(Apply(s, step), task, session, pressed, hasRef);
      assert task in Referents(Apply(s, step).tasks);
    }
  }

  lemma {:induction false} CleanupHoldsLocks(
    s: State, steps: seq<Step>, task: nat, session: nat, pressed: seq<Key>, hasRef: bool)
    requires Inv(s) && IsRun(s, steps) && CloseSession(task) !in steps
    requires CleansUp(s, task, session, pressed, hasRef)
    ensures CleansUp(After(s, steps), task, session, pressed, hasRef)
    ensures After(s, steps).inputLock == Some(task)
    ensures hasRef ==> After(s, steps).operation == s.operation && s.operation.Some?
    ensures session in After(s, steps).sessions && !After(s, steps).sessions[session].valid
    decreases |steps|
  {
    if steps == [] {
      if hasRef {
        assert task in Referents(s.tasks);
      }
    } else {
      CleanupGoesOn(s, steps[0], task, session, pressed, hasRef);
      StepKeepsInv(s, steps[0]);
      CleanupHoldsLocks(Apply(s, steps[0]), steps[1..], task, session, pressed, hasRef);
      if hasRef {
        assert task in Referents(s.tasks);
      }
    }
  }

  /** An action that fails or is cancelled with keys armed keeps the input lock, and the operation
      lock it had a reference to, until its cleanup has closed the session; and the session
      is invalid from the failure on. */
  lemma AbnormalExitHoldsBothLocks(s: State, task: nat, steps: seq<Step>)
    requires Reachable(s) && Enabled(s, Fail(task, true)) && s.tasks[task].stage.guard != []
    requires IsRun(Apply(s, Fail(task, true)), steps) && CloseSession(task) !in steps
    ensures var t, u := s.tasks[task], After(Apply(s, Fail(task, true)), steps);
            && CleansUp(u, task, t.session, t.stage.guard, t.hasRef)
            && u.inputLock == Some(task)
            && (t.hasRef ==> u.operation == s.operation && s.operation.Some?)
            && t.session in u.sessions && !u.sessions[t.session].valid
  {
    ReachableInv(s);
    StepKeepsInv(s, Fail(task, true));
    var t := s.tasks[task];
    CleanupHoldsLocks(Apply(s, Fail(task, true)), steps, task, t.session, t.stage.guard, t.hasRef);
  }

  /** The guard dropped by an abnormal exit knew every key that may be down, also if the failed
      instruction itself went through. */
  lemma AbnormalExitKnowsTheKeys(s: State, task: nat, inRuntime: bool)
    requires Reachable(s) && Enabled(s, Fail(task, inRuntime))
    ensures Apply(s, Fail(task, inRuntime)).sessions[s.tasks[task].session].down
            <= multiset(s.tasks[task].stage.guard)
  {
    ReachableInv(s);
    var t := s.tasks[task];
    FailureSafe(t.action.Kind(), t.stage.rest, t.stage.guard, s.sessions[t.session].down);
  }

  /** While every release goes through, the keys still down are among those not yet attempted,
      which are the ones armed first. */
  lemma ReleasesGoInReverse(s: State, task: nat)
    requires Reachable(s) && task in s.tasks && s.tasks[task].stage.Releasing? && s.tasks[task].stage.clean
    ensures var stage := s.tasks[task].stage;
            && stage.attempted <= |stage.pressed|
            && s.tasks[task].session in s.sessions
            && s.sessions[s.tasks[task].session].down <= multiset(stage.pressed[..|stage.pressed| - stage.attempted])
  {
    ReachableInv(s);
    var stage := s.tasks[task].stage;
    FirstKeysAreSlice(stage.pressed, |stage.pressed| - stage.attempted);
  }

  /** A cleanup that attempted every release, all of them successful, leaves nothing pressed. */
  lemma CleanCleanupReleasesEverything(s: State, task: nat)
    requires Reachable(s) && Enabled(s, CloseSession(task))
    requires s.tasks[task].stage.clean && s.tasks[task].stage.attempted == |s.tasks[task].stage.pressed|
    ensures s.tasks[task].session in s.sessions && s.sessions[s.tasks[task].session].down == multiset{}
  {
    ReachableInv(s);
  }

  /** Invalid sessions stay invalid, so a session with keys stuck is never handed out again. */
  lemma {:induction false} InvalidForGood(s: State, steps: seq<Step>, session: nat)
    requires IsRun(s, steps) && session in s.sessions && !s.sessions[session].valid
    ensures session in After(s, steps).sessions && !After(s, steps).sessions[session].valid
    decreases |steps|
  {
    if steps != [] {
      StepInvalid(s, steps[0], session);
      InvalidForGood(Apply(s, steps[0]), steps[1..], session);
    }
  }

  lemma StepInvalid(s: State, step: Step, session: nat)
    requires Enabled(s, step) && session in s.sessions && !s.sessions[session].valid
    ensures session in Apply(s, step).sessions && !Apply(s, step).sessions[session].valid
  {
  }

  // ----- sessions that get no more input -----

  /** Whoever calls on the session is still queued. */
  predicate IsLeftAlone(s: State, session: nat)
  {
    && session in s.sessions && !s.sessions[session].valid
    && forall t | t in s.tasks && s.tasks[t].session == session :: s.tasks[t].stage.Queued?
  }

  lemma StepLeavesAlone(s: State, step: Step, session: nat)
    requires Enabled(s, step) && IsLeftAlone(s, session)
    ensures IsLeftAlone(Apply(s, step), session)
    ensures Apply(s, step).sessions[session].down == s.sessions[session].down
  {
    StepInvalid(s, step, session);
  }

  /** An invalid session nobody is working on never gets another key, button or motion: a call that comes
      to the head of the queue finds it invalid and leaves. */
  lemma {:induction false} InvalidSessionGetsNoInput(s: State, steps: seq<Step>, session: nat)
    requires IsRun(s, steps) && IsLeftAlone(s, session)
    ensures IsLeftAlone(After(s, steps), session)
    ensures After(s, steps).sessions[session].down == s.sessions[session].down
    decreases |steps|
  {
    if steps != [] {
      StepLeavesAlone(s, steps[0], session);
      InvalidSessionGetsNoInput(Apply(s, steps[0]), steps[1..], session);
    }
  }

  /** In particular a session whose monitor layout has changed, over every run from the call that noticed. */
  lemma ChangedLayoutGetsNoInput(s: State, task: nat, steps: seq<Step>)
    requires Reachable(s) && Enabled(s, PrepareFails(task, true)) && IsRun(Apply(s, PrepareFails(task, true)), steps)
    ensures var u := After(Apply(s, PrepareFails(task, true)), steps);
            IsLeftAlone(u, s.tasks[task].session) && u.sessions[s.tasks[task].session].down == multiset{}
  {
    ReachableInv(s);
    InvalidSessionGetsNoInput(Apply(s, PrepareFails(task, true)), steps, s.tasks[task].session);
  }
}
