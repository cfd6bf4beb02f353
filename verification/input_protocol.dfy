/**
 Clicks, drags, text and chords of any number of callers, all through one input lock, with
 failure or cancellation possible at every await, as a machine over atomic steps.

 A task is one call of a portal action. It queues for the input lock, prepares (validity,
 layout, proxy), acts, and if it exits with keys armed turns into its own cleanup task.

 The guard of the operation lock is counted by reference: the request handler, portal actions and
 operations spawned to survive their caller (`detached`) hold references.
 */
module InputProtocol {
  import opened Prelude
  import opened InputScripts

  datatype Stage =
    | Queued
    | Preparing
    | Acting(guard: seq<Key>, rest: seq<Instr>)
    | Releasing(pressed: seq<Key>, attempted: nat, clean: bool)
    | Closing(pressed: seq<Key>, attempted: nat, clean: bool)

  /** `hasRef`: the task owns one reference to the guard of the operation lock. */
  datatype Task = Task(session: nat, action: Action, hasRef: bool, stage: Stage)

  /** `down` over-approximates what the compositor holds pressed for the session. */
  datatype Session = Session(valid: bool, down: multiset<Key>)

  datatype State = State(
    sessions: map<nat, Session>,
    tasks: map<nat, Task>,
    inputLock: Option<nat>,
    operation: Option<nat>,
    operationRefs: nat,
    handlerRefs: nat,
    detached: nat)

  datatype Step =
    | NewSession(session: nat)
    | Invalidate(session: nat)
    | BeginOperation(op: nat)
    | CloneRef
    | DropHandlerRef
    | Detach
    | DetachedReturns
    | DetachedEndsAlone
    | Call(task: nat, session: nat, action: Action, withRef: bool)
    | AbandonQueue(task: nat)
    | TakeInputLock(task: nat)
    | PrepareFails(task: nat, layoutChanged: bool)
    | Prepared(task: nat)
    | Advance(task: nat)
    | Fail(task: nat, inRuntime: bool)
    | Complete(task: nat)
    | TryRelease(task: nat, ok: bool)
    | EndReleases(task: nat)
    | CloseSession(task: nat)

  function Init(): State
  {
    State(map[], map[], None, None, 0, 0, 0)
  }

  // ----- steps -----

  predicate IsActing(s: State, task: nat)
  {
    task in s.tasks && s.tasks[task].stage.Acting? && s.tasks[task].session in s.sessions
  }

  predicate IsReleasing(s: State, task: nat)
  {
    task in s.tasks && s.tasks[task].stage.Releasing? && s.tasks[task].session in s.sessions
  }

  predicate Enabled(s: State, step: Step)
  {
    match step
    case NewSession(session) => session !in s.sessions
    case Invalidate(session) => session in s.sessions
    case BeginOperation(_) => s.operation.None?
    case CloneRef => s.handlerRefs > 0
    case DropHandlerRef => s.handlerRefs > 0 && s.operationRefs > 0
    case Detach => s.handlerRefs > 0
    case DetachedReturns => s.detached > 0
    case DetachedEndsAlone => s.detached > 0 && s.operationRefs > 0
    case Call(task, session, _, withRef) =>
      task !in s.tasks && session in s.sessions && (withRef ==> s.handlerRefs > 0)
    case AbandonQueue(task) => task in s.tasks && s.tasks[task].stage.Queued?
    case TakeInputLock(task) =>
      && task in s.tasks && s.tasks[task].stage.Queued? && s.tasks[task].session in s.sessions
      && s.inputLock.None?
    case PrepareFails(task, _) =>
      task in s.tasks && s.tasks[task].stage.Preparing? && s.tasks[task].session in s.sessions
    case Prepared(task) => task in s.tasks && s.tasks[task].stage.Preparing?
    case Advance(task) => IsActing(s, task) && s.tasks[task].stage.rest != []
    case Fail(task, _) =>
      IsActing(s, task) && s.tasks[task].stage.rest != [] && Awaits(s.tasks[task].stage.rest[0])
    case Complete(task) => IsActing(s, task) && s.tasks[task].stage.rest == []
    case TryRelease(task, _) =>
      IsReleasing(s, task) && s.tasks[task].stage.attempted < |s.tasks[task].stage.pressed|
    case EndReleases(task) => IsReleasing(s, task)
    case CloseSession(task) => task in s.tasks && s.tasks[task].stage.Closing?
  }

  function ToStage(s: State, task: nat, stage: Stage): State
    requires task in s.tasks
  {
    s.(tasks := s.tasks[task := s.tasks[task].(stage := stage)])
  }

  function SetDown(s: State, session: nat, down: multiset<Key>): State
    requires session in s.sessions
  {
    s.(sessions := s.sessions[session := s.sessions[session].(down := down)])
  }

  function Invalidated(s: State, session: nat): State
    requires session in s.sessions
  {
    s.(sessions := s.sessions[session := s.sessions[session].(valid := false)])
  }

  /** Drop one reference to the operation guard; the last one frees the operation lock. */
  function DropRef(s: State): State
  {
    if s.operationRefs <= 1 then s.(operationRefs := 0, operation := None)
    else s.(operationRefs := s.operationRefs - 1)
  }

  /** The task ends and lets go of what it holds. */
  function Leave(s: State, task: nat): State
    requires task in s.tasks
  {
    var t := s.(tasks := s.tasks - {task},
                inputLock := if s.inputLock == Some(task) then None else s.inputLock);
    if s.tasks[task].hasRef then DropRef(t) else t
  }

  /** Dropping the release guard: nothing armed, or invalidate and hand both locks to a cleanup task.
      Outside an async runtime no cleanup task can be spawned. */
  function DropGuard(s: State, task: nat, guard: seq<Key>, inRuntime: bool): State
    requires task in s.tasks && s.tasks[task].session in s.sessions
  {
    if guard == [] then Leave(s, task)
    else
      var t := Invalidated(s, s.tasks[task].session);
      if inRuntime then ToStage(t, task, Releasing(guard, 0, true)) else Leave(t, task)
  }

  function AfterAdvance(s: State, task: nat): State
    requires Enabled(s, Advance(task))
  {
    var t := s.tasks[task];
    var i := t.stage.rest[0];
    ToStage(SetDown(s, t.session, DownStep(s.sessions[t.session].down, i)), task,
            Acting(GuardStep(t.action.Kind(), t.stage.guard, i), t.stage.rest[1..]))
  }

  function AfterFail(s: State, task: nat, inRuntime: bool): State
    requires Enabled(s, Fail(task, inRuntime))
  {
    var t := s.tasks[task];
    DropGuard(SetDown(s, t.session, DownAfterFailure(s.sessions[t.session].down, t.stage.rest[0])),
              task, t.stage.guard, inRuntime)
  }

  /** The next key to release: the last one armed goes first. */
  function NextRelease(stage: Stage): Key
    requires stage.Releasing? && stage.attempted < |stage.pressed|
  {
    stage.pressed[|stage.pressed| - 1 - stage.attempted]
  }

  function AfterTryRelease(s: State, task: nat, ok: bool): State
    requires Enabled(s, TryRelease(task, ok))
  {
    var t := s.tasks[task];
    var key := NextRelease(t.stage);
    var down := s.sessions[t.session].down;
    ToStage(SetDown(s, t.session, if ok then down - multiset{key} else down), task,
            Releasing(t.stage.pressed, t.stage.attempted + 1, t.stage.clean && ok))
  }

  function Apply(s: State, step: Step): State
    requires Enabled(s, step)
  {
    match step
    case NewSession(session) => s.(sessions := s.sessions[session := Session(true, multiset{})])
    case Invalidate(session) => Invalidated(s, session)
    case BeginOperation(op) => s.(operation := Some(op), operationRefs := 1, handlerRefs := 1)
    case CloneRef => s.(operationRefs := s.operationRefs + 1, handlerRefs := s.handlerRefs + 1)
    case DropHandlerRef => DropRef(s.(handlerRefs := s.handlerRefs - 1))
    case Detach => s.(handlerRefs := s.handlerRefs - 1, detached := s.detached + 1)
    case DetachedReturns => s.(handlerRefs := s.handlerRefs + 1, detached := s.detached - 1)
    case DetachedEndsAlone => DropRef(s.(detached := s.detached - 1))
    case Call(task, session, action, withRef) =>
      s.(tasks := s.tasks[task := Task(session, action, withRef, Queued)],
         handlerRefs := if withRef then s.handlerRefs - 1 else s.handlerRefs)
    case AbandonQueue(task) => Leave(s, task)
    case TakeInputLock(task) =>
      if s.sessions[s.tasks[task].session].valid then ToStage(s.(inputLock := Some(task)), task, Preparing)
      else Leave(s, task)
    case PrepareFails(task, layoutChanged) =>
      Leave(if layoutChanged then Invalidated(s, s.tasks[task].session) else s, task)
    case Prepared(task) => ToStage(s, task, Acting([], s.tasks[task].action.Script()))
    case Advance(task) => AfterAdvance(s, task)
    case Fail(task, inRuntime) => AfterFail(s, task, inRuntime)
    case Complete(task) => DropGuard(s, task, s.tasks[task].stage.guard, true)
    case TryRelease(task, ok) => AfterTryRelease(s, task, ok)
    case EndReleases(task) =>
      var stage := s.tasks[task].stage;
      ToStage(s, task, Closing(stage.pressed, stage.attempted, stage.clean))
    case CloseSession(task) => Leave(s, task)
  }

  // ----- runs -----

  predicate IsRun(s: State, steps: seq<Step>)
    decreases |steps|
  {
    steps == [] || (Enabled(s, steps[0]) && IsRun(Apply(s, steps[0]), steps[1..]))
  }

  function After(s: State, steps: seq<Step>): State
    requires IsRun(s, steps)
    decreases |steps|
  {
    if steps == [] then s else After(Apply(s, steps[0]), steps[1..])
  }

  ghost predicate Reachable(s: State)
  {
    exists steps :: IsRun(Init(), steps) && s == After(Init(), steps)
  }

  // ----- the invariant -----

  /** Every task past the queue is the one that holds the input lock, and its session exists. */
  predicate LockOk(s: State)
  {
    && (s.inputLock.Some? ==> s.inputLock.value in s.tasks)
    && (forall t | t in s.tasks ::
          && s.tasks[t].session in s.sessions
          && (s.inputLock == Some(t) <==> !s.tasks[t].stage.Queued?))
  }

  /** What the stage of the lock holder says about the keys of its session. */
  predicate StageOk(task: Task, session: Session)
  {
    match task.stage
    case Queued => true
    case Preparing => session.down == multiset{}
    case Acting(guard, rest) => Safe(task.action.Kind(), rest, guard, session.down)
    case Releasing(pressed, attempted, clean) => !session.valid && Pending(pressed, attempted, clean, session.down)
    case Closing(pressed, attempted, clean) => !session.valid && Pending(pressed, attempted, clean, session.down)
  }

  /** Only keys that were armed may be down; as long as every release went through, only those not yet released. */
  predicate Pending(pressed: seq<Key>, attempted: nat, clean: bool, down: multiset<Key>)
  {
    && attempted <= |pressed|
    && down <= multiset(pressed)
    && (clean ==> down <= FirstKeys(pressed, |pressed| - attempted))
  }

  /** The first `n` keys armed, counting repetitions. */
  function FirstKeys(pressed: seq<Key>, n: nat): multiset<Key>
    requires n <= |pressed|
  {
    if n == 0 then multiset{} else FirstKeys(pressed, n - 1) + multiset{pressed[n - 1]}
  }

  lemma {:induction false} FirstKeysAreSlice(pressed: seq<Key>, n: nat)
    requires n <= |pressed|
    ensures FirstKeys(pressed, n) == multiset(pressed[..n])
  {
    if n > 0 {
      FirstKeysAreSlice(pressed, n - 1);
      assert pressed[..n] == pressed[..n - 1] + [pressed[n - 1]];
    }
  }

  predicate HolderOk(s: State)
    requires LockOk(s)
  {
    s.inputLock.Some? ==> StageOk(s.tasks[s.inputLock.value], s.sessions[s.tasks[s.inputLock.value].session])
  }

  /** A valid session on which the lock holder is not working has nothing down. */
  predicate OthersUp(s: State)
    requires LockOk(s)
  {
    forall i | i in s.sessions && s.sessions[i].valid
               && (s.inputLock.Some? ==> s.tasks[s.inputLock.value].session != i) ::
      s.sessions[i].down == multiset{}
  }

  function Referents(tasks: map<nat, Task>): set<nat>
  {
    set t | t in tasks && tasks[t].hasRef
  }

  /** The reference count of the operation guard is right, and the lock is held while it is positive. */
  predicate RefsOk(s: State)
  {
    && s.operationRefs == s.handlerRefs + s.detached + |Referents(s.tasks)|
    && (s.operation.Some? <==> s.operationRefs > 0)
  }

  predicate Inv(s: State)
  {
    LockOk(s) && HolderOk(s) && OthersUp(s) && RefsOk(s)
  }

  lemma ReferentsWithout(tasks: map<nat, Task>, task: nat)
    requires task in tasks
    ensures |Referents(tasks - {task})| == |Referents(tasks)| - (if tasks[task].hasRef then 1 else 0)
  {
    assert Referents(tasks - {task}) == Referents(tasks) - {task};
  }

  lemma ReferentsWith(tasks: map<nat, Task>, task: nat, t: Task)
    requires task !in tasks
    ensures |Referents(tasks[task := t])| == |Referents(tasks)| + (if t.hasRef then 1 else 0)
  {
    assert Referents(tasks[task := t]) == if t.hasRef then Referents(tasks) + {task} else Referents(tasks);
  }

  lemma ReferentsSame(tasks: map<nat, Task>, task: nat, t: Task)
    requires task in tasks && t.hasRef == tasks[task].hasRef
    ensures |Referents(tasks[task := t])| == |Referents(tasks)|
  {
    assert Referents(tasks[task := t]) == Referents(tasks);
  }

  /** Leaving keeps the invariant when the session is invalid or has nothing down. */
  lemma LeaveKeepsInv(s: State, task: nat)
    requires LockOk(s) && RefsOk(s) && OthersUp(s) && task in s.tasks
    requires s.tasks[task].stage.Queued? ==> HolderOk(s)
    requires !s.tasks[task].stage.Queued? ==>
               var session := s.sessions[s.tasks[task].session];
               session.valid ==> session.down == multiset{}
    ensures Inv(Leave(s, task))
  {
    ReferentsWithout(s.tasks, task);
  }

  /** The holder moves to another stage that fits its session. */
  lemma StageKeepsInv(s: State, task: nat, stage: Stage, session: Session)
    requires LockOk(s) && RefsOk(s) && OthersUp(s) && s.inputLock == Some(task)
    requires !stage.Queued? && StageOk(s.tasks[task].(stage := stage), session)
    ensures Inv(ToStage(s.(sessions := s.sessions[s.tasks[task].session := session]), task, stage))
  {
    ReferentsSame(s.tasks, task, s.tasks[task].(stage := stage));
  }

  /** A failed instruction leaves no more down than the guard knows. */
  lemma FailureSafe(kind: GuardKind, script: seq<Instr>, guard: seq<Key>, down: multiset<Key>)
    requires Safe(kind, script, guard, down) && script != [] && Awaits(script[0])
    ensures DownAfterFailure(down, script[0]) <= multiset(guard)
  {
  }

  lemma QueueStepKeepsInv(s: State, step: Step)
    requires Inv(s) && Enabled(s, step)
    requires step.NewSession? || step.Invalidate? || step.BeginOperation? || step.CloneRef? || step.DropHandlerRef?
             || step.Detach? || step.DetachedReturns? || step.DetachedEndsAlone?
    ensures Inv(Apply(s, step))
  {
  }

  lemma CallKeepsInv(s: State, step: Step)
    requires Inv(s) && Enabled(s, step) && step.Call?
    ensures Inv(Apply(s, step))
  {
    ReferentsWith(s.tasks, step.task, Task(step.session, step.action, step.withRef, Queued));
  }

  lemma TakeLockKeepsInv(s: State, task: nat)
    requires Inv(s) && Enabled(s, TakeInputLock(task))
    ensures Inv(Apply(s, TakeInputLock(task)))
  {
    if s.sessions[s.tasks[task].session].valid {
      ReferentsSame(s.tasks, task, s.tasks[task].(stage := Preparing));
    } else {
      LeaveKeepsInv(s, task);
    }
  }

  lemma PrepareStepKeepsInv(s: State, step: Step)
    requires Inv(s) && Enabled(s, step) && (step.PrepareFails? || step.Prepared?)
    ensures Inv(Apply(s, step))
  {
    var t := s.tasks[step.task];
    if step.PrepareFails? {
      LeaveKeepsInv(if step.layoutChanged then Invalidated(s, t.session) else s, step.task);
    } else {
      ActionSafe(t.action);
      assert s.sessions[t.session := s.sessions[t.session]] == s.sessions;
      StageKeepsInv(s, step.task, Acting([], t.action.Script()), s.sessions[t.session]);
    }
  }

  lemma AdvanceKeepsInv(s: State, task: nat)
    requires Inv(s) && Enabled(s, Advance(task))
    ensures Inv(AfterAdvance(s, task))
  {
    var t := s.tasks[task];
    var session := s.sessions[t.session];
    var i := t.stage.rest[0];
    StageKeepsInv(s, task, Acting(GuardStep(t.action.Kind(), t.stage.guard, i), t.stage.rest[1..]),
                  session.(down := DownStep(session.down, i)));
  }

  /** Dropping a guard that knows every key possibly down keeps the invariant. */
  lemma DropGuardKeepsInv(s: State, task: nat, guard: seq<Key>, inRuntime: bool)
    requires LockOk(s) && RefsOk(s) && OthersUp(s) && s.inputLock == Some(task)
    requires s.sessions[s.tasks[task].session].down <= multiset(guard)
    ensures Inv(DropGuard(s, task, guard, inRuntime))
  {
    if guard == [] {
      LeaveKeepsInv(s, task);
    } else if inRuntime {
      var session := s.sessions[s.tasks[task].session].(valid := false);
      FirstKeysAreSlice(guard, |guard|);
      assert guard[..|guard|] == guard;
      StageKeepsInv(s, task, Releasing(guard, 0, true), session);
    } else {
      LeaveKeepsInv(Invalidated(s, s.tasks[task].session), task);
    }
  }

  lemma FailKeepsInv(s: State, task: nat, inRuntime: bool)
    requires Inv(s) && Enabled(s, Fail(task, inRuntime))
    ensures Inv(AfterFail(s, task, inRuntime))
  {
    var t := s.tasks[task];
    var down := s.sessions[t.session].down;
    FailureSafe(t.action.Kind(), t.stage.rest, t.stage.guard, down);
    DropGuardKeepsInv(SetDown(s, t.session, DownAfterFailure(down, t.stage.rest[0])), task, t.stage.guard, inRuntime);
  }

  function AttemptedStage(stage: Stage, ok: bool): Stage
    requires stage.Releasing?
  {
    Releasing(stage.pressed, stage.attempted + 1, stage.clean && ok)
  }

  function DownAfterAttempt(t: Task, session: Session, ok: bool): multiset<Key>
    requires t.stage.Releasing? && t.stage.attempted < |t.stage.pressed|
  {
    if ok then session.down - multiset{NextRelease(t.stage)} else session.down
  }

  /** One more release attempt, from the top of the stack: the rest still covers what may be down. */
  lemma PendingShrinks(t: Task, session: Session, ok: bool)
    requires t.stage.Releasing? && t.stage.attempted < |t.stage.pressed|
    requires Pending(t.stage.pressed, t.stage.attempted, t.stage.clean, session.down)
    ensures Pending(t.stage.pressed, t.stage.attempted + 1, t.stage.clean && ok, DownAfterAttempt(t, session, ok))
  {
    var n := |t.stage.pressed| - t.stage.attempted;
    assert FirstKeys(t.stage.pressed, n) == FirstKeys(t.stage.pressed, n - 1) + multiset{t.stage.pressed[n - 1]};
  }

  lemma TryReleaseStageOk(t: Task, session: Session, ok: bool)
    requires t.stage.Releasing? && t.stage.attempted < |t.stage.pressed| && StageOk(t, session)
    ensures StageOk(t.(stage := AttemptedStage(t.stage, ok)), session.(down := DownAfterAttempt(t, session, ok)))
  {
    PendingShrinks(t, session, ok);
  }

  lemma AttemptIsStage(s: State, task: nat, ok: bool)
    requires Enabled(s, TryRelease(task, ok))
    ensures var t := s.tasks[task];
            var session := s.sessions[t.session];
            AfterTryRelease(s, task, ok) ==
            ToStage(s.(sessions := s.sessions[t.session := session.(down := DownAfterAttempt(t, session, ok))]), task,
                    AttemptedStage(t.stage, ok))
  {
  }

  lemma TryReleaseKeepsInv(s: State, task: nat, ok: bool)
    requires Inv(s) && Enabled(s, TryRelease(task, ok))
    ensures Inv(AfterTryRelease(s, task, ok))
  {
    var t := s.tasks[task];
    var session := s.sessions[t.session];
    TryReleaseStageOk(t, session, ok);
    StageKeepsInv(s, task, AttemptedStage(t.stage, ok), session.(down := DownAfterAttempt(t, session, ok)));
    AttemptIsStage(s, task, ok);
  }

  lemma EndReleasesKeepsInv(s: State, task: nat)
    requires Inv(s) && Enabled(s, EndReleases(task))
    ensures Inv(Apply(s, EndReleases(task)))
  {
    var t := s.tasks[task];
    assert s.sessions[t.session := s.sessions[t.session]] == s.sessions;
    StageKeepsInv(s, task, Closing(t.stage.pressed, t.stage.attempted, t.stage.clean), s.sessions[t.session]);
  }

  lemma StepKeepsInv(s: State, step: Step)
    requires Inv(s) && Enabled(s, step)
    ensures Inv(Apply(s, step))
  {
    match step
    case NewSession(_) => QueueStepKeepsInv(s, step);
    case Invalidate(_) => QueueStepKeepsInv(s, step);
    case BeginOperation(_) => QueueStepKeepsInv(s, step);
    case CloneRef => QueueStepKeepsInv(s, step);
    case DropHandlerRef => QueueStepKeepsInv(s, step);
    case Detach => QueueStepKeepsInv(s, step);
    case DetachedReturns => QueueStepKeepsInv(s, step);
    case DetachedEndsAlone => QueueStepKeepsInv(s, step);
    case Call(_, _, _, _) => CallKeepsInv(s, step);
    case AbandonQueue(task) => LeaveKeepsInv(s, task);
    case TakeInputLock(task) => TakeLockKeepsInv(s, task);
    case PrepareFails(_, _) => PrepareStepKeepsInv(s, step);
    case Prepared(_) => PrepareStepKeepsInv(s, step);
    case Advance(task) => AdvanceKeepsInv(s, task);
    case Fail(task, inRuntime) => FailKeepsInv(s, task, inRuntime);
    case Complete(task) => DropGuardKeepsInv(s, task, s.tasks[task].stage.guard, true);
    case TryRelease(task, ok) => TryReleaseKeepsInv(s, task, ok);
    case EndReleases(task) => EndReleasesKeepsInv(s, task);
    case CloseSession(task) => LeaveKeepsInv(s, task);
  }

  lemma {:induction false} RunKeepsInv(s: State, steps: seq<Step>)
    requires Inv(s) && IsRun(s, steps)
    ensures Inv(After(s, steps))
    decreases |steps|
  {
    if steps != [] {
      StepKeepsInv(s, steps[0]);
      RunKeepsInv(Apply(s, steps[0]), steps[1..]);
    }
  }

  lemma ReachableInv(s: State)
    requires Reachable(s)
    ensures Inv(s)
  {
    var steps :| IsRun(Init(), steps) && s == After(Init(), steps);
    RunKeepsInv(Init(), steps);
  }
}
