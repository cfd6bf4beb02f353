/**
 The task that supervises an asynchronous helper command, as a step machine: two readers gather the
 output, the leader is waited for once all pipe tasks are done, and that is raced against a deadline
 and a cancellation. The task may itself be dropped at any wait.

 The child belongs to the inner future and the guard that kills the process group to the outer one,
 so a dropped task drops the child first; dropping a child tries to reap it.
 */
module CommandSupervision {
  import opened Prelude
  import opened CommandRunner

  /** The task that writes the standard input. */
  datatype Writer = Writing | Written | WriteFailed

  datatype Cause = NoProcessId | SetupFailed | CommandFailed | DeadlinePassed | CancelledByCaller

  datatype Phase =
    | Starting
    | Configuring
    | Collecting
    | Terminating(cause: Cause)
    | Succeeded(status: int, stdout: seq<byte>, stderr: seq<byte>)
    | Ended(why: Cause)
    | TaskDropped(reapedFirst: bool)

  datatype State = State(
    phase: Phase,
    stdin: Writer,
    stdout: Reader,
    stderr: Reader,
    exited: Option<int>,
    cancelled: bool,
    armed: bool,
    log: seq<Event>)

  /** `gone`: the leader has exited by the time the dropped child looks; it may die of the kill that
      dropping the child sends first. */
  datatype Step =
    | ProcessIdUnusable
    | GuardCreated
    | SetupFails
    | TasksSpawned(hasInput: bool)
    | LeaderExits(status: int)
    | StdinEnds(ok: bool)
    | StdoutReads(answer: ReadResult)
    | StderrReads(answer: ReadResult)
    | CallerGone
    | LeaderReaped
    | CommandFails(waitFailed: bool)
    | DeadlineFires
    | CancellationSeen
    | TerminationEnds(reaped: bool)
    | SupervisorDropped(gone: bool)

  /** A command that will write these two streams, whatever becomes of it. */
  function Init(stdout: seq<byte>, stderr: seq<byte>): State {
    State(Starting, Writing, NewReader(stdout), NewReader(stderr), None, false, false, [])
  }

  predicate AllCollected(s: State) {
    s.stdin.Written? && s.stdout.status.Finished? && s.stderr.status.Finished?
  }

  predicate AnyFailed(s: State) {
    s.stdin.WriteFailed? || s.stdout.status.Failed? || s.stderr.status.Failed?
  }

  predicate AtWait(s: State) {
    s.phase.Collecting? || s.phase.Terminating?
  }

  /** The leader is waited for only after all three pipe tasks are done, and reaped only once it has exited. */
  predicate Enabled(s: State, step: Step) {
    match step
    case ProcessIdUnusable => s.phase.Starting?
    case GuardCreated => s.phase.Starting?
    case SetupFails => s.phase.Configuring?
    case TasksSpawned(_) => s.phase.Configuring?
    case LeaderExits(_) => s.exited.None?
    case StdinEnds(_) => AtWait(s) && s.stdin.Writing?
    case StdoutReads(answer) => AtWait(s) && CanAnswer(s.stdout, answer)
    case StderrReads(answer) => AtWait(s) && CanAnswer(s.stderr, answer)
    case CallerGone => AtWait(s)
    case LeaderReaped => s.phase.Collecting? && AllCollected(s) && s.exited.Some?
    case CommandFails(waitFailed) => s.phase.Collecting? && (if waitFailed then AllCollected(s) else AnyFailed(s))
    case DeadlineFires => s.phase.Collecting?
    case CancellationSeen => s.phase.Collecting? && s.cancelled
    case TerminationEnds(reaped) => s.phase.Terminating? && (reaped ==> s.exited.Some?)
    case SupervisorDropped(gone) => AtWait(s) && (s.exited.Some? ==> gone)
  }

  /** The kill an armed guard issues, when asked to or when dropped. */
  function Killed(s: State, log: seq<Event>): seq<Event> {
    if s.armed then log + [GroupKilled] else log
  }

  function Terminate(s: State, cause: Cause): State {
    s.(phase := Terminating(cause), log := Killed(s, s.log))
  }

  function ReapedIf(reaped: bool, log: seq<Event>): seq<Event> {
    if reaped then log + [Reaped] else log
  }

  function Apply(s: State, step: Step): State
    requires Enabled(s, step)
  {
    match step
    case ProcessIdUnusable => s.(phase := Ended(NoProcessId))
    case GuardCreated => s.(phase := Configuring, armed := true)
    case SetupFails => s.(phase := Ended(SetupFailed), log := Killed(s, s.log), armed := false)
    case TasksSpawned(hasInput) => s.(phase := Collecting, stdin := if hasInput then Writing else Written)
    case LeaderExits(status) => s.(exited := Some(status))
    case StdinEnds(ok) => s.(stdin := if ok then Written else WriteFailed)
    case StdoutReads(answer) => s.(stdout := AfterRead(s.stdout, answer))
    case StderrReads(answer) => s.(stderr := AfterRead(s.stderr, answer))
    case CallerGone => s.(cancelled := true)
    case LeaderReaped =>
      s.(phase := Succeeded(s.exited.value, s.stdout.output, s.stderr.output), log := s.log + [Reaped], armed := false)
    case CommandFails(_) => Terminate(s, CommandFailed)
    case DeadlineFires => Terminate(s, DeadlinePassed)
    case CancellationSeen => Terminate(s, CancelledByCaller)
    case TerminationEnds(reaped) =>
      s.(phase := Ended(s.phase.cause), log := ReapedIf(reaped, s.log), armed := false)
    case SupervisorDropped(gone) =>
      s.(phase := TaskDropped(gone), log := Killed(s, ReapedIf(gone, s.log)), armed := false)
  }

  predicate IsRun(s: State, steps: seq<Step>)
    decreases |steps|
  {
    steps == [] || (Enabled(s, steps[0]) && IsRun(Apply(s, steps[0]), steps[1..]))
  }

  function After(s: State, steps: seq<Step>): State
    requires IsRun(s, steps)
    decreases |steps|
  {
    if steps == [] then s else After(Apply(s, steps[0]), steps[1..])
  }

  // ----- the invariant -----

  /** The readers are sound readers of the two streams. */
  predicate ReadersOk(s: State, stdout: seq<byte>, stderr: seq<byte>) {
    && ReaderOk(s.stdout) && s.stdout.stream == stdout
    && ReaderOk(s.stderr) && s.stderr.stream == stderr
    && (s.phase.Succeeded? ==> s.phase.stdout == stdout && s.phase.stderr == stderr && AllCollected(s))
  }

  /** An armed guard means an unreaped leader, and a kill has been issued exactly on the way to failure;
      a kill follows a reaping only where a dropped task has reaped its child first. */
  predicate LogOk(s: State) {
    && (KillsPrecedeReaping(s.log) <==> s.phase != TaskDropped(true))
    && (s.armed ==> Reaped !in s.log)
    && (s.armed <==> s.phase.Configuring? || AtWait(s))
    && (s.phase.Starting? || s.phase.Configuring? || s.phase.Collecting? ==> s.log == [])
    && (s.phase.Succeeded? ==> s.log == [Reaped])
    && (s.phase.Terminating? ==> s.log == [GroupKilled] && s.phase.cause != NoProcessId)
    && (s.phase.TaskDropped? ==> GroupKilled in s.log)
    && (s.phase.Ended? ==> if s.phase.why == NoProcessId then s.log == [] else GroupKilled in s.log)
  }

  lemma StepKeepsReaders(s: State, step: Step, stdout: seq<byte>, stderr: seq<byte>)
    requires ReadersOk(s, stdout, stderr) && Enabled(s, step)
    ensures ReadersOk(Apply(s, step), stdout, stderr)
  {
    if step.StdoutReads? {
      ReadKeepsReader(s.stdout, step.answer);
    } else if step.StderrReads? {
      ReadKeepsReader(s.stderr, step.answer);
    }
  }

  /** A log of a kill, or of none, followed by a reaping and a kill has the kill behind the reaping. */
  lemma KillBehindReaping(log: seq<Event>)
    ensures !KillsPrecedeReaping(log + [Reaped] + [GroupKilled])
  {
    var whole := log + [Reaped] + [GroupKilled];
    assert whole[|log|] == Reaped && whole[|log| + 1] == GroupKilled;
  }

  lemma StepKeepsLog(s: State, step: Step)
    requires LogOk(s) && Enabled(s, step)
    ensures LogOk(Apply(s, step))
  {
    if step.SupervisorDropped? && step.gone {
      KillBehindReaping(s.log);
    }
  }

  lemma {:induction false} RunKeepsInv(s: State, steps: seq<Step>, stdout: seq<byte>, stderr: seq<byte>)
    requires ReadersOk(s, stdout, stderr) && LogOk(s) && IsRun(s, steps)
    ensures ReadersOk(After(s, steps), stdout, stderr) && LogOk(After(s, steps))
    decreases |steps|
  {
    if steps != [] {
      StepKeepsReaders(s, steps[0], stdout, stderr);
      StepKeepsLog(s, steps[0]);
      RunKeepsInv(Apply(s, steps[0]), steps[1..], stdout, stderr);
    }
  }

  /** A task ends as dropped after a reaping exactly when that step was taken. */
  lemma {:induction false} DroppedByThatStep(s: State, steps: seq<Step>, gone: bool)
    requires IsRun(s, steps)
    ensures After(s, steps).phase == TaskDropped(gone) <==>
            s.phase == TaskDropped(gone) || SupervisorDropped(gone) in steps
    decreases |steps|
  {
    if steps != [] {
      DroppedByThatStep(Apply(s, steps[0]), steps[1..], gone);
      assert steps == [steps[0]] + steps[1..];
    }
  }

  // ----- what holds over every run -----

  /** A group kill follows the reaping of the leader exactly on the runs in which the supervisor is
      dropped with the leader gone. */
  lemma KillFollowsReapingExactlyOnLateDrop(steps: seq<Step>, stdout: seq<byte>, stderr: seq<byte>)
    requires IsRun(Init(stdout, stderr), steps)
    ensures !KillsPrecedeReaping(After(Init(stdout, stderr), steps).log) <==> SupervisorDropped(true) in steps
  {
    RunKeepsInv(Init(stdout, stderr), steps, stdout, stderr);
    DroppedByThatStep(Init(stdout, stderr), steps, true);
  }

  /** In particular whenever the leader has exited by itself and the task is then dropped at a wait. */
  lemma DropAfterExitKillsLate(steps: seq<Step>, stdout: seq<byte>, stderr: seq<byte>, gone: bool)
    requires IsRun(Init(stdout, stderr), steps)
    requires Enabled(After(Init(stdout, stderr), steps), SupervisorDropped(gone))
    requires After(Init(stdout, stderr), steps).exited.Some?
    ensures !KillsPrecedeReaping(Apply(After(Init(stdout, stderr), steps), SupervisorDropped(gone)).log)
  {
    RunKeepsInv(Init(stdout, stderr), steps, stdout, stderr);
    StepKeepsLog(After(Init(stdout, stderr), steps), SupervisorDropped(gone));
  }

  /** Such a run: the leader exits while something else still holds a pipe, and the task is dropped. */
  lemma LateDropHappens(stdout: seq<byte>, stderr: seq<byte>)
    ensures var steps := [GuardCreated, TasksSpawned(false), LeaderExits(0), SupervisorDropped(true)];
            IsRun(Init(stdout, stderr), steps) && After(Init(stdout, stderr), steps).log == [Reaped, GroupKilled]
  {
    var steps := [GuardCreated, TasksSpawned(false), LeaderExits(0), SupervisorDropped(true)];
    var s1 := Apply(Init(stdout, stderr), GuardCreated);
    var s2 := Apply(s1, TasksSpawned(false));
    var s3 := Apply(s2, LeaderExits(0));
    var s4 := Apply(s3, SupervisorDropped(true));
    assert steps[1..] == [TasksSpawned(false), LeaderExits(0), SupervisorDropped(true)];
    assert steps[1..][1..] == [LeaderExits(0), SupervisorDropped(true)];
    assert steps[1..][1..][1..] == [SupervisorDropped(true)];
    assert steps[1..][1..][1..][1..] == [];
    assert IsRun(s4, []) && After(s4, []) == s4;
    assert IsRun(s3, steps[1..][1..][1..]) && After(s3, steps[1..][1..][1..]) == s4;
    assert IsRun(s2, steps[1..][1..]) && After(s2, steps[1..][1..]) == s4;
    assert IsRun(s1, steps[1..]) && After(s1, steps[1..]) == s4;
  }

  predicate IsOver(s: State) {
    s.phase.Succeeded? || s.phase.Ended? || s.phase.TaskDropped?
  }

  /** Every ending but success has killed the group, unless there never was a process id to kill. */
  lemma EveryFailureKills(steps: seq<Step>, stdout: seq<byte>, stderr: seq<byte>)
    requires IsRun(Init(stdout, stderr), steps) && IsOver(After(Init(stdout, stderr), steps))
    ensures var s := After(Init(stdout, stderr), steps);
            GroupKilled in s.log <==> !s.phase.Succeeded? && s.phase != Ended(NoProcessId)
  {
    RunKeepsInv(Init(stdout, stderr), steps, stdout, stderr);
  }

  /** A status on record is that with which the leader exited, and it stays. */
  lemma {:induction false} StatusIsTheLeaders(s: State, steps: seq<Step>)
    requires IsRun(s, steps)
    ensures s.exited.Some? ==> After(s, steps).exited == s.exited
    ensures s.exited.None? && After(s, steps).exited.Some? ==> LeaderExits(After(s, steps).exited.value) in steps
    ensures (s.phase.Succeeded? ==> s.exited == Some(s.phase.status)) ==>
              var t := After(s, steps);
              t.phase.Succeeded? ==> t.exited == Some(t.phase.status)
    decreases |steps|
  {
    if steps != [] {
      StatusIsTheLeaders(Apply(s, steps[0]), steps[1..]);
      assert steps == [steps[0]] + steps[1..];
    }
  }

  /** The output of a success is the whole of both streams, within the bound, however the reads were
      interleaved with everything else; its status is the one the leader exited with, which was reaped and
      never killed. */
  lemma SuccessIsWholeAndUnharmed(steps: seq<Step>, stdout: seq<byte>, stderr: seq<byte>)
    requires IsRun(Init(stdout, stderr), steps) && After(Init(stdout, stderr), steps).phase.Succeeded?
    ensures var s := After(Init(stdout, stderr), steps);
            && s.phase.stdout == stdout && s.phase.stderr == stderr
            && |stdout| <= MAX_COMMAND_OUTPUT_BYTES && |stderr| <= MAX_COMMAND_OUTPUT_BYTES
            && s.log == [Reaped] && LeaderExits(s.phase.status) in steps
  {
    RunKeepsInv(Init(stdout, stderr), steps, stdout, stderr);
    StatusIsTheLeaders(Init(stdout, stderr), steps);
  }
}
