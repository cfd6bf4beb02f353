/**
 Running a helper command: its output pipes are drained within fixed bounds. On the blocking path its
 process group is killed on every ending but success, and never once the group's leader has been reaped.
 */
module CommandRunner {
  import opened Prelude

  type byte = bv8

  const READ_SIZE: nat := 8192
  const MAX_BLOCKING_OUTPUT_BYTES: nat := 1024 * 1024
  const MAX_BLOCKING_DRAIN_BYTES: nat := 64 * 1024
  const MAX_COMMAND_OUTPUT_BYTES: nat := 8 * 1024 * 1024

  /** What the operating system answers to one read. */
  datatype Answer = Data(length: nat) | End | NotReady | Interruption | Failure

  datatype ReadResult = Chunk(bytes: seq<byte>) | Eof | WouldBlock | Interrupted | ReadFailed

  /** A pipe: the whole stream that is ever written to it, how much of it has been read, and the
      answers to come. After the last of them it has nothing to say. */
  class Pipe {
    const stream: seq<byte>
    var pos: nat
    var answers: seq<Answer>
    /** What the latest read came to, and how many calls have drained the pipe. */
    ghost var latest: Option<ReadResult>
    ghost var drains: nat

    ghost predicate Valid()
      reads this
    {
      pos <= |stream|
    }

    constructor (stream: seq<byte>, answers: seq<Answer>)
      ensures Valid() && pos == 0 && this.stream == stream && this.answers == answers && IsFresh()
    {
      this.stream, this.pos, this.answers := stream, 0, answers;
      this.latest, this.drains := None, 0;
    }

    ghost predicate IsFresh()
      reads this
    {
      pos == 0 && latest.None? && drains == 0
    }

    /** The end is reported only when the whole stream has been read. */
    method Read(limit: nat) returns (r: ReadResult)
      requires Valid() && limit > 0
      modifies this
      ensures Valid() && latest == Some(r) && drains == old(drains)
      ensures r.Chunk? ==> 0 < |r.bytes| <= limit && stream[..pos] == stream[..old(pos)] + r.bytes
      ensures !r.Chunk? ==> pos == old(pos)
      ensures r.Eof? ==> pos == |stream|
      ensures r.ReadFailed? ==> Failure in old(answers)
      ensures r.Interrupted? ==> Interruption in old(answers)
      ensures old(answers) == [] ==> r.WouldBlock? && answers == []
      ensures old(answers) != [] ==> answers == old(answers)[1..]
    {
      r := WouldBlock;
      if answers != [] {
        var answer := answers[0];
        answers := answers[1..];
        match answer
        case Data(n) =>
          var available := |stream| - pos;
          if available > 0 {
            var most := if available < limit then available else limit;
            var length := if n == 0 then 1 else if n < most then n else most;
            r := Chunk(stream[pos..pos + length]);
            pos := pos + length;
          }
        case End => r := if pos == |stream| then Eof else WouldBlock;
        case NotReady =>
        case Interruption => r := Interrupted;
        case Failure => r := ReadFailed;
      }
      latest := Some(r);
    }
  }

  datatype CommandError = Unusable | TooMuchOutput | ReadError | SetupError | WaitError | TimedOut

  /** One call appends exactly what it reads, keeps the buffer within its bound and stops soon after
      64 KiB; it reports the end only when the whole stream has been collected. */
  method DrainNonblocking(pipe: Pipe, output: seq<byte>) returns (r: Result<bool, CommandError>, collected: seq<byte>)
    requires pipe.Valid() && output == pipe.stream[..pipe.pos] && |output| <= MAX_BLOCKING_OUTPUT_BYTES
    modifies pipe
    ensures pipe.Valid()
    ensures output <= collected <= pipe.stream && |collected| <= MAX_BLOCKING_OUTPUT_BYTES
    ensures |collected| - |output| < MAX_BLOCKING_DRAIN_BYTES + READ_SIZE
    ensures r.Ok? ==> collected == pipe.stream[..pipe.pos]
    ensures r.Ok? && r.value ==> collected == pipe.stream
    ensures r == Ok(true) <==> pipe.latest == Some(Eof)
    ensures r == Ok(false) ==> pipe.latest == Some(WouldBlock) || |collected| - |output| >= MAX_BLOCKING_DRAIN_BYTES
    ensures pipe.drains == old(pipe.drains) + 1
    ensures r == Err(TooMuchOutput) ==> |pipe.stream| > MAX_BLOCKING_OUTPUT_BYTES
    ensures r.Err? ==> r.error == TooMuchOutput || (r.error == ReadError && Failure in old(pipe.answers))
    ensures forall a | a in pipe.answers :: a in old(pipe.answers)
  {
    collected := output;
    pipe.drains := pipe.drains + 1;
    var drained := 0;
    while true
      invariant pipe.Valid() && pipe.drains == old(pipe.drains) + 1
      invariant output <= collected == pipe.stream[..pipe.pos] && |collected| <= MAX_BLOCKING_OUTPUT_BYTES
      invariant drained == |collected| - |output| < MAX_BLOCKING_DRAIN_BYTES
      invariant forall a | a in pipe.answers :: a in old(pipe.answers)
      decreases |pipe.answers|
    {
      var read := pipe.Read(READ_SIZE);
      match read
      case Eof =>
        assert pipe.stream[..pipe.pos] == pipe.stream;
        return Ok(true), collected;
      case Chunk(bytes) =>
        if |collected| + |bytes| > MAX_BLOCKING_OUTPUT_BYTES {
          return Err(TooMuchOutput), collected;
        }
        collected := collected + bytes;
        drained := drained + |bytes|;
        if drained >= MAX_BLOCKING_DRAIN_BYTES {
          return Ok(false), collected;
        }
      case WouldBlock => return Ok(false), collected;
      case Interrupted =>
      case ReadFailed => return Err(ReadError), collected;
    }
  }

  /** A pipe that has ended is left alone. */
  method DrainUnlessEnded(pipe: Pipe, ended: bool, output: seq<byte>)
    returns (r: Result<bool, CommandError>, collected: seq<byte>)
    requires pipe.Valid() && output == pipe.stream[..pipe.pos] && |output| <= MAX_BLOCKING_OUTPUT_BYTES
    requires (ended <==> pipe.latest == Some(Eof)) && (ended ==> output == pipe.stream)
    modifies pipe
    ensures pipe.Valid() && |collected| <= MAX_BLOCKING_OUTPUT_BYTES
    ensures r.Ok? ==> collected == pipe.stream[..pipe.pos] && (r.value <==> pipe.latest == Some(Eof))
    ensures r.Ok? && r.value ==> collected == pipe.stream
    ensures pipe.drains == old(pipe.drains) + (if ended then 0 else 1) && (ended ==> r == Ok(true))
    ensures r.Err? ==>
              || (r.error == TooMuchOutput && |pipe.stream| > MAX_BLOCKING_OUTPUT_BYTES)
              || (r.error == ReadError && Failure in old(pipe.answers))
    ensures forall a | a in pipe.answers :: a in old(pipe.answers)
  {
    if ended {
      return Ok(true), output;
    }
    r, collected := DrainNonblocking(pipe, output);
  }

  // ----- the child process -----

  datatype Event = GroupKilled | Reaped

  datatype WaitAnswer = Running | Exited(status: int) | WaitFailed

  /** No group kill follows the reaping of the leader. */
  predicate KillsPrecedeReaping(log: seq<Event>) {
    forall i, j | 0 <= i < j < |log| :: log[i] == Reaped ==> log[j] != GroupKilled
  }

  class Child {
    var waits: seq<WaitAnswer>
    ghost var log: seq<Event>
    /** What waiting was answered before the group was first killed. */
    ghost var looks: seq<WaitAnswer>

    constructor (waits: seq<WaitAnswer>)
      ensures log == [] && looks == [] && this.waits == waits
    {
      this.waits, this.log, this.looks := waits, [], [];
    }

    /** An exited leader is reaped by the wait that reports it. */
    method TryWait() returns (r: WaitAnswer)
      modifies this
      ensures log == if r.Exited? then old(log) + [Reaped] else old(log)
      ensures looks == if GroupKilled in old(log) then old(looks) else old(looks) + [r]
      ensures r == Running || r in old(waits)
      ensures forall a | a in waits :: a in old(waits)
    {
      r := Running;
      if waits != [] {
        r, waits := waits[0], waits[1..];
      }
      if GroupKilled !in log {
        looks := looks + [r];
      }
      if r.Exited? {
        log := log + [Reaped];
      }
    }

    method KillGroup()
      modifies this`log
      ensures log == old(log) + [GroupKilled]
    {
      log := log + [GroupKilled];
    }
  }

  /** Kill the group, then give the leader `polls` chances to be reaped. */
  method TerminateBlockingProcess(child: Child, polls: nat)
    requires Reaped !in child.log
    modifies child
    ensures KillsPrecedeReaping(child.log) && GroupKilled in child.log && child.looks == old(child.looks)
  {
    child.KillGroup();
    for i := 0 to polls
      invariant Reaped !in child.log && GroupKilled in child.log && child.looks == old(child.looks)
    {
      var answer := child.TryWait();
      if !answer.Running? {
        return;
      }
    }
  }

  datatype Output = Output(status: int, stdout: seq<byte>, stderr: seq<byte>)

  function Later(a: nat, b: nat): nat {
    if a < b then b else a
  }

  /** After `rounds` rounds none of which succeeded: an open pipe was drained in every one, and once both
      had ended the leader was found running in every one. */
  ghost predicate IsWaiting(child: Child, stdout: Pipe, stderr: Pipe, rounds: nat)
    reads child, stdout, stderr
  {
    && (forall i | 0 <= i < |child.looks| :: child.looks[i] == Running)
    && (stdout.latest != Some(Eof) ==> stdout.drains == rounds)
    && (stderr.latest != Some(Eof) ==> stderr.drains == rounds)
    && stdout.drains <= rounds && stderr.drains <= rounds
    && if stdout.latest == Some(Eof) && stderr.latest == Some(Eof)
       then |child.looks| + Later(stdout.drains, stderr.drains) == rounds + 1
       else child.looks == []
  }

  /** Success means that both streams were collected whole and the leader was reaped unharmed, with its
      status; every other ending kills the group, and no kill follows a reaping. A timeout means that
      the last of the rounds before the deadline, like all others, found a pipe open or the leader
      running. Only a child without a usable process id or without its pipes, which the way it is
      spawned rules out, is given up without a kill. */
  method OutputBlockingWithTimeout(child: Child, stdout: Pipe, stderr: Pipe, usable: bool, configured: bool,
                                   polls: nat, reapPolls: nat)
    returns (r: Result<Output, CommandError>)
    requires stdout != stderr && stdout.Valid() && stderr.Valid() && stdout.IsFresh() && stderr.IsFresh()
    requires child.log == [] && child.looks == []
    modifies child, stdout, stderr
    ensures KillsPrecedeReaping(child.log)
    ensures r == Err(Unusable) <==> !usable
    ensures r.Err? ==> (GroupKilled in child.log <==> usable)
    ensures r.Ok? ==> child.log == [Reaped] && r.value.stdout == stdout.stream && r.value.stderr == stderr.stream
    ensures r.Ok? ==>
              && child.looks != [] && child.looks[|child.looks| - 1] == Exited(r.value.status)
              && Exited(r.value.status) in old(child.waits)
    ensures r == Err(SetupError) <==> usable && !configured
    ensures r == Err(TooMuchOutput) ==>
              |stdout.stream| > MAX_BLOCKING_OUTPUT_BYTES || |stderr.stream| > MAX_BLOCKING_OUTPUT_BYTES
    ensures r == Err(ReadError) ==> Failure in old(stdout.answers) || Failure in old(stderr.answers)
    ensures r == Err(WaitError) ==>
              child.looks != [] && child.looks[|child.looks| - 1] == WaitFailed && WaitFailed in old(child.waits)
    ensures r == Err(TimedOut) ==> IsWaiting(child, stdout, stderr, polls + 1)
    ensures r.Ok? ==> |r.value.stdout| <= MAX_BLOCKING_OUTPUT_BYTES && |r.value.stderr| <= MAX_BLOCKING_OUTPUT_BYTES
  {
    if !usable {
      return Err(Unusable);
    }
    if !configured {
      TerminateBlockingProcess(child, reapPolls);
      return Err(SetupError);
    }
    var stdoutBytes: seq<byte>, stderrBytes: seq<byte> := [], [];
    var stdoutEof, stderrEof := false, false;
    for poll := 0 to polls + 1
      invariant child.log == [] && stdout.Valid() && stderr.Valid()
      invariant forall a | a in stdout.answers :: a in old(stdout.answers)
      invariant forall a | a in stderr.answers :: a in old(stderr.answers)
      invariant forall a | a in child.waits :: a in old(child.waits)
      invariant stdoutBytes == stdout.stream[..stdout.pos] && stderrBytes == stderr.stream[..stderr.pos]
      invariant |stdoutBytes| <= MAX_BLOCKING_OUTPUT_BYTES && |stderrBytes| <= MAX_BLOCKING_OUTPUT_BYTES
      invariant stdoutEof ==> stdoutBytes == stdout.stream
      invariant stderrEof ==> stderrBytes == stderr.stream
      invariant stdoutEof <==> stdout.latest == Some(Eof)
      invariant stderrEof <==> stderr.latest == Some(Eof)
      invariant IsWaiting(child, stdout, stderr, poll)
    {
      var drained, collected := DrainUnlessEnded(stdout, stdoutEof, stdoutBytes);
      if drained.Err? {
        TerminateBlockingProcess(child, reapPolls);
        return Err(drained.error);
      }
      stdoutEof, stdoutBytes := drained.value, collected;
      drained, collected := DrainUnlessEnded(stderr, stderrEof, stderrBytes);
      if drained.Err? {
        TerminateBlockingProcess(child, reapPolls);
        return Err(drained.error);
      }
      stderrEof, stderrBytes := drained.value, collected;
      if stdoutEof && stderrEof {
        var answer := child.TryWait();
        if answer.Exited? {
          return Ok(Output(answer.status, stdoutBytes, stderrBytes));
        }
        if answer.WaitFailed? {
          TerminateBlockingProcess(child, reapPolls);
          return Err(WaitError);
        }
      }
    }
    TerminateBlockingProcess(child, reapPolls);
    r := Err(TimedOut);
  }

  // ----- reader tasks of asynchronous commands -----

  datatype ReaderStatus = Reading | Finished | Failed

  /** A reader task: the stream of its pipe, how much it has read, what it has gathered, and whether it has ended. */
  datatype Reader = Reader(stream: seq<byte>, pos: nat, output: seq<byte>, status: ReaderStatus)

  function NewReader(stream: seq<byte>): Reader {
    Reader(stream, 0, [], Reading)
  }

  /** What a pipe may answer to the next read of a running reader. */
  predicate CanAnswer(reader: Reader, answer: ReadResult) {
    && reader.status.Reading? && reader.pos <= |reader.stream|
    && match answer
       case Chunk(bytes) => 0 < |bytes| <= READ_SIZE && reader.stream[..reader.pos] + bytes <= reader.stream
       case Eof => reader.pos == |reader.stream|
       case _ => true
  }

  function AfterRead(reader: Reader, answer: ReadResult): Reader {
    match answer
    case Chunk(bytes) =>
      var read := reader.(pos := reader.pos + |bytes|);
      if |reader.output| + |bytes| > MAX_COMMAND_OUTPUT_BYTES then read.(status := Failed)
      else read.(output := reader.output + bytes)
    case Eof => reader.(status := Finished)
    case WouldBlock => reader
    case _ => reader.(status := Failed)
  }

  function AfterReads(reader: Reader, answers: seq<ReadResult>): Reader {
    if answers == [] then reader
    else AfterRead(AfterReads(reader, answers[..|answers| - 1]), answers[|answers| - 1])
  }

  predicate CanAnswerAll(reader: Reader, answers: seq<ReadResult>) {
    answers == [] ||
    var before := answers[..|answers| - 1];
    CanAnswerAll(reader, before) && CanAnswer(AfterReads(reader, before), answers[|answers| - 1])
  }

  /** Unless it failed, a reader has gathered all it has read; once finished, that is the whole stream. */
  predicate ReaderOk(reader: Reader) {
    && reader.pos <= |reader.stream|
    && |reader.output| <= MAX_COMMAND_OUTPUT_BYTES && reader.output <= reader.stream
    && (!reader.status.Failed? ==> reader.output == reader.stream[..reader.pos])
    && (reader.status.Finished? ==> reader.output == reader.stream)
  }

  lemma ReadKeepsReader(reader: Reader, answer: ReadResult)
    requires ReaderOk(reader) && CanAnswer(reader, answer)
    ensures ReaderOk(AfterRead(reader, answer)) && AfterRead(reader, answer).stream == reader.stream
  {
    if answer.Chunk? {
      assert reader.stream[..reader.pos + |answer.bytes|] == reader.stream[..reader.pos] + answer.bytes;
    } else if answer.Eof? {
      assert reader.stream[..reader.pos] == reader.stream;
    }
  }

  /** One turn of the reader task: one read, and what is done with its answer. */
  method ReadOnce(pipe: Pipe, reader: Reader) returns (next: Reader, ghost answer: ReadResult)
    requires pipe.Valid() && ReaderOk(reader) && reader.status.Reading?
    requires reader.stream == pipe.stream && reader.pos == pipe.pos
    modifies pipe
    ensures pipe.Valid() && CanAnswer(reader, answer) && next == AfterRead(reader, answer)
    ensures ReaderOk(next) && next.stream == pipe.stream && next.pos == pipe.pos
    ensures next.status.Failed? ==>
              |pipe.stream| > MAX_COMMAND_OUTPUT_BYTES || Failure in old(pipe.answers) || Interruption in old(pipe.answers)
    ensures old(pipe.answers) != [] ==> pipe.answers == old(pipe.answers)[1..]
  {
    next := reader;
    var read := pipe.Read(READ_SIZE);
    match read {
      case Eof => next := next.(status := Finished);
      case Chunk(bytes) =>
        next := next.(pos := pipe.pos);
        if |next.output| + |bytes| > MAX_COMMAND_OUTPUT_BYTES {
          next := next.(status := Failed);
        } else {
          next := next.(output := next.output + bytes);
        }
      case WouldBlock =>
      case Interrupted => next := next.(status := Failed);
      case ReadFailed => next := next.(status := Failed);
    }
    answer := read;
    assert CanAnswer(reader, answer);
    ReadKeepsReader(reader, answer);
  }

  lemma OneMoreAnswer(reader: Reader, answers: seq<ReadResult>, answer: ReadResult)
    requires CanAnswerAll(reader, answers) && CanAnswer(AfterReads(reader, answers), answer)
    ensures CanAnswerAll(reader, answers + [answer])
    ensures AfterReads(reader, answers + [answer]) == AfterRead(AfterReads(reader, answers), answer)
  {
    assert (answers + [answer])[..|answers|] == answers;
  }

  /** The reader task as it is coded goes through exactly the states of the model; a finished one has
      the whole stream within its bound, and a failed one met a longer stream or a failed read. */
  method ReadPipe(pipe: Pipe) returns (reader: Reader, ghost answers: seq<ReadResult>)
    requires pipe.Valid() && pipe.pos == 0
    modifies pipe
    ensures CanAnswerAll(NewReader(pipe.stream), answers) && reader == AfterReads(NewReader(pipe.stream), answers)
    ensures ReaderOk(reader) && reader.stream == pipe.stream && (reader.status.Reading? ==> pipe.answers == [])
    ensures reader.status.Failed? ==>
              |pipe.stream| > MAX_COMMAND_OUTPUT_BYTES || Failure in old(pipe.answers) || Interruption in old(pipe.answers)
  {
    reader := NewReader(pipe.stream);
    answers := [];
    while reader.status.Reading? && pipe.answers != []
      invariant pipe.Valid() && reader.stream == pipe.stream && reader.pos == pipe.pos && ReaderOk(reader)
      invariant CanAnswerAll(NewReader(pipe.stream), answers) && reader == AfterReads(NewReader(pipe.stream), answers)
      invariant forall a | a in pipe.answers :: a in old(pipe.answers)
      invariant reader.status.Failed? ==>
                  |pipe.stream| > MAX_COMMAND_OUTPUT_BYTES || Failure in old(pipe.answers) || Interruption in old(pipe.answers)
      decreases |pipe.answers|
    {
      var next, answer := ReadOnce(pipe, reader);
      OneMoreAnswer(NewReader(pipe.stream), answers, answer);
      answers := answers + [answer];
      reader := next;
    }
  }
}
