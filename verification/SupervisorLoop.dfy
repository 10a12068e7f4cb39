/**
 The supervision loop as it runs: local variables updated in place, a batch buffer filled by
 an inner loop, and one verdict at the end. Each method is proved equal to the transition
 system in `Supervisor`, about which the run-wide facts are stated.
 */
module SupervisorLoop {
  import opened Options
  import opened LogLines
  import opened Supervisor
  import opened Verdicts

  class RunCommand {
    const opts: BuildOptions
    var phase: Phase
    var childStatus: Option<ExitStatus>
    var drainDeadline: Option<nat>
    var killed: bool
    var aborted: bool
    var timedOut: bool
    var sinkFailed: bool
    var logSizeExceeded: bool
    var logTruncated: bool
    var error: Error
    var bytesSent: nat
    /** What the log sink has acknowledged. */
    var acked: seq<string>
    ghost var received: seq<Line>
    ghost var batches: seq<seq<Line>>
    ghost var forwarded: nat

    ghost function View(): State
      reads this
    {
      State(phase, childStatus, drainDeadline, killed, aborted, timedOut, sinkFailed, logSizeExceeded,
            logTruncated, error, Log(bytesSent, received, batches, forwarded, acked))
    }

    constructor (opts: BuildOptions)
      ensures View() == INIT && this.opts == opts
    {
      this.opts := opts;
      phase, childStatus, drainDeadline, error := Looping, None, None, NoError;
      killed, aborted, timedOut, sinkFailed := false, false, false, false;
      logSizeExceeded, logTruncated := false, false;
      bytesSent, acked, received, batches, forwarded := 0, [], [], [], 0;
    }

    method ObserveExit(seen: Option<ExitStatus>, now: nat) returns (exited: bool)
      modifies this`childStatus, this`drainDeadline
      ensures View() == Observe(old(View()), seen, now, opts) && exited == childStatus.Some?
    {
      if childStatus.None? && seen.Some? {
        drainDeadline := Some(now + opts.drainGrace);
        childStatus := seen;
      }
      exited := childStatus.Some?;
    }

    method KillChild(why: string)
      modifies this`killed, this`error
      ensures View() == Kill(old(View()), why)
    {
      error, killed := Message(why), true;
    }

    method Cancel(seen: Option<ExitStatus>, now: nat)
      modifies this
      ensures View() == CancelOr(old(View()), seen, now, opts)
    {
      var exited := ObserveExit(seen, now);
      if exited {
        logTruncated := true;
      } else {
        aborted := true;
        KillChild("aborted by runner");
      }
      phase := Left;
    }

    /** The deadline passed: a live child is killed, a finished one only loses log. */
    method Expire()
      modifies this
      ensures View() == if old(View()).childStatus.None? then TimeOut(old(View())) else Truncate(old(View()))
    {
      if childStatus.None? {
        timedOut := true;
        KillChild("build-timeout exceeded");
      } else {
        logTruncated := true;
      }
      phase := Left;
    }

    /** One received line: counted and appended to the buffer, dropped, or the end of logging. */
    method TakeInto(batch: string, count: nat, line: Line, ghost lines: seq<Line>)
      returns (batch': string, count': nat, ghost lines': seq<Line>)
      requires batch == ChunkOf(lines) && count == |lines|
      modifies this
      ensures TakeLine(old(View()), lines, line, opts) == Batch(View(), lines', None)
      ensures batch' == ChunkOf(lines') && count' == |lines'|
    {
      batch', count', lines' := batch, count, lines;
      received := received + [line];
      if !logSizeExceeded && !logTruncated && !sinkFailed {
        if SaturatingAdd(bytesSent, |line| + 1) > opts.maxLogSize {
          if childStatus.None? {
            logSizeExceeded := true;
            KillChild("max-log-size exceeded");
          } else {
            logTruncated := true;
          }
        } else {
          bytesSent := SaturatingAdd(bytesSent, |line| + 1);
          if batch' != "" { batch' := batch' + [NEWLINE]; }
          batch', count', lines' := batch' + line, count + 1, lines + [line];
          assert lines'[..|lines|] == lines;
        }
      }
    }

    /** Collect what is already queued behind `first`, up to the batch limits. */
    method Collect(first: Line, more: seq<Receipt>)
      returns (batch: string, readError: Option<string>, ghost lines: seq<Line>)
      modifies this
      ensures ReadBatch(old(View()), [], first, more, opts) == Batch(View(), lines, readError)
      ensures batch == ChunkOf(lines)
    {
      var count, i, next := 0, 0, Some(first);
      batch, readError, lines := "", None, [];
      while next.Some?
        invariant i <= |more| && batch == ChunkOf(lines) && count == |lines|
        invariant next.Some? ==> readError == None
        invariant ReadBatch(old(View()), [], first, more, opts) ==
                  if next.Some? then ReadBatch(View(), lines, next.value, more[i..], opts)
                  else Batch(View(), lines, readError)
        decreases next.Some?, |more| - i
      {
        batch, count, lines := TakeInto(batch, count, next.value, lines);
        next := None;
        if |batch| < MAX_BATCH_BYTES && count < MAX_BATCH_LINES && i < |more| {
          match more[i] {
            case Got(line) => next := Some(line);
            case ReadError(e) => readError := Some(e);
          }
          i := i + 1;
        }
      }
    }

    method Acknowledge(batch: string, ghost lines: seq<Line>)
      requires batch == ChunkOf(lines)
      modifies this`acked, this`forwarded, this`batches
      ensures View() == old(View()).(log := AckedLog(old(View()).log, lines))
    {
      if batch != "" { acked := acked + [batch]; }
      if forwarded == |batches| { forwarded := forwarded + 1; }
      batches := batches + [lines];
      assert acked == AckedLog(old(View()).log, lines).acked;
    }

    method FailWrite(write: Write, seen: Option<ExitStatus>, now: nat)
      modifies this
      ensures View() == LoseWrite(old(View()), write, seen, now, opts)
    {
      if write.Cancelled? && childStatus.None? {
        Cancel(seen, now);
        return;
      }
      var exited := ObserveExit(seen, now);
      if exited {
        logTruncated, phase := true, Left;
      } else {
        sinkFailed, killed := true, true;
      }
    }

    /** Send a batch; a failed write kills the child unless it turns out to have exited. */
    method Send(batch: string, write: Write, seen: Option<ExitStatus>, now: nat, ghost lines: seq<Line>)
      requires batch == ChunkOf(lines)
      modifies this
      ensures View() == Forward(old(View()), lines, write, seen, now, opts)
    {
      if batch == "" || write.Acknowledged? {
        Acknowledge(batch, lines);
      } else {
        batches := batches + [lines];
        FailWrite(write, seen, now);
      }
    }

    method CheckTime(now: nat, seen: Option<ExitStatus>, seenAt: nat, latest: nat)
      modifies this
      ensures View() == CheckDeadline(old(View()), now, seen, seenAt, latest, opts)
    {
      var deadline := if childStatus.None? then opts.deadline else drainDeadline;
      if deadline.Some? && now >= deadline.value {
        var running := childStatus.None?;
        var exited := ObserveExit(seen, seenAt);
        if running && exited && latest < drainDeadline.value { return; }
        Expire();
      }
    }

    method HandleLines(e: Event)
      requires e.Lines? && phase.Looping?
      modifies this
      ensures View() == Step(old(View()), e, opts)
    {
      ghost var lines: seq<Line>;
      var batch, readError;
      batch, readError, lines := Collect(e.first, e.more);
      Send(batch, e.write, e.seen, e.now, lines);
      if phase.Looping? {
        if readError.Some? {
          error, phase := Message(readError.value), Left;
        } else {
          CheckTime(e.checkedAt, e.seenLate, e.seenAt, e.latest);
        }
      }
    }

    method HandleDeadline(seen: Option<ExitStatus>, now: nat)
      modifies this
      ensures View() == Deadline(old(View()), seen, now, opts)
    {
      var running := childStatus.None?;
      var exited := ObserveExit(seen, now);
      if running && exited { return; }
      Expire();
    }

    /** One iteration; an event the current phase does not wait for changes nothing. */
    method Handle(e: Event)
      requires phase.Looping?
      modifies this
      ensures View() == Step(old(View()), e, opts)
    {
      match e
      case ChildExited(status, now) =>
        if childStatus.None? {
          if status.None? { phase := IoFailed; } else { var _ := ObserveExit(status, now); }
        }
      case SilentTimeout(seen, now) =>
        if childStatus.None? && opts.watchSilence {
          var exited := ObserveExit(seen, now);
          if !exited {
            KillChild("max-silent-time exceeded");
            phase := Left;
          }
        }
      case DeadlineTimeout(seen, now) =>
        if (if childStatus.None? then opts.deadline else drainDeadline).Some? { HandleDeadline(seen, now); }
      case CancelRequested(seen, now) => Cancel(seen, now);
      case EndOfLines => phase := Left;
      case LineError(message) => error, phase := Message(message), Left;
      case Lines(_, _, _, _, _, _, _, _, _) => HandleLines(e);
    }

    /** The loop: events are handled until one of them leaves it. */
    method Run(trace: seq<Event>)
      modifies this
      ensures View() == Exec(old(View()), trace, opts)
    {
      var i := 0;
      while i < |trace| && phase.Looping?
        invariant i <= |trace|
        invariant Exec(View(), trace[i..], opts) == Exec(old(View()), trace, opts)
      {
        Handle(trace[i]);
        i := i + 1;
      }
      if i < |trace| { StoppedStays(View(), trace[i..], opts); }
    }

    /** Reap the child and derive the verdict. */
    method Finish(reap: Reap) returns (r: Result)
      ensures r == Conclude(View(), reap, opts)
    {
      if phase.IoFailed? { return IoError; }
      var status, timedOut, error := childStatus, timedOut, error;
      if status.None? {
        match reap {
          case Reaped(s) => status := Some(s);
          case ReapIoError => return IoError;
          case ReapTimedOut =>
            if !killed {
              if opts.deadline.None? { return IoError; }
              timedOut, error := true, Message("build-timeout exceeded");
            }
        }
      }
      if status.None? {
        var lost := if timedOut then TimedOut else if aborted then Aborted else BuildFailure;
        return Done(lost, -1, error, logTruncated);
      }
      var exitCode := if status.value.Code? then status.value.code else -1;
      var oom := !killed && !aborted && !timedOut && status.value == Signal(9);
      var success := status.value == Code(0) && !logSizeExceeded && !sinkFailed && !aborted && !timedOut && !oom;
      var outcome :=
        if success then Success
        else if timedOut then TimedOut
        else if aborted then Aborted
        else if oom then OomKilled
        else BuildFailure;
      return Done(outcome, exitCode, error, logTruncated);
    }
  }

  predicate ExitedUnharmed(s: State) {
    s.childStatus.Some? && !s.killed
  }

  /**
   A whole run: if its first events record the child's exit before anything killed it, or the
   log ends and the exit is then waited for, the verdict is that exit's own; and in any case
   the sink holds the chunks of some first batches.
   */
  method Supervise(trace: seq<Event>, reap: Reap, opts: BuildOptions) returns (r: Result, chunks: seq<string>)
    ensures r == Conclude(Exec(INIT, trace, opts), reap, opts)
    ensures chunks == Exec(INIT, trace, opts).log.acked
    ensures opts.maxLogSize < U64_MAX ==> TotalLength(chunks) <= opts.maxLogSize
    ensures forall k :: 0 <= k <= |trace| && ExitedUnharmed(Exec(INIT, trace[..k], opts)) ==>
              PlainVerdict(Exec(INIT, trace[..k], opts).childStatus.value, r)
    ensures var s := Exec(INIT, trace, opts);
            s.phase.Left? && s.childStatus.None? && !s.killed && reap.Reaped? ==> PlainVerdict(reap.status, r)
  {
    var run := new RunCommand(opts);
    run.Run(trace);
    chunks := run.acked;
    r := run.Finish(reap);
    LogIsFaithful(trace, opts);
    ghost var s := Exec(INIT, trace, opts);
    if s.phase.Left? && s.childStatus.None? && !s.killed && reap.Reaped? { ReapedExitDecides(trace, reap.status, opts); }
    forall k | 0 <= k <= |trace| && ExitedUnharmed(Exec(INIT, trace[..k], opts))
      ensures PlainVerdict(Exec(INIT, trace[..k], opts).childStatus.value, r)
    {
      ExecSplits(INIT, trace, k, opts);
      RecordedExitDecides(trace[..k], trace[k..], reap, opts);
    }
  }
}
