/**
 What each thing that can happen to a build comes to in the end, whatever else happens
 before or after it. The verdicts are spelled out in the exit status and the event itself.
 */
module Verdicts {
  import opened Options
  import opened LogLines
  import opened Supervisor

  /** The child runs, and the loop is still watching it. */
  predicate Watching(s: State) {
    s.phase.Looping? && s.childStatus.None?
  }

  /** The verdict of an exit that nothing interfered with. */
  predicate PlainVerdict(status: ExitStatus, r: Result) {
    && r.Done?
    && (r.outcome == Success <==> status == Code(0))
    && (r.outcome == OomKilled <==> status == Signal(9))
    && (r.outcome == BuildFailure <==> status != Code(0) && status != Signal(9))
    && (status.Code? ==> r.exitCode == status.code)
    && (status.Signal? ==> r.exitCode == -1)
  }

  /** The exit code of a child that is waited for after the loop. */
  predicate ReapedCode(reap: Reap, code: int) {
    && (reap.Reaped? && reap.status.Code? ==> code == reap.status.code)
    && (!(reap.Reaped? && reap.status.Code?) ==> code == -1)
  }

  // ---- exits ----

  /** Over every run that leaves the loop without a kill and without an exit, the exit waited for decides. */
  lemma ReapedExitDecides(trace: seq<Event>, status: ExitStatus, opts: BuildOptions)
    requires var s := Exec(INIT, trace, opts); s.phase.Left? && s.childStatus.None? && !s.killed
    ensures PlainVerdict(status, Conclude(Exec(INIT, trace, opts), Reaped(status), opts))
  {
    RunKeepsFlags(INIT, trace, opts);
  }

  /** The event reports the child's exit with this status, at this time. */
  predicate Reports(e: Event, status: ExitStatus, at: nat) {
    match e
    case ChildExited(st, now) => st == Some(status) && now == at
    case SilentTimeout(seen, now) => seen == Some(status) && now == at
    case DeadlineTimeout(seen, now) => seen == Some(status) && now == at
    case CancelRequested(seen, now) => seen == Some(status) && now == at
    case Lines(_, _, _, seen, now, _, late, lateAt, _) =>
      (seen == Some(status) && now == at) || (late == Some(status) && lateAt == at)
    case EndOfLines => false
    case LineError(_) => false
  }

  /** Either nothing was recorded, or what was seen, with a drain period of the configured length. */
  ghost predicate Observed(t: State, seen: Option<ExitStatus>, at: nat, opts: BuildOptions) {
    t.childStatus.None? || (t.childStatus == seen && t.drainDeadline == Some(at + opts.drainGrace))
  }

  lemma ObservesExit(s: State, seen: Option<ExitStatus>, at: nat, opts: BuildOptions)
    requires s.childStatus.None?
    ensures Observed(Observe(s, seen, at, opts), seen, at, opts)
  {
  }

  lemma LoseWriteObserves(s: State, e: Event, opts: BuildOptions)
    requires e.Lines? && s.childStatus.None?
    ensures Observed(LoseWrite(s, e.write, e.seen, e.now, opts), e.seen, e.now, opts)
  {
    ObservesExit(s, e.seen, e.now, opts);
  }

  lemma ForwardObserves(s: State, lines: seq<Line>, e: Event, opts: BuildOptions)
    requires e.Lines? && s.childStatus.None?
    ensures Observed(Forward(s, lines, e.write, e.seen, e.now, opts), e.seen, e.now, opts)
  {
    LoseWriteObserves(s.(log := RecordedLog(s.log, lines)), e, opts);
  }

  lemma FinishedObserves(s: State, readError: Option<string>, e: Event, opts: BuildOptions)
    requires e.Lines?
    ensures s.childStatus.None? ==> Observed(Finished(s, readError, e, opts), e.seenLate, e.seenAt, opts)
    ensures s.childStatus.Some? ==>
              var t := Finished(s, readError, e, opts); t.childStatus == s.childStatus && t.drainDeadline == s.drainDeadline
  {
    if s.childStatus.None? { ObservesExit(s, e.seenLate, e.seenAt, opts); }
  }

  /** What follows the reading of a batch reports the exit it records. */
  lemma BatchReports(s: State, lines: seq<Line>, readError: Option<string>, e: Event, opts: BuildOptions) returns (at: nat)
    requires e.Lines? && s.childStatus.None?
    ensures var t := Finished(Forward(s, lines, e.write, e.seen, e.now, opts), readError, e, opts);
            t.childStatus.Some? ==> Reports(e, t.childStatus.value, at) && t.drainDeadline == Some(at + opts.drainGrace)
  {
    var f := Forward(s, lines, e.write, e.seen, e.now, opts);
    ForwardObserves(s, lines, e, opts);
    FinishedObserves(f, readError, e, opts);
    at := if f.childStatus.Some? then e.now else e.seenAt;
  }

  lemma LinesReport(s: State, e: Event, opts: BuildOptions) returns (at: nat)
    requires Watching(s) && e.Lines? && Step(s, e, opts).childStatus.Some?
    ensures RecordedAsReported(Step(s, e, opts), e, at, opts)
  {
    ReadBatchKeeps(s, [], e.first, e.more, opts);
    var b := ReadBatch(s, [], e.first, e.more, opts);
    at := BatchReports(b.state, b.lines, b.readError, e, opts);
  }

  lemma TimersReport(s: State, e: Event, opts: BuildOptions)
    requires Watching(s) && (e.SilentTimeout? || e.DeadlineTimeout? || e.CancelRequested?)
    ensures Observed(Step(s, e, opts), e.seen, e.now, opts)
  {
    ObservesExit(s, e.seen, e.now, opts);
  }

  ghost predicate RecordedAsReported(t: State, e: Event, at: nat, opts: BuildOptions) {
    t.childStatus.Some? && Reports(e, t.childStatus.value, at) && t.drainDeadline == Some(at + opts.drainGrace)
  }

  /** An exit is recorded as reported, and starts a drain period of the configured length. */
  lemma ExitRecordedAsReported(s: State, e: Event, opts: BuildOptions) returns (at: nat)
    requires Watching(s) && Step(s, e, opts).childStatus.Some?
    ensures RecordedAsReported(Step(s, e, opts), e, at, opts)
  {
    if e.Lines? {
      at := LinesReport(s, e, opts);
    } else if e.ChildExited? {
      at := e.now;
      ObservesExit(s, e.status, at, opts);
    } else if e.SilentTimeout? || e.DeadlineTimeout? || e.CancelRequested? {
      at := e.now;
      TimersReport(s, e, opts);
    }
  }

  /** An event that finds the child gone: the exit is recorded. */
  predicate FindsExit(e: Event, status: ExitStatus, opts: BuildOptions) {
    || (e.ChildExited? && e.status == Some(status))
    || (e.SilentTimeout? && e.seen == Some(status) && opts.watchSilence)
    || (e.DeadlineTimeout? && e.seen == Some(status) && opts.deadline.Some?)
    || (e.CancelRequested? && e.seen == Some(status))
  }

  /** Whatever it races, an exit that is found before a kill is the verdict, whatever follows. */
  lemma FoundExitDecides(before: seq<Event>, e: Event, status: ExitStatus, after: seq<Event>, reap: Reap, opts: BuildOptions)
    requires var s := Exec(INIT, before, opts); Watching(s) && !s.killed
    requires FindsExit(e, status, opts)
    ensures PlainVerdict(status, Conclude(Exec(Step(Exec(INIT, before, opts), e, opts), after, opts), reap, opts))
  {
    var s := Exec(INIT, before, opts);
    RunKeepsFlags(INIT, before, opts);
    StepKeepsFlags(s, e, opts);
    assert Step(s, e, opts).childStatus == Some(status) && !Step(s, e, opts).killed;
    RunKeepsVerdict(Step(s, e, opts), after, opts);
  }

  /** An exit that is announced, or found by a timer, leaves the log running; one found by a cancellation ends it. */
  lemma FoundExitKeepsLog(s: State, e: Event, status: ExitStatus, opts: BuildOptions)
    requires Watching(s) && FindsExit(e, status, opts)
    ensures var t := s.(childStatus := Some(status), drainDeadline := Some(e.now + opts.drainGrace));
            Step(s, e, opts) == if e.CancelRequested? then t.(phase := Left, logTruncated := true) else t
  {
  }

  /** When waiting for the exit fails, there is no verdict at all. */
  lemma FailedWaitDecides(before: seq<Event>, now: nat, after: seq<Event>, reap: Reap, opts: BuildOptions)
    requires Watching(Exec(INIT, before, opts))
    ensures Conclude(Exec(Step(Exec(INIT, before, opts), ChildExited(None, now), opts), after, opts), reap, opts) == IoError
  {
    StoppedStays(Step(Exec(INIT, before, opts), ChildExited(None, now), opts), after, opts);
  }

  /** The log ended on its own while the child ran: the build deadline, if there is one, still bounds the wait. */
  lemma EndlessChildTimesOut(trace: seq<Event>, reap: Reap, opts: BuildOptions)
    requires var s := Exec(INIT, trace, opts); s.phase.Left? && s.childStatus.None? && !s.killed
    ensures var r := Conclude(Exec(INIT, trace, opts), reap, opts);
            && (reap.ReapTimedOut? && opts.deadline.Some? ==>
                  r.Done? && r.outcome == TimedOut && r.exitCode == -1 && r.error == Message("build-timeout exceeded"))
            && (r.IoError? <==> reap.ReapIoError? || (reap.ReapTimedOut? && opts.deadline.None?))
  {
    RunKeepsFlags(INIT, trace, opts);
  }

  /** Timers that are not set do not fire, and silence after the exit is no matter. */
  lemma UnsetTimersDoNothing(s: State, e: Event, opts: BuildOptions)
    requires s.phase.Looping?
    requires || (e.SilentTimeout? && (!opts.watchSilence || s.childStatus.Some?))
             || (e.DeadlineTimeout? && s.childStatus.None? && opts.deadline.None?)
             || (e.ChildExited? && s.childStatus.Some?)
    ensures Step(s, e, opts) == s
  {
  }

  // ---- the ways a live child is stopped ----

  /** Cancelled while the child runs: aborted, whatever else happens. */
  lemma CancelDecides(before: seq<Event>, now: nat, after: seq<Event>, reap: Reap, opts: BuildOptions)
    requires Watching(Exec(INIT, before, opts))
    ensures var r := Conclude(Exec(Step(Exec(INIT, before, opts), CancelRequested(None, now), opts), after, opts), reap, opts);
            && (r.IoError? <==> reap.ReapIoError?)
            && (r.Done? ==> r.outcome == Aborted && r.error == Message("aborted by runner") && ReapedCode(reap, r.exitCode))
  {
    var s := Exec(INIT, before, opts);
    RunKeepsFlags(INIT, before, opts);
    StoppedStays(Step(s, CancelRequested(None, now), opts), after, opts);
  }

  /** The build deadline passes while the child runs: timed out, whatever else happens. */
  lemma DeadlineDecides(before: seq<Event>, now: nat, after: seq<Event>, reap: Reap, opts: BuildOptions)
    requires Watching(Exec(INIT, before, opts)) && opts.deadline.Some?
    ensures var r := Conclude(Exec(Step(Exec(INIT, before, opts), DeadlineTimeout(None, now), opts), after, opts), reap, opts);
            TimedOutVerdict(r, reap)
  {
    var s := Exec(INIT, before, opts);
    RunKeepsFlags(INIT, before, opts);
    StoppedStays(Step(s, DeadlineTimeout(None, now), opts), after, opts);
  }

  predicate TimedOutVerdict(r: Result, reap: Reap) {
    && (r.IoError? <==> reap.ReapIoError?)
    && (r.Done? ==> r.outcome == TimedOut && r.error == Message("build-timeout exceeded") && ReapedCode(reap, r.exitCode))
  }

  /** So it is when the check after a batch finds the deadline passed. */
  lemma LateCheckDecides(before: seq<Event>, e: Event, after: seq<Event>, reap: Reap, opts: BuildOptions)
    requires Watching(Exec(INIT, before, opts)) && opts.deadline.Some?
    requires e.Lines? && e.write.Acknowledged? && e.checkedAt >= opts.deadline.value && e.seenLate.None?
    requires ReadBatch(Exec(INIT, before, opts), [], e.first, e.more, opts).readError.None?
    ensures TimedOutVerdict(Conclude(Exec(Step(Exec(INIT, before, opts), e, opts), after, opts), reap, opts), reap)
  {
    var s := Exec(INIT, before, opts);
    RunKeepsFlags(INIT, before, opts);
    ReadBatchKeeps(s, [], e.first, e.more, opts);
    LateCheckTimesOut(s, e, opts);
    StoppedStays(Step(s, e, opts), after, opts);
  }

  lemma CheckTimesOut(s: State, e: Event, opts: BuildOptions)
    requires Watching(s) && opts.deadline.Some? && e.Lines? && e.checkedAt >= opts.deadline.value && e.seenLate.None?
    ensures Finished(s, None, e, opts) == TimeOut(s)
  {
  }

  lemma LateCheckTimesOut(s: State, e: Event, opts: BuildOptions)
    requires Watching(s) && opts.deadline.Some? && FlagsInv(s)
    requires e.Lines? && e.write.Acknowledged? && e.checkedAt >= opts.deadline.value && e.seenLate.None?
    requires ReadBatch(s, [], e.first, e.more, opts).readError.None?
    requires ReadKeeps(s, ReadBatch(s, [], e.first, e.more, opts).state)
    ensures var t := Step(s, e, opts);
            && t.phase.Left? && t.timedOut && t.killed && !t.aborted && t.childStatus.None?
            && t.error == Message("build-timeout exceeded")
  {
    var b := ReadBatch(s, [], e.first, e.more, opts);
    CheckTimesOut(b.state.(log := AckedLog(b.state.log, b.lines)), e, opts);
  }

  /** The check after a batch leaves alone what is in time, and yields to an exit that is found in time. */
  lemma TimelyCheckGoesOn(s: State, e: Event, opts: BuildOptions)
    requires Watching(s) && e.Lines?
    ensures opts.deadline.None? || e.checkedAt < opts.deadline.value ==> Finished(s, None, e, opts) == s
    ensures opts.deadline.Some? && e.checkedAt >= opts.deadline.value && e.seenLate.Some? && e.latest < e.seenAt + opts.drainGrace ==>
              Finished(s, None, e, opts) == s.(childStatus := e.seenLate, drainDeadline := Some(e.seenAt + opts.drainGrace))
  {
  }

  /** After the exit, the check ends the log exactly when the drain period is over. */
  lemma DrainCheckIff(s: State, e: Event, opts: BuildOptions)
    requires s.phase.Looping? && s.childStatus.Some? && s.drainDeadline.Some? && e.Lines?
    ensures Finished(s, None, e, opts) == if e.checkedAt >= s.drainDeadline.value then s.(phase := Left, logTruncated := true) else s
  {
  }

  /** A read error behind a batch ends the log with that error. */
  lemma ReadErrorLeaves(s: State, message: string, e: Event, opts: BuildOptions)
    requires s.phase.Looping? && e.Lines?
    ensures Finished(s, Some(message), e, opts) == s.(phase := Left, error := Message(message))
  {
  }

  /** The error a batch ends with is the first one queued behind it. */
  lemma {:induction false} BatchReportsFirstError(s: State, lines: seq<Line>, next: Line, more: seq<Receipt>, opts: BuildOptions)
    ensures var b := ReadBatch(s, lines, next, more, opts);
            b.readError.Some? ==> exists k :: 0 <= k < |more| && more[k] == ReadError(b.readError.value) && forall i :: 0 <= i < k ==> more[i].Got?
    decreases |more|
  {
    var b := TakeLine(s, lines, next, opts);
    if !Full(b.lines) && more != [] {
      if more[0].Got? {
        BatchReportsFirstError(b.state, b.lines, more[0].line, more[1..], opts);
        var c := ReadBatch(b.state, b.lines, more[0].line, more[1..], opts);
        if c.readError.Some? {
          var k :| 0 <= k < |more[1..]| && more[1..][k] == ReadError(c.readError.value) && forall i :: 0 <= i < k ==> more[1..][i].Got?;
          assert more[k + 1] == more[1..][k];
          forall i | 0 <= i < k + 1 ensures more[i].Got? { assert i > 0 ==> more[i] == more[1..][i - 1]; }
        }
      } else {
        assert more[0] == ReadError(more[0].message);
      }
    }
  }

  /** A lost write after the exit, or with an exit found, only ends the log. */
  lemma LostWriteAfterExit(s: State, e: Event, opts: BuildOptions)
    requires s.phase.Looping? && e.Lines? && !e.write.Acknowledged?
    ensures s.childStatus.Some? ==> LoseWrite(s, e.write, e.seen, e.now, opts) == s.(phase := Left, logTruncated := true)
    ensures s.childStatus.None? && e.seen.Some? ==>
              LoseWrite(s, e.write, e.seen, e.now, opts) ==
              s.(childStatus := e.seen, drainDeadline := Some(e.now + opts.drainGrace), phase := Left, logTruncated := true)
  {
  }

  /** A cancellation that overtakes a write while the child runs aborts like any other. */
  lemma CancelledWriteAborts(s: State, e: Event, opts: BuildOptions)
    requires Watching(s) && e.Lines? && e.write.Cancelled? && e.seen.None?
    ensures LoseWrite(s, e.write, e.seen, e.now, opts) == Step(s, CancelRequested(None, e.now), opts)
  {
  }

  /** After the exit, a line over the limit ends the log and kills nobody. */
  lemma OverflowAfterExitTruncates(s: State, lines: seq<Line>, line: Line, opts: BuildOptions)
    requires s.childStatus.Some? && Accepting(s) && s.log.bytesSent + |line| + 1 > opts.maxLogSize && opts.maxLogSize < U64_MAX
    ensures var b := TakeLine(s, lines, line, opts);
            && b.lines == lines && b.state.logTruncated && b.state.killed == s.killed && !b.state.logSizeExceeded
  {
  }

  /** Before it, the child is killed for it. */
  lemma OverflowKills(s: State, lines: seq<Line>, line: Line, opts: BuildOptions)
    requires s.childStatus.None? && Accepting(s) && s.log.bytesSent + |line| + 1 > opts.maxLogSize && opts.maxLogSize < U64_MAX
    ensures var b := TakeLine(s, lines, line, opts);
            b.lines == lines && b.state.killed && b.state.logSizeExceeded && b.state.error == Message("max-log-size exceeded")
  {
  }

  /** Silence while the child runs: killed, and then only an exit of 0 with an intact log is a success. */
  lemma SilenceDecides(before: seq<Event>, now: nat, after: seq<Event>, reap: Reap, opts: BuildOptions)
    requires Watching(Exec(INIT, before, opts)) && opts.watchSilence
    ensures var s := Exec(INIT, before, opts);
            var r := Conclude(Exec(Step(s, SilentTimeout(None, now), opts), after, opts), reap, opts);
            && (r.IoError? <==> reap.ReapIoError?)
            && (r.Done? ==> r.error == Message("max-silent-time exceeded") && ReapedCode(reap, r.exitCode))
            && (r.Done? ==>
                  r.outcome == (if reap == Reaped(Code(0)) && !s.logSizeExceeded && !s.sinkFailed then Success else BuildFailure))
  {
    var s := Exec(INIT, before, opts);
    RunKeepsFlags(INIT, before, opts);
    StoppedStays(Step(s, SilentTimeout(None, now), opts), after, opts);
  }

  /** A log that outgrew its limit, or a sink that failed, while the child ran: never a success. */
  lemma LostLogFails(trace: seq<Event>, after: seq<Event>, reap: Reap, opts: BuildOptions)
    requires var s := Exec(INIT, trace, opts); s.logSizeExceeded || s.sinkFailed
    ensures var r := Conclude(Exec(Exec(INIT, trace, opts), after, opts), reap, opts); r.Done? ==> r.outcome != Success
  {
    RunKeepsLosses(Exec(INIT, trace, opts), after, opts);
  }

  ghost predicate LossesKept(s: State, t: State) {
    (s.logSizeExceeded ==> t.logSizeExceeded) && (s.sinkFailed ==> t.sinkFailed)
  }

  lemma {:induction false} ReadBatchKeepsLosses(s: State, lines: seq<Line>, next: Line, more: seq<Receipt>, opts: BuildOptions)
    ensures LossesKept(s, ReadBatch(s, lines, next, more, opts).state)
    decreases |more|
  {
    var b := TakeLine(s, lines, next, opts);
    if !Full(b.lines) && more != [] && more[0].Got? {
      ReadBatchKeepsLosses(b.state, b.lines, more[0].line, more[1..], opts);
    }
  }

  /** Apart from reading lines, nothing exceeds the limit and nothing mends the sink. */
  ghost predicate SameLosses(s: State, t: State) {
    t.logSizeExceeded == s.logSizeExceeded && (s.sinkFailed ==> t.sinkFailed)
  }

  lemma ObserveSameLosses(s: State, seen: Option<ExitStatus>, now: nat, opts: BuildOptions)
    ensures SameLosses(s, Observe(s, seen, now, opts))
  {
  }

  lemma WaysOutSameLosses(s: State, o: State, why: string)
    requires SameLosses(s, o)
    ensures SameLosses(s, Truncate(o)) && SameLosses(s, AbortNow(o)) && SameLosses(s, TimeOut(o))
    ensures SameLosses(s, Leave(Kill(o, why)))
  {
  }

  lemma LoseWriteSameLosses(r: State, e: Event, opts: BuildOptions)
    requires e.Lines?
    ensures SameLosses(r, LoseWrite(r, e.write, e.seen, e.now, opts))
  {
    ObserveSameLosses(r, e.seen, e.now, opts);
    WaysOutSameLosses(r, Observe(r, e.seen, e.now, opts), "");
  }

  lemma ForwardSameLosses(s: State, lines: seq<Line>, e: Event, opts: BuildOptions)
    requires e.Lines?
    ensures SameLosses(s, Forward(s, lines, e.write, e.seen, e.now, opts))
  {
    LoseWriteSameLosses(s.(log := RecordedLog(s.log, lines)), e, opts);
  }

  lemma FinishedSameLosses(s: State, readError: Option<string>, e: Event, opts: BuildOptions)
    requires e.Lines?
    ensures SameLosses(s, Finished(s, readError, e, opts))
  {
    ObserveSameLosses(s, e.seenLate, e.seenAt, opts);
    WaysOutSameLosses(s, Observe(s, e.seenLate, e.seenAt, opts), "");
  }

  lemma OtherEventsSameLosses(s: State, e: Event, opts: BuildOptions)
    requires !e.Lines?
    ensures SameLosses(s, Step(s, e, opts))
  {
    if e.SilentTimeout? || e.DeadlineTimeout? || e.CancelRequested? {
      ObserveSameLosses(s, e.seen, e.now, opts);
      WaysOutSameLosses(s, Observe(s, e.seen, e.now, opts), "max-silent-time exceeded");
    } else if e.ChildExited? {
      ObserveSameLosses(s, e.status, e.now, opts);
    }
  }

  lemma StepKeepsLosses(s: State, e: Event, opts: BuildOptions)
    ensures LossesKept(s, Step(s, e, opts))
  {
    if !e.Lines? {
      OtherEventsSameLosses(s, e, opts);
    } else if s.phase.Looping? {
      ReadBatchKeepsLosses(s, [], e.first, e.more, opts);
      var b := ReadBatch(s, [], e.first, e.more, opts);
      ForwardSameLosses(b.state, b.lines, e, opts);
      FinishedSameLosses(Forward(b.state, b.lines, e.write, e.seen, e.now, opts), b.readError, e, opts);
    }
  }

  lemma {:induction false} RunKeepsLosses(s: State, trace: seq<Event>, opts: BuildOptions)
    ensures LossesKept(s, Exec(s, trace, opts))
    decreases trace
  {
    if trace == [] {
    } else {
      StepKeepsLosses(s, trace[0], opts);
      RunKeepsLosses(Step(s, trace[0], opts), trace[1..], opts);
    }
  }

  /** The sink refuses or loses a non-empty batch while the child runs: the child is killed for it. */
  lemma LostWriteFails(before: seq<Event>, e: Event, after: seq<Event>, reap: Reap, opts: BuildOptions)
    requires Watching(Exec(INIT, before, opts)) && e.Lines? && e.write.Failed? && e.seen.None?
    requires ChunkOf(ReadBatch(Exec(INIT, before, opts), [], e.first, e.more, opts).lines) != ""
    ensures var t := Step(Exec(INIT, before, opts), e, opts);
            var r := Conclude(Exec(t, after, opts), reap, opts);
            t.killed && (r.Done? ==> r.outcome != Success)
  {
    var s := Exec(INIT, before, opts);
    RunKeepsFlags(INIT, before, opts);
    ReadBatchKeeps(s, [], e.first, e.more, opts);
    var b := ReadBatch(s, [], e.first, e.more, opts);
    var f := Forward(b.state, b.lines, e.write, e.seen, e.now, opts);
    assert f.sinkFailed && f.killed;
    FinishedKeepsKill(f, b.readError, e, opts);
    RunKeepsLosses(Step(s, e, opts), after, opts);
  }

  lemma FinishedKeepsKill(s: State, readError: Option<string>, e: Event, opts: BuildOptions)
    requires e.Lines? && s.killed && s.sinkFailed
    ensures var t := Finished(s, readError, e, opts); t.killed && t.sinkFailed
  {
  }

  // ---- the log's end ----

  /** After the exit, the drain deadline or a cancellation ends the log and nothing else. */
  lemma DrainEnds(before: seq<Event>, e: Event, after: seq<Event>, reap: Reap, opts: BuildOptions)
    requires var s := Exec(INIT, before, opts); s.phase.Looping? && s.childStatus.Some?
    requires e.DeadlineTimeout? || e.CancelRequested?
    ensures var s := Exec(INIT, before, opts);
            var t := Exec(Step(s, e, opts), after, opts);
            t == s.(phase := Left, logTruncated := true) && Conclude(t, reap, opts).Done? && Conclude(t, reap, opts).truncated
  {
    var s := Exec(INIT, before, opts);
    RunKeepsFlags(INIT, before, opts);
    StoppedStays(Step(s, e, opts), after, opts);
  }

  /** The log ends on its own, or with an error, which then is the message unless waiting times out. */
  lemma LogEndLeaves(before: seq<Event>, e: Event, after: seq<Event>, opts: BuildOptions)
    requires Exec(INIT, before, opts).phase.Looping? && (e.EndOfLines? || e.LineError?)
    ensures var s := Exec(INIT, before, opts);
            Exec(Step(s, e, opts), after, opts) == s.(phase := Left, error := if e.EndOfLines? then s.error else Message(e.message))
  {
    StoppedStays(Step(Exec(INIT, before, opts), e, opts), after, opts);
  }

  // ---- the log limit ----

  /** With `lines` in hand, the first line that was not accepted would have gone over the limit. */
  ghost predicate OverLimit(l: Log, lines: seq<Line>, opts: BuildOptions) {
    var k := |Flatten(l.batches) + lines|;
    k < |l.received| && Cost(l.received[..k + 1]) > opts.maxLogSize
  }

  ghost predicate ExceededOk(l: Log, lines: seq<Line>, exceeded: bool, opts: BuildOptions) {
    exceeded && opts.maxLogSize < U64_MAX ==> OverLimit(l, lines, opts)
  }

  lemma MoreReceivedStaysOver(l: Log, lines: seq<Line>, line: Line, opts: BuildOptions)
    requires OverLimit(l, lines, opts)
    ensures OverLimit(l.(received := l.received + [line]), lines, opts)
  {
    var k := |Flatten(l.batches) + lines|;
    assert (l.received + [line])[..k + 1] == l.received[..k + 1];
  }

  lemma GoesOver(l: Log, lines: seq<Line>, line: Line, opts: BuildOptions)
    requires ReadingOk(l, lines, true, opts) && opts.maxLogSize < U64_MAX
    requires SaturatingAdd(l.bytesSent, |line| + 1) > opts.maxLogSize
    ensures OverLimit(l.(received := l.received + [line]), lines, opts)
  {
    var more := l.received + [line];
    assert more[..|more| - 1] == l.received && more[..|more|] == more;
    assert Cost(more) == Cost(l.received) + |line| + 1;
  }

  lemma TakeLineOver(s: State, lines: seq<Line>, line: Line, opts: BuildOptions)
    requires ReadingOk(s.log, lines, Accepting(s), opts) && ExceededOk(s.log, lines, s.logSizeExceeded, opts)
    ensures var b := TakeLine(s, lines, line, opts); ExceededOk(b.state.log, b.lines, b.state.logSizeExceeded, opts)
  {
    if s.logSizeExceeded {
      if opts.maxLogSize < U64_MAX { MoreReceivedStaysOver(s.log, lines, line, opts); }
    } else if Accepting(s) && opts.maxLogSize < SaturatingAdd(s.log.bytesSent, |line| + 1) && opts.maxLogSize < U64_MAX {
      GoesOver(s.log, lines, line, opts);
    }
  }

  lemma {:induction false} ReadBatchOver(s: State, lines: seq<Line>, next: Line, more: seq<Receipt>, opts: BuildOptions)
    requires ReadingOk(s.log, lines, Accepting(s), opts) && ExceededOk(s.log, lines, s.logSizeExceeded, opts)
    ensures var b := ReadBatch(s, lines, next, more, opts); ExceededOk(b.state.log, b.lines, b.state.logSizeExceeded, opts)
    decreases |more|
  {
    var b := TakeLine(s, lines, next, opts);
    TakeLineLogs(s, lines, next, opts);
    TakeLineOver(s, lines, next, opts);
    if !Full(b.lines) && more != [] && more[0].Got? {
      ReadBatchOver(b.state, b.lines, more[0].line, more[1..], opts);
    }
  }

  lemma RecordKeepsOver(l: Log, lines: seq<Line>, exceeded: bool, opts: BuildOptions)
    requires ExceededOk(l, lines, exceeded, opts)
    ensures ExceededOk(AckedLog(l, lines), [], exceeded, opts) && ExceededOk(RecordedLog(l, lines), [], exceeded, opts)
  {
    FlattenOneMore(l.batches, lines);
  }

  lemma StepKeepsOver(s: State, e: Event, opts: BuildOptions)
    requires LogInv(s, opts) && ExceededOk(s.log, [], s.logSizeExceeded, opts)
    ensures var t := Step(s, e, opts); ExceededOk(t.log, [], t.logSizeExceeded, opts)
  {
    if !e.Lines? {
      OtherEventsOnlyStop(s, e, opts);
      OtherEventsSameLosses(s, e, opts);
    } else if s.phase.Looping? {
      var b := ReadBatch(s, [], e.first, e.more, opts);
      var f := Forward(b.state, b.lines, e.write, e.seen, e.now, opts);
      ReadBatchOver(s, [], e.first, e.more, opts);
      ReadBatchKeeps(s, [], e.first, e.more, opts);
      RecordKeepsOver(b.state.log, b.lines, b.state.logSizeExceeded, opts);
      ForwardShape(b.state, b.lines, e, opts);
      ForwardSameLosses(b.state, b.lines, e, opts);
      FinishedOnlyStops(f, b.readError, e, opts);
      FinishedSameLosses(f, b.readError, e, opts);
    }
  }

  lemma {:induction false} RunKeepsOver(s: State, trace: seq<Event>, opts: BuildOptions)
    requires LogInv(s, opts) && ExceededOk(s.log, [], s.logSizeExceeded, opts)
    ensures var t := Exec(s, trace, opts); ExceededOk(t.log, [], t.logSizeExceeded, opts)
    decreases trace
  {
    if trace == [] {
    } else {
      StepKeepsOver(s, trace[0], opts);
      StepKeepsLog(s, trace[0], opts);
      RunKeepsOver(Step(s, trace[0], opts), trace[1..], opts);
    }
  }

  /**
   Over every run: a build is stopped for the size of its log only when the lines received go
   over the limit, and then exactly the longest part within the limit was accepted.
   */
  lemma LimitIsExact(trace: seq<Event>, opts: BuildOptions)
    requires opts.maxLogSize < U64_MAX && Exec(INIT, trace, opts).logSizeExceeded
    ensures var l := Exec(INIT, trace, opts).log;
            var k := |Flatten(l.batches)|;
            && k < |l.received| && Flatten(l.batches) == l.received[..k]
            && Cost(l.received[..k]) <= opts.maxLogSize < Cost(l.received[..k + 1])
  {
    RunKeepsLog(INIT, trace, opts);
    RunKeepsOver(INIT, trace, opts);
    var l := Exec(INIT, trace, opts).log;
    assert Flatten(l.batches) + [] == Flatten(l.batches);
  }

  // ---- batches ----

  function LinesIn(more: seq<Receipt>): seq<Line> {
    if more == [] || more[0].ReadError? then [] else [more[0].line] + LinesIn(more[1..])
  }

  /** A batch takes everything that is queued, unless it is full or meets a read error. */
  lemma {:induction false} BatchTakesWhatItCan(s: State, lines: seq<Line>, next: Line, more: seq<Receipt>, opts: BuildOptions)
    ensures var b := ReadBatch(s, lines, next, more, opts);
            && (|ChunkOf(b.lines)| < 256 * 1024 && |b.lines| < 4096 ==>
                  b.state.log.received == s.log.received + [next] + LinesIn(more))
            && b.state.log.received <= s.log.received + [next] + LinesIn(more)
    decreases |more|
  {
    var b := TakeLine(s, lines, next, opts);
    TakeLineShape(s, lines, next, opts);
    if !Full(b.lines) && more != [] && more[0].Got? {
      BatchTakesWhatItCan(b.state, b.lines, more[0].line, more[1..], opts);
      assert s.log.received + [next] + LinesIn(more) == b.state.log.received + [more[0].line] + LinesIn(more[1..]);
    }
  }

  /** A batch never holds more than 4096 lines. */
  lemma {:induction false} BatchHoldsFewLines(s: State, lines: seq<Line>, next: Line, more: seq<Receipt>, opts: BuildOptions)
    requires |lines| < 4096
    ensures |ReadBatch(s, lines, next, more, opts).lines| <= 4096
    decreases |more|
  {
    var b := TakeLine(s, lines, next, opts);
    TakeLineShape(s, lines, next, opts);
    if !Full(b.lines) && more != [] && more[0].Got? {
      BatchHoldsFewLines(b.state, b.lines, more[0].line, more[1..], opts);
    }
  }
}
