/**
 The supervision loop around one child process. Each iteration handles one event; which
 event arrives, what `try_wait` reports, what the log sink answers and what the clock shows
 are inputs of the iteration, so a trace of iterations stands for any run. An event that the
 loop could not be waiting for in the current phase leaves the state unchanged.
 */
module Supervisor {
  import opened Options
  import opened LogLines

  const U64_MAX: nat := 0xFFFF_FFFF_FFFF_FFFF

  datatype ExitStatus = Code(code: int) | Signal(number: int)

  /** `deadline` is the overall build deadline, if any; `watchSilence` says max-silent-time is set. */
  datatype BuildOptions = BuildOptions(maxLogSize: nat, watchSilence: bool, deadline: Option<nat>, drainGrace: nat)

  datatype Phase = Looping | Left | IoFailed

  datatype Error = NoError | Message(text: string)

  /** Everything about the log: what came in, what was accepted per batch, what the sink acknowledged. */
  datatype Log = Log(
    bytesSent: nat,
    received: seq<Line>,
    batches: seq<seq<Line>>,
    forwarded: nat,
    acked: seq<string>)

  datatype State = State(
    phase: Phase,
    childStatus: Option<ExitStatus>,
    drainDeadline: Option<nat>,
    killed: bool,
    aborted: bool,
    timedOut: bool,
    sinkFailed: bool,
    logSizeExceeded: bool,
    logTruncated: bool,
    error: Error,
    log: Log)

  datatype Receipt = Got(line: Line) | ReadError(message: string)

  datatype Write = Acknowledged | Failed | Cancelled

  /**
   `seen` is what try_wait would report if the handler asks, `now` the clock at that moment;
   the deadline check after a batch reads the clock up to three times. A write can be
   cancelled only before the exit; afterwards `Cancelled` stands for a failed write.
   */
  datatype Event =
    | ChildExited(status: Option<ExitStatus>, now: nat)
    | SilentTimeout(seen: Option<ExitStatus>, now: nat)
    | DeadlineTimeout(seen: Option<ExitStatus>, now: nat)
    | CancelRequested(seen: Option<ExitStatus>, now: nat)
    | EndOfLines
    | LineError(message: string)
    | Lines(first: Line, more: seq<Receipt>, write: Write, seen: Option<ExitStatus>, now: nat,
            checkedAt: nat, seenLate: Option<ExitStatus>, seenAt: nat, latest: nat)

  const INIT: State :=
    State(Looping, None, None, false, false, false, false, false, false, NoError, Log(0, [], [], 0, []))

  // ---- one iteration ----

  /** Record an exit status and start the drain period the first time one is seen. */
  function Observe(s: State, seen: Option<ExitStatus>, now: nat, opts: BuildOptions): State {
    if s.childStatus.None? && seen.Some?
    then s.(childStatus := seen, drainDeadline := Some(now + opts.drainGrace))
    else s
  }

  function Leave(s: State): State {
    s.(phase := Left)
  }

  function Kill(s: State, why: string): State {
    s.(killed := true, error := Message(why))
  }

  function TimeOut(s: State): State {
    Leave(Kill(s, "build-timeout exceeded").(timedOut := true))
  }

  function AbortNow(s: State): State {
    Leave(Kill(s, "aborted by runner").(aborted := true))
  }

  function Truncate(s: State): State {
    Leave(s.(logTruncated := true))
  }

  /** The deadline that applies now: the build's before the child's exit, the drain's after. */
  function PhaseDeadline(s: State, opts: BuildOptions): Option<nat> {
    if s.childStatus.None? then opts.deadline else s.drainDeadline
  }

  /** Cancellation and a failed write look for an exit first; a finished build only loses log. */
  function CancelOr(s: State, seen: Option<ExitStatus>, now: nat, opts: BuildOptions): State {
    var o := Observe(s, seen, now, opts);
    if o.childStatus.Some? then Truncate(o) else AbortNow(o)
  }

  function Silence(s: State, seen: Option<ExitStatus>, now: nat, opts: BuildOptions): State {
    var o := Observe(s, seen, now, opts);
    if o.childStatus.Some? then o else Leave(Kill(o, "max-silent-time exceeded"))
  }

  function Deadline(s: State, seen: Option<ExitStatus>, now: nat, opts: BuildOptions): State {
    var o := Observe(s, seen, now, opts);
    if s.childStatus.None? && o.childStatus.Some? then o
    else if o.childStatus.None? then TimeOut(o)
    else Truncate(o)
  }

  // ---- reading a batch ----

  predicate Accepting(s: State) {
    !s.logSizeExceeded && !s.logTruncated && !s.sinkFailed
  }

  function SaturatingAdd(a: nat, b: nat): nat {
    if a + b <= U64_MAX then a + b else U64_MAX
  }

  datatype Batch = Batch(state: State, lines: seq<Line>, readError: Option<string>)

  /** Receive one line into the batch, or stop accepting when the log limit is hit. */
  function TakeLine(s: State, lines: seq<Line>, line: Line, opts: BuildOptions): Batch {
    var r := s.(log := s.log.(received := s.log.received + [line]));
    var bytes := SaturatingAdd(s.log.bytesSent, |line| + 1);
    if !Accepting(s) then Batch(r, lines, None)
    else if bytes <= opts.maxLogSize then Batch(r.(log := r.log.(bytesSent := bytes)), lines + [line], None)
    else if s.childStatus.None? then Batch(Kill(r, "max-log-size exceeded").(logSizeExceeded := true), lines, None)
    else Batch(r.(logTruncated := true), lines, None)
  }

  predicate Full(lines: seq<Line>) {
    |ChunkOf(lines)| >= MAX_BATCH_BYTES || |lines| >= MAX_BATCH_LINES
  }

  function ReadBatch(s: State, lines: seq<Line>, next: Line, more: seq<Receipt>, opts: BuildOptions): Batch
    decreases |more|
  {
    var b := TakeLine(s, lines, next, opts);
    if Full(b.lines) || more == [] then b
    else match more[0]
      case ReadError(e) => b.(readError := Some(e))
      case Got(line) => ReadBatch(b.state, b.lines, line, more[1..], opts)
  }

  // ---- forwarding it ----

  function RecordedLog(l: Log, lines: seq<Line>): Log {
    l.(batches := l.batches + [lines])
  }

  /**
   The sink has the batch, or there was nothing to send. `forwarded` counts the batches
   before the first one that was lost.
   */
  function AckedLog(l: Log, lines: seq<Line>): Log {
    l.(batches := l.batches + [lines],
       forwarded := if l.forwarded == |l.batches| then l.forwarded + 1 else l.forwarded,
       acked := l.acked + if ChunkOf(lines) == "" then [] else [ChunkOf(lines)])
  }

  /** The write was cancelled, failed or timed out: a finished build only loses log. */
  function LoseWrite(s: State, write: Write, seen: Option<ExitStatus>, now: nat, opts: BuildOptions): State {
    if write.Cancelled? && s.childStatus.None? then CancelOr(s, seen, now, opts)
    else
      var o := Observe(s, seen, now, opts);
      if o.childStatus.Some? then Truncate(o) else o.(sinkFailed := true, killed := true)
  }

  function Forward(s: State, lines: seq<Line>, write: Write, seen: Option<ExitStatus>, now: nat, opts: BuildOptions): State {
    if ChunkOf(lines) == "" || write.Acknowledged? then s.(log := AckedLog(s.log, lines))
    else LoseWrite(s.(log := RecordedLog(s.log, lines)), write, seen, now, opts)
  }

  /** The check at the bottom of the loop. */
  function CheckDeadline(s: State, now: nat, seen: Option<ExitStatus>, seenAt: nat, latest: nat, opts: BuildOptions): State {
    var d := PhaseDeadline(s, opts);
    if d.None? || now < d.value then s
    else
      var o := Observe(s, seen, seenAt, opts);
      if s.childStatus.None? && o.childStatus.Some? && latest < o.drainDeadline.value then o
      else if o.childStatus.None? then TimeOut(o)
      else Truncate(o)
  }

  function Finished(s: State, readError: Option<string>, e: Event, opts: BuildOptions): State
    requires e.Lines?
  {
    if !s.phase.Looping? then s
    else if readError.Some? then Leave(s.(error := Message(readError.value)))
    else CheckDeadline(s, e.checkedAt, e.seenLate, e.seenAt, e.latest, opts)
  }

  function Step(s: State, e: Event, opts: BuildOptions): State {
    if !s.phase.Looping? then s
    else match e
      case ChildExited(status, now) =>
        if s.childStatus.Some? then s
        else if status.None? then s.(phase := IoFailed)
        else Observe(s, status, now, opts)
      case SilentTimeout(seen, now) =>
        if s.childStatus.Some? || !opts.watchSilence then s else Silence(s, seen, now, opts)
      case DeadlineTimeout(seen, now) =>
        if PhaseDeadline(s, opts).None? then s else Deadline(s, seen, now, opts)
      case CancelRequested(seen, now) => CancelOr(s, seen, now, opts)
      case EndOfLines => Leave(s)
      case LineError(message) => Leave(s.(error := Message(message)))
      case Lines(first, more, write, seen, now, _, _, _, _) =>
        var b := ReadBatch(s, [], first, more, opts);
        Finished(Forward(b.state, b.lines, write, seen, now, opts), b.readError, e, opts)
  }

  function Exec(s: State, trace: seq<Event>, opts: BuildOptions): State
    decreases trace
  {
    if trace == [] then s else Exec(Step(s, trace[0], opts), trace[1..], opts)
  }

  lemma {:induction false} StoppedStays(s: State, trace: seq<Event>, opts: BuildOptions)
    requires !s.phase.Looping?
    ensures Exec(s, trace, opts) == s
    decreases trace
  {
    if trace == [] {
    } else {
      StoppedStays(s, trace[1..], opts);
    }
  }

  lemma {:induction false} ExecSplits(s: State, trace: seq<Event>, k: nat, opts: BuildOptions)
    requires k <= |trace|
    ensures Exec(s, trace, opts) == Exec(Exec(s, trace[..k], opts), trace[k..], opts)
    decreases k
  {
    if k == 0 {
      assert trace[..0] == [] && trace[0..] == trace;
    } else {
      ExecSplits(Step(s, trace[0], opts), trace[1..], k - 1, opts);
      assert trace[..k][0] == trace[0] && trace[..k][1..] == trace[1..][..k - 1];
      assert trace[1..][k - 1..] == trace[k..];
    }
  }

  // ---- the outcome ----

  datatype Outcome = Success | TimedOut | Aborted | OomKilled | BuildFailure

  /** `error` is empty when the failure summary of recent messages is used instead. */
  datatype Result = IoError | Done(outcome: Outcome, exitCode: int, error: Error, truncated: bool)

  /** How waiting for a child whose exit was not recorded ends. */
  datatype Reap = Reaped(status: ExitStatus) | ReapIoError | ReapTimedOut

  function FinalStatus(s: State, reap: Reap): Option<ExitStatus> {
    if s.childStatus.Some? then s.childStatus
    else if reap.Reaped? then Some(reap.status)
    else None
  }

  /** The build deadline also bounds the wait after the log ended on its own. */
  predicate TimesOutWaiting(s: State, reap: Reap, opts: BuildOptions) {
    s.childStatus.None? && !s.killed && opts.deadline.Some? && reap.ReapTimedOut?
  }

  predicate WaitFails(s: State, reap: Reap, opts: BuildOptions) {
    s.childStatus.None? && (reap.ReapIoError? || (!s.killed && opts.deadline.None? && reap.ReapTimedOut?))
  }

  function OutcomeWith(status: ExitStatus, s: State, timedOut: bool): Outcome {
    var oom := !s.killed && !s.aborted && !timedOut && status == Signal(9);
    var success := status == Code(0) && !s.logSizeExceeded && !s.sinkFailed && !s.aborted && !timedOut && !oom;
    if success then Success
    else if timedOut then TimedOut
    else if s.aborted then Aborted
    else if oom then OomKilled
    else BuildFailure
  }

  function ExitCode(status: ExitStatus): int {
    if status.Code? then status.code else -1
  }

  function Conclude(s: State, reap: Reap, opts: BuildOptions): Result {
    if s.phase.IoFailed? || WaitFails(s, reap, opts) then IoError
    else
      var late := TimesOutWaiting(s, reap, opts);
      var timedOut := s.timedOut || late;
      var error := if late then Message("build-timeout exceeded") else s.error;
      match FinalStatus(s, reap)
      case Some(status) => Done(OutcomeWith(status, s, timedOut), ExitCode(status), error, s.logTruncated)
      case None =>
        Done(if timedOut then TimedOut else if s.aborted then Aborted else BuildFailure, -1, error, s.logTruncated)
  }

  /** What an exit status means on its own. */
  function OutcomeOf(status: ExitStatus): Outcome {
    if status == Code(0) then Success else if status == Signal(9) then OomKilled else BuildFailure
  }

  // ---- flags ----

  ghost predicate FlagsInv(s: State) {
    && (s.drainDeadline.Some? <==> s.childStatus.Some?)
    && (s.logSizeExceeded || s.sinkFailed || s.aborted || s.timedOut ==> s.killed)
    && !(s.timedOut && s.aborted)
    && (s.timedOut || s.aborted ==> s.phase.Left? && s.childStatus.None?)
    && (s.logTruncated ==> s.childStatus.Some?)
    && (s.phase.IoFailed? ==> s.childStatus.None?)
    && (s.timedOut ==> s.error == Message("build-timeout exceeded"))
    && (s.aborted ==> s.error == Message("aborted by runner"))
  }

  /** Reading a batch changes only log-limit flags, and only as a kill before the exit. */
  ghost predicate ReadKeeps(s: State, t: State) {
    ExitKept(s, t) && LimitsKept(s, t)
  }

  ghost predicate ExitKept(s: State, t: State) {
    && t.phase == s.phase && t.childStatus == s.childStatus && t.drainDeadline == s.drainDeadline
    && t.aborted == s.aborted && t.timedOut == s.timedOut && t.sinkFailed == s.sinkFailed
  }

  ghost predicate LimitsKept(s: State, t: State) {
    && (s.childStatus.Some? ==> t.killed == s.killed && t.logSizeExceeded == s.logSizeExceeded)
    && (s.childStatus.None? ==> t.logTruncated == s.logTruncated && (s.killed ==> t.killed))
    && (t.logSizeExceeded && !s.logSizeExceeded ==> t.killed)
  }

  lemma TakeLineKeepsExit(s: State, lines: seq<Line>, line: Line, opts: BuildOptions)
    ensures ExitKept(s, TakeLine(s, lines, line, opts).state)
  {
  }

  lemma TakeLineKeeps(s: State, lines: seq<Line>, line: Line, opts: BuildOptions)
    ensures ReadKeeps(s, TakeLine(s, lines, line, opts).state)
  {
    TakeLineKeepsExit(s, lines, line, opts);
  }

  lemma ReadKeepsTransitive(s: State, t: State, u: State)
    requires ReadKeeps(s, t) && ReadKeeps(t, u)
    ensures ReadKeeps(s, u)
  {
  }

  lemma {:induction false} ReadBatchKeeps(s: State, lines: seq<Line>, next: Line, more: seq<Receipt>, opts: BuildOptions)
    ensures ReadKeeps(s, ReadBatch(s, lines, next, more, opts).state)
    decreases |more|
  {
    var b := TakeLine(s, lines, next, opts);
    TakeLineKeeps(s, lines, next, opts);
    if !Full(b.lines) && more != [] && more[0].Got? {
      ReadBatchKeeps(b.state, b.lines, more[0].line, more[1..], opts);
      ReadKeepsTransitive(s, b.state, ReadBatch(b.state, b.lines, more[0].line, more[1..], opts).state);
    }
  }

  /** Nothing about the verdict changes once the child's exit is recorded. */
  ghost predicate VerdictKept(s: State, t: State) {
    && t.childStatus == s.childStatus && t.drainDeadline == s.drainDeadline && t.killed == s.killed
    && t.aborted == s.aborted && t.timedOut == s.timedOut
    && t.sinkFailed == s.sinkFailed && t.logSizeExceeded == s.logSizeExceeded && !t.phase.IoFailed?
  }

  /** What each part of an iteration keeps. */
  ghost predicate Keeps(s: State, t: State) {
    FlagsInv(t) && (s.childStatus.Some? ==> VerdictKept(s, t))
  }

  lemma ForwardKeeps(s: State, lines: seq<Line>, write: Write, seen: Option<ExitStatus>, now: nat, opts: BuildOptions)
    requires FlagsInv(s) && s.phase.Looping?
    ensures Keeps(s, Forward(s, lines, write, seen, now, opts))
  {
  }

  lemma CheckKeeps(s: State, now: nat, seen: Option<ExitStatus>, seenAt: nat, latest: nat, opts: BuildOptions)
    requires FlagsInv(s) && s.phase.Looping?
    ensures Keeps(s, CheckDeadline(s, now, seen, seenAt, latest, opts))
  {
  }

  lemma LinesKeepFlags(s: State, e: Event, opts: BuildOptions)
    requires FlagsInv(s) && s.phase.Looping? && e.Lines?
    ensures Keeps(s, Step(s, e, opts))
  {
    var b := ReadBatch(s, [], e.first, e.more, opts);
    ReadBatchKeeps(s, [], e.first, e.more, opts);
    assert Keeps(s, b.state);
    var f := Forward(b.state, b.lines, e.write, e.seen, e.now, opts);
    ForwardKeeps(b.state, b.lines, e.write, e.seen, e.now, opts);
    if f.phase.Looping? { CheckKeeps(f, e.checkedAt, e.seenLate, e.seenAt, e.latest, opts); }
    assert Keeps(f, Finished(f, b.readError, e, opts));
  }

  lemma CancelKeeps(s: State, seen: Option<ExitStatus>, now: nat, opts: BuildOptions)
    requires FlagsInv(s) && s.phase.Looping?
    ensures Keeps(s, CancelOr(s, seen, now, opts))
  {
  }

  lemma DeadlineKeeps(s: State, seen: Option<ExitStatus>, now: nat, opts: BuildOptions)
    requires FlagsInv(s) && s.phase.Looping?
    ensures Keeps(s, Deadline(s, seen, now, opts))
  {
  }

  lemma StepKeepsFlags(s: State, e: Event, opts: BuildOptions)
    requires FlagsInv(s)
    ensures Keeps(s, Step(s, e, opts))
  {
    if s.phase.Looping? {
      match e
      case Lines(_, _, _, _, _, _, _, _, _) => LinesKeepFlags(s, e, opts);
      case CancelRequested(seen, now) => CancelKeeps(s, seen, now, opts);
      case DeadlineTimeout(seen, now) => DeadlineKeeps(s, seen, now, opts);
      case _ =>
    }
  }

  /** Flags stay consistent over every run. */
  lemma {:induction false} RunKeepsFlags(s: State, trace: seq<Event>, opts: BuildOptions)
    requires FlagsInv(s)
    ensures FlagsInv(Exec(s, trace, opts))
    decreases trace
  {
    if trace == [] {
    } else {
      StepKeepsFlags(s, trace[0], opts);
      RunKeepsFlags(Step(s, trace[0], opts), trace[1..], opts);
    }
  }

  lemma {:induction false} RunKeepsVerdict(s: State, trace: seq<Event>, opts: BuildOptions)
    requires FlagsInv(s) && s.childStatus.Some?
    ensures VerdictKept(s, Exec(s, trace, opts))
    decreases trace
  {
    if trace == [] {
    } else {
      StepKeepsFlags(s, trace[0], opts);
      RunKeepsVerdict(Step(s, trace[0], opts), trace[1..], opts);
    }
  }

  /**
   Once a run has recorded the child's exit without having killed it, no later event of any
   kind changes the outcome or the exit code: both are functions of that exit status alone.
   */
  lemma RecordedExitDecides(before: seq<Event>, after: seq<Event>, reap: Reap, opts: BuildOptions)
    requires var s := Exec(INIT, before, opts); s.childStatus.Some? && !s.killed
    ensures var status := Exec(INIT, before, opts).childStatus.value;
            var r := Conclude(Exec(Exec(INIT, before, opts), after, opts), reap, opts);
            r.Done? && r.outcome == OutcomeOf(status) && r.exitCode == ExitCode(status)
  {
    var s := Exec(INIT, before, opts);
    RunKeepsFlags(INIT, before, opts);
    RunKeepsVerdict(s, after, opts);
  }

  /** In every run the exit and its drain deadline are recorded together, and never again. */
  lemma ExitRecordedOnce(trace: seq<Event>, more: seq<Event>, opts: BuildOptions)
    ensures var s, t := Exec(INIT, trace, opts), Exec(Exec(INIT, trace, opts), more, opts);
            && (s.drainDeadline.Some? <==> s.childStatus.Some?)
            && (s.childStatus.Some? ==> t.childStatus == s.childStatus && t.drainDeadline == s.drainDeadline)
  {
    var s := Exec(INIT, trace, opts);
    RunKeepsFlags(INIT, trace, opts);
    if s.childStatus.Some? { RunKeepsVerdict(s, more, opts); }
  }

  /** Over every run: never both timed out and aborted; a child the loop killed is never out-of-memory. */
  lemma VerdictIsConsistent(trace: seq<Event>, reap: Reap, opts: BuildOptions)
    ensures var s := Exec(INIT, trace, opts);
            var r := Conclude(s, reap, opts);
            && !(s.timedOut && s.aborted)
            && (r.Done? && s.killed ==> r.outcome != OomKilled)
            && (r.Done? ==> (r.outcome == Aborted <==> s.aborted))
            && (r.Done? ==> (r.outcome == TimedOut <==> s.timedOut || TimesOutWaiting(s, reap, opts)))
            && (r.Done? && r.outcome == TimedOut ==> r.error == Message("build-timeout exceeded"))
            && (r.Done? && r.outcome == Aborted ==> r.error == Message("aborted by runner"))
            && (r.Done? && r.truncated ==> s.childStatus.Some?)
  {
    RunKeepsFlags(INIT, trace, opts);
  }

  // ---- killed children ----

  /** The loop left because of silence and nothing else. */
  predicate Silenced(s: State) {
    && s.phase.Left? && s.childStatus.None? && s.error == Message("max-silent-time exceeded")
    && !s.logSizeExceeded && !s.sinkFailed && !s.aborted && !s.timedOut
  }

  ghost predicate KillHasReason(s: State) {
    s.killed ==> s.logSizeExceeded || s.sinkFailed || s.aborted || s.timedOut || Silenced(s)
  }

  lemma TakeLineReason(s: State, lines: seq<Line>, line: Line, opts: BuildOptions)
    requires KillHasReason(s) && s.phase.Looping?
    ensures var t := TakeLine(s, lines, line, opts).state; KillHasReason(t) && t.phase.Looping?
  {
  }

  lemma {:induction false} ReadBatchReason(s: State, lines: seq<Line>, next: Line, more: seq<Receipt>, opts: BuildOptions)
    requires KillHasReason(s) && s.phase.Looping?
    ensures var t := ReadBatch(s, lines, next, more, opts).state; KillHasReason(t) && t.phase.Looping?
    decreases |more|
  {
    var b := TakeLine(s, lines, next, opts);
    TakeLineReason(s, lines, next, opts);
    if !Full(b.lines) && more != [] && more[0].Got? {
      ReadBatchReason(b.state, b.lines, more[0].line, more[1..], opts);
    }
  }

  lemma ForwardReason(s: State, lines: seq<Line>, write: Write, seen: Option<ExitStatus>, now: nat, opts: BuildOptions)
    requires KillHasReason(s) && s.phase.Looping?
    ensures KillHasReason(Forward(s, lines, write, seen, now, opts))
  {
  }

  lemma FinishedReason(s: State, readError: Option<string>, e: Event, opts: BuildOptions)
    requires KillHasReason(s) && e.Lines?
    ensures KillHasReason(Finished(s, readError, e, opts))
  {
  }

  lemma StepReason(s: State, e: Event, opts: BuildOptions)
    requires KillHasReason(s)
    ensures KillHasReason(Step(s, e, opts))
  {
    if e.Lines? && s.phase.Looping? {
      var b := ReadBatch(s, [], e.first, e.more, opts);
      ReadBatchReason(s, [], e.first, e.more, opts);
      ForwardReason(b.state, b.lines, e.write, e.seen, e.now, opts);
      FinishedReason(Forward(b.state, b.lines, e.write, e.seen, e.now, opts), b.readError, e, opts);
    }
  }

  lemma {:induction false} RunReason(s: State, trace: seq<Event>, opts: BuildOptions)
    requires KillHasReason(s)
    ensures KillHasReason(Exec(s, trace, opts))
    decreases trace
  {
    if trace == [] {
    } else {
      StepReason(s, trace[0], opts);
      RunReason(Step(s, trace[0], opts), trace[1..], opts);
    }
  }

  /** A child the loop killed is a success exactly when silence was the only reason and it still exits with 0. */
  lemma KilledSucceedsIffSilenced(trace: seq<Event>, reap: Reap, opts: BuildOptions)
    requires Exec(INIT, trace, opts).killed && Conclude(Exec(INIT, trace, opts), reap, opts).Done?
    ensures var s := Exec(INIT, trace, opts);
            Conclude(s, reap, opts).outcome == Success <==> Silenced(s) && reap == Reaped(Code(0))
  {
    RunReason(INIT, trace, opts);
    RunKeepsFlags(INIT, trace, opts);
  }

  /** Such a run exists. */
  lemma SilencedChildCanSucceed() returns (trace: seq<Event>, opts: BuildOptions)
    ensures Exec(INIT, trace, opts).killed
    ensures Conclude(Exec(INIT, trace, opts), Reaped(Code(0)), opts).Done?
    ensures Conclude(Exec(INIT, trace, opts), Reaped(Code(0)), opts).outcome == Success
  {
    trace, opts := [SilentTimeout(None, 0)], BuildOptions(0, true, None, 0);
    assert Exec(Step(INIT, trace[0], opts), [], opts) == Step(INIT, trace[0], opts);
    assert trace[1..] == [];
  }

  // ---- the log ----

  /** Mid-batch: what was accepted is a prefix of what was received, and is what was counted. */
  ghost predicate ReadingOk(l: Log, lines: seq<Line>, accepting: bool, opts: BuildOptions) {
    var accepted := Flatten(l.batches) + lines;
    && accepted <= l.received
    && (accepting ==> accepted == l.received)
    && (opts.maxLogSize < U64_MAX ==> l.bytesSent == Cost(accepted) <= opts.maxLogSize)
  }

  lemma AcceptKeeps(l: Log, lines: seq<Line>, line: Line, bytes: nat, opts: BuildOptions)
    requires ReadingOk(l, lines, true, opts) && bytes == SaturatingAdd(l.bytesSent, |line| + 1) <= opts.maxLogSize
    ensures ReadingOk(l.(received := l.received + [line], bytesSent := bytes), lines + [line], true, opts)
  {
    var accepted := Flatten(l.batches) + lines;
    var more := accepted + [line];
    assert more[..|more| - 1] == accepted;
    assert Flatten(l.batches) + (lines + [line]) == more;
  }

  /** Reading leaves the batches and acknowledgements alone, and adds nothing when not accepting. */
  ghost predicate OnlyReads(s: State, lines: seq<Line>, b: Batch) {
    && b.state.log.batches == s.log.batches && b.state.log.forwarded == s.log.forwarded && b.state.log.acked == s.log.acked
    && s.log.received <= b.state.log.received
    && (Accepting(b.state) ==> Accepting(s)) && (!Accepting(s) ==> b.lines == lines)
  }

  lemma TakeLineOnlyReads(s: State, lines: seq<Line>, line: Line, opts: BuildOptions)
    ensures OnlyReads(s, lines, TakeLine(s, lines, line, opts))
  {
  }

  lemma TakeLineLogs(s: State, lines: seq<Line>, line: Line, opts: BuildOptions)
    requires ReadingOk(s.log, lines, Accepting(s), opts)
    ensures var b := TakeLine(s, lines, line, opts); ReadingOk(b.state.log, b.lines, Accepting(b.state), opts)
  {
    var bytes := SaturatingAdd(s.log.bytesSent, |line| + 1);
    if Accepting(s) && bytes <= opts.maxLogSize {
      AcceptKeeps(s.log, lines, line, bytes, opts);
    }
  }

  lemma {:induction false} ReadBatchLogs(s: State, lines: seq<Line>, next: Line, more: seq<Receipt>, opts: BuildOptions)
    requires ReadingOk(s.log, lines, Accepting(s), opts)
    ensures var b := ReadBatch(s, lines, next, more, opts);
            ReadingOk(b.state.log, b.lines, Accepting(b.state), opts) && OnlyReads(s, lines, b)
    decreases |more|
  {
    var b := TakeLine(s, lines, next, opts);
    TakeLineLogs(s, lines, next, opts);
    TakeLineOnlyReads(s, lines, next, opts);
    if !Full(b.lines) && more != [] && more[0].Got? {
      ReadBatchLogs(b.state, b.lines, more[0].line, more[1..], opts);
    }
  }

  /** No further batch will be accepted for sending. */
  predicate Stuck(s: State) {
    s.sinkFailed || !s.phase.Looping?
  }

  ghost predicate ForwardedOk(l: Log) {
    l.forwarded <= |l.batches| && l.acked == ChunksOf(l.batches[..l.forwarded])
  }

  ghost predicate LogOk(l: Log, accepting: bool, stuck: bool, opts: BuildOptions) {
    ReadingOk(l, [], accepting, opts) && ForwardedOk(l) && (l.forwarded < |l.batches| ==> stuck)
  }

  ghost predicate LogInv(s: State, opts: BuildOptions) {
    LogOk(s.log, Accepting(s), Stuck(s), opts)
  }

  lemma FlattenOneMore(batches: seq<seq<Line>>, lines: seq<Line>)
    ensures Flatten(batches + [lines]) + [] == Flatten(batches) + lines
  {
    var more := batches + [lines];
    assert more[..|more| - 1] == batches;
  }

  lemma AckKeepsForwarded(l: Log, lines: seq<Line>)
    requires ForwardedOk(l) && (l.forwarded < |l.batches| ==> lines == [])
    ensures ForwardedOk(AckedLog(l, lines))
  {
    var m, k := AckedLog(l, lines), l.forwarded;
    if k == |l.batches| {
      assert m.batches[..k + 1] == m.batches;
      assert m.batches[..k] == l.batches == l.batches[..k];
    } else {
      assert m.batches[..k] == l.batches[..k];
    }
  }

  /** A batch recorded as sent, or as lost when nothing more will be sent. */
  lemma RecordKeepsLog(l: Log, lines: seq<Line>, accepting: bool, stuck: bool, opts: BuildOptions)
    requires ReadingOk(l, lines, accepting, opts) && ForwardedOk(l)
    requires l.forwarded < |l.batches| ==> stuck && lines == []
    ensures LogOk(AckedLog(l, lines), accepting, stuck, opts)
    ensures LogOk(RecordedLog(l, lines), accepting, true, opts)
  {
    FlattenOneMore(l.batches, lines);
    AckKeepsForwarded(l, lines);
    assert (l.batches + [lines])[..l.forwarded] == l.batches[..l.forwarded];
  }

  /** Everything else in an iteration only stops things. */
  ghost predicate OnlyStops(s: State, t: State) {
    t.log == s.log && (Accepting(t) ==> Accepting(s)) && (Stuck(s) ==> Stuck(t))
  }

  lemma ObserveOnlyStops(s: State, seen: Option<ExitStatus>, now: nat, opts: BuildOptions)
    ensures OnlyStops(s, Observe(s, seen, now, opts))
  {
  }

  /** From an observed state, each way out of the loop. */
  lemma WaysOutOnlyStop(s: State, o: State)
    requires OnlyStops(s, o)
    ensures OnlyStops(s, Truncate(o)) && OnlyStops(s, AbortNow(o)) && OnlyStops(s, TimeOut(o))
  {
  }

  lemma CancelOnlyStops(s: State, seen: Option<ExitStatus>, now: nat, opts: BuildOptions)
    ensures OnlyStops(s, CancelOr(s, seen, now, opts)) && OnlyStops(s, Deadline(s, seen, now, opts))
  {
    ObserveOnlyStops(s, seen, now, opts);
    WaysOutOnlyStop(s, Observe(s, seen, now, opts));
  }

  lemma SilenceOnlyStops(s: State, seen: Option<ExitStatus>, now: nat, opts: BuildOptions)
    ensures OnlyStops(s, Silence(s, seen, now, opts))
  {
    ObserveOnlyStops(s, seen, now, opts);
  }

  lemma LoseWriteShape(s: State, write: Write, seen: Option<ExitStatus>, now: nat, opts: BuildOptions)
    ensures var t := LoseWrite(s, write, seen, now, opts); OnlyStops(s, t) && Stuck(t)
  {
    ObserveOnlyStops(s, seen, now, opts);
    WaysOutOnlyStop(s, Observe(s, seen, now, opts));
  }

  lemma ForwardShape(s: State, lines: seq<Line>, e: Event, opts: BuildOptions)
    requires e.Lines? && s.phase.Looping?
    ensures var t := Forward(s, lines, e.write, e.seen, e.now, opts);
            && (t == s.(log := AckedLog(s.log, lines)) || (t.log == RecordedLog(s.log, lines) && Stuck(t)))
            && (Accepting(t) ==> Accepting(s))
  {
    LoseWriteShape(s.(log := RecordedLog(s.log, lines)), e.write, e.seen, e.now, opts);
  }

  lemma LinesKeepLog(s: State, e: Event, opts: BuildOptions)
    requires LogInv(s, opts) && s.phase.Looping? && e.Lines?
    ensures var b := ReadBatch(s, [], e.first, e.more, opts); LogInv(Forward(b.state, b.lines, e.write, e.seen, e.now, opts), opts)
  {
    var b := ReadBatch(s, [], e.first, e.more, opts);
    ReadBatchLogs(s, [], e.first, e.more, opts);
    ReadBatchKeeps(s, [], e.first, e.more, opts);
    RecordKeepsLog(b.state.log, b.lines, Accepting(b.state), Stuck(b.state), opts);
    ForwardShape(b.state, b.lines, e, opts);
  }

  lemma FinishedOnlyStops(s: State, readError: Option<string>, e: Event, opts: BuildOptions)
    requires e.Lines?
    ensures OnlyStops(s, Finished(s, readError, e, opts))
  {
    ObserveOnlyStops(s, e.seenLate, e.seenAt, opts);
    WaysOutOnlyStop(s, Observe(s, e.seenLate, e.seenAt, opts));
  }

  lemma OtherEventsOnlyStop(s: State, e: Event, opts: BuildOptions)
    requires !e.Lines?
    ensures OnlyStops(s, Step(s, e, opts))
  {
    match e
    case ChildExited(status, now) => ObserveOnlyStops(s, status, now, opts);
    case SilentTimeout(seen, now) => SilenceOnlyStops(s, seen, now, opts);
    case CancelRequested(seen, now) => CancelOnlyStops(s, seen, now, opts);
    case DeadlineTimeout(seen, now) => CancelOnlyStops(s, seen, now, opts);
    case _ =>
  }

  lemma StepKeepsLog(s: State, e: Event, opts: BuildOptions)
    requires LogInv(s, opts)
    ensures LogInv(Step(s, e, opts), opts)
  {
    if !e.Lines? {
      OtherEventsOnlyStop(s, e, opts);
    } else if s.phase.Looping? {
      var b := ReadBatch(s, [], e.first, e.more, opts);
      LinesKeepLog(s, e, opts);
      FinishedOnlyStops(Forward(b.state, b.lines, e.write, e.seen, e.now, opts), b.readError, e, opts);
    }
  }

  lemma {:induction false} RunKeepsLog(s: State, trace: seq<Event>, opts: BuildOptions)
    requires LogInv(s, opts)
    ensures LogInv(Exec(s, trace, opts), opts)
    decreases trace
  {
    if trace == [] {
    } else {
      StepKeepsLog(s, trace[0], opts);
      RunKeepsLog(Step(s, trace[0], opts), trace[1..], opts);
    }
  }

  /**
   Over every run: accepted lines are a prefix of the lines received; the acknowledged chunks
   are those of a prefix of the batches; and together they respect the log limit.
   */
  lemma LogIsFaithful(trace: seq<Event>, opts: BuildOptions)
    ensures var l := Exec(INIT, trace, opts).log;
            && Flatten(l.batches) <= l.received
            && l.forwarded <= |l.batches| && l.acked == ChunksOf(l.batches[..l.forwarded])
            && (AllNoBreaks(l.received) ==> Read(l.acked) == NonEmpty(Flatten(l.batches[..l.forwarded])))
            && (opts.maxLogSize < U64_MAX ==> TotalLength(l.acked) <= opts.maxLogSize)
  {
    var s := Exec(INIT, trace, opts);
    RunKeepsLog(INIT, trace, opts);
    var l := s.log;
    var sent := l.batches[..l.forwarded];
    assert Flatten(l.batches) + [] == Flatten(l.batches);
    FlattenMonotone(l.batches, l.forwarded);
    ChunksWithinCost(sent);
    if AllNoBreaks(l.received) {
      BatchesFromReceived(sent, l.received);
      ChunksReadBack(sent);
    }
  }

  lemma {:induction false} BatchesFromReceived(batches: seq<seq<Line>>, received: seq<Line>)
    requires Flatten(batches) <= received && AllNoBreaks(received)
    ensures forall i :: 0 <= i < |batches| ==> AllNoBreaks(batches[i])
  {
    if batches == [] {
    } else {
      var n := |batches| - 1;
      var front := Flatten(batches[..n]);
      assert front <= received;
      BatchesFromReceived(batches[..n], received);
      forall j | 0 <= j < |batches[n]| ensures NoBreaks(batches[n][j]) {
        assert batches[n][j] == received[|front| + j];
      }
    }
  }

  // ---- chunk size ----

  ghost predicate AllShort(lines: seq<Line>) {
    forall i :: 0 <= i < |lines| ==> |lines[i]| <= LONGEST_LINE
  }

  ghost predicate ChunksFit(l: Log) {
    AllShort(l.received) ==> forall i :: 0 <= i < |l.acked| ==> |l.acked[i]| <= MAX_CHUNK_BYTES
  }

  /** The batch at hand can be sent. */
  ghost predicate BatchFits(l: Log, lines: seq<Line>) {
    AllShort(l.received) ==> |ChunkOf(lines)| <= MAX_CHUNK_BYTES
  }

  lemma AppendFits(l: Log, lines: seq<Line>, line: Line)
    requires |ChunkOf(lines)| < MAX_BATCH_BYTES && l.received != [] && l.received[|l.received| - 1] == line
    ensures BatchFits(l, lines) && BatchFits(l, lines + [line])
  {
    assert (lines + [line])[..|lines|] == lines;
  }

  lemma TakeLineShape(s: State, lines: seq<Line>, line: Line, opts: BuildOptions)
    ensures var b := TakeLine(s, lines, line, opts);
            b.state.log.received == s.log.received + [line] && (b.lines == lines || b.lines == lines + [line])
  {
  }

  lemma TakeLineFits(s: State, lines: seq<Line>, line: Line, opts: BuildOptions)
    requires |ChunkOf(lines)| < MAX_BATCH_BYTES
    ensures var b := TakeLine(s, lines, line, opts); BatchFits(b.state.log, b.lines)
  {
    TakeLineShape(s, lines, line, opts);
    AppendFits(TakeLine(s, lines, line, opts).state.log, lines, line);
  }

  lemma {:induction false} ReadBatchFits(s: State, lines: seq<Line>, next: Line, more: seq<Receipt>, opts: BuildOptions)
    requires |ChunkOf(lines)| < MAX_BATCH_BYTES
    ensures var b := ReadBatch(s, lines, next, more, opts); BatchFits(b.state.log, b.lines)
    decreases |more|
  {
    var b := TakeLine(s, lines, next, opts);
    TakeLineFits(s, lines, next, opts);
    if !Full(b.lines) && more != [] && more[0].Got? {
      ReadBatchFits(b.state, b.lines, more[0].line, more[1..], opts);
    }
  }

  lemma LongerLogFits(l: Log, m: Log)
    requires ChunksFit(l) && m.acked == l.acked && l.received <= m.received
    ensures ChunksFit(m)
  {
    if AllShort(m.received) {
      forall i | 0 <= i < |l.received| ensures |l.received[i]| <= LONGEST_LINE {
        assert m.received[i] == l.received[i];
      }
    }
  }

  lemma RecordFits(l: Log, lines: seq<Line>)
    requires ChunksFit(l) && BatchFits(l, lines)
    ensures ChunksFit(AckedLog(l, lines)) && ChunksFit(RecordedLog(l, lines))
  {
  }

  lemma StepKeepsFit(s: State, e: Event, opts: BuildOptions)
    requires LogInv(s, opts) && ChunksFit(s.log)
    ensures ChunksFit(Step(s, e, opts).log)
  {
    if !e.Lines? {
      OtherEventsOnlyStop(s, e, opts);
    } else if s.phase.Looping? {
      var b := ReadBatch(s, [], e.first, e.more, opts);
      ReadBatchLogs(s, [], e.first, e.more, opts);
      LongerLogFits(s.log, b.state.log);
      ReadBatchFits(s, [], e.first, e.more, opts);
      RecordFits(b.state.log, b.lines);
      ReadBatchKeeps(s, [], e.first, e.more, opts);
      ForwardShape(b.state, b.lines, e, opts);
      FinishedOnlyStops(Forward(b.state, b.lines, e.write, e.seen, e.now, opts), b.readError, e, opts);
    }
  }

  lemma {:induction false} RunKeepsFit(s: State, trace: seq<Event>, opts: BuildOptions)
    requires LogInv(s, opts) && ChunksFit(s.log)
    ensures ChunksFit(Exec(s, trace, opts).log)
    decreases trace
  {
    if trace == [] {
    } else {
      StepKeepsFit(s, trace[0], opts);
      StepKeepsLog(s, trace[0], opts);
      RunKeepsFit(Step(s, trace[0], opts), trace[1..], opts);
    }
  }

  /** Over every run in which no line exceeds 768 KiB, every chunk fits the 1 MiB wire limit. */
  lemma ChunksFitTheWire(trace: seq<Event>, opts: BuildOptions)
    ensures ChunksFit(Exec(INIT, trace, opts).log)
  {
    RunKeepsFit(INIT, trace, opts);
  }
}
