/**
 Claiming and finishing one evaluation row, with any number of evaluator workers and
 administrators interleaving between single database statements. Each statement is one
 atomic conditional update; a worker acts on a snapshot that may be stale by then. The
 builds of an evaluation carry unique job names, so a commit that repeats one rolls back.
 */
module Evaluation {
  import opened Options

  datatype Status = Pending | Running | Completed | Failed | TimedOut | Cancelled

  type Worker = nat

  /** A job name. */
  type Name = string

  /**
   What a worker is about to do, given what it last read. `records` says the worker drains
   the pending list and records its errors on the row; a polling worker only logs them.
   */
  datatype Pc =
    | Idle
    | SawPending(records: bool) // about to try_claim_pending
    | SawFailed                 // saw failed or timed-out, about to restart
    | SawCompleted              // about to count the evaluation's builds
    | CountedZero               // counted none, about to set running again
    | ListedToReject            // listed as pending for a jobset that takes none, about to fail it
    | Evaluating(records: bool) // owns a claim, about to finish or commit
    | Recording                 // its evaluation or commit failed, about to record that

  /** `builds` names the builds attached to the row, `sets` counts the commits that attached them. */
  datatype State = State(status: Status, builds: seq<Name>, sets: nat, workers: map<Worker, Pc>)

  datatype Action =
    | Read(worker: Worker)
    | Drain(worker: Worker)
    | ListForReject(worker: Worker)
    | Act(worker: Worker, restartable: bool)
    | Finish(worker: Worker, status: Status)
    | Fail(worker: Worker)
    | Commit(worker: Worker, names: seq<Name>)
    | AdminRestart
    | Cancel
    | SweepOrphan(giveUp: bool)

  /** A row is created pending, or running on behalf of the worker that polled its jobset. */
  function Init(workers: set<Worker>, poller: Option<Worker>): State {
    var idle := map w | w in workers :: Idle;
    if poller.None? then State(Pending, [], 0, idle)
    else State(Running, [], 0, idle[poller.value := Evaluating(false)])
  }

  predicate Restartable(st: Status) {
    st.Cancelled? || st.Failed? || st.TimedOut?
  }

  function Move(s: State, w: Worker, pc: Pc): State {
    s.(workers := s.workers[w := pc])
  }

  /** Back to pending, with the builds of earlier attempts deleted. */
  function Requeue(s: State): State {
    s.(status := Pending, builds := [], sets := 0)
  }

  /** How `claim_existing` dispatches on the status it was handed. */
  function AfterRead(status: Status): Pc {
    match status
    case Pending => SawPending(false)
    case Failed => SawFailed
    case TimedOut => SawFailed
    case Completed => SawCompleted
    case Running => Idle
    case Cancelled => Idle
  }

  /** The worker's next statement. `restartable` says the jobset admits a restart. */
  function AfterAct(s: State, w: Worker, restartable: bool): State
    requires w in s.workers
  {
    match s.workers[w]
    case SawPending(records) =>
      if s.status.Pending? then Move(s.(status := Running), w, Evaluating(records)) else Move(s, w, Idle)
    case SawFailed =>
      if restartable && Restartable(s.status) then Move(Requeue(s), w, SawPending(false)) else Move(s, w, Idle)
    case SawCompleted =>
      if s.builds == [] then Move(s, w, CountedZero) else Move(s, w, Idle)
    case CountedZero => Move(s.(status := Running), w, Evaluating(false))
    case ListedToReject => Move(s.(status := Failed), w, Idle)
    case Recording => Move(if s.status.Running? then s.(status := Failed) else s, w, Idle)
    case Idle => s
    case Evaluating(_) => s
  }

  /** A failed evaluation or transaction: the error is recorded next, or only logged. */
  function GiveUp(s: State, w: Worker): State
    requires w in s.workers && s.workers[w].Evaluating?
  {
    Move(s, w, if s.workers[w].records then Recording else Idle)
  }

  /** Insert rows one by one under the unique constraint; the first conflict rolls all of them back. */
  function InsertAll(builds: seq<Name>, names: seq<Name>): Option<seq<Name>>
    decreases |names|
  {
    if names == [] then Some(builds)
    else if names[0] in builds then None
    else InsertAll(builds + [names[0]], names[1..])
  }

  /** The transaction: lock the running row, insert its builds, complete it. */
  function AfterCommit(s: State, w: Worker, names: seq<Name>): State
    requires w in s.workers && s.workers[w].Evaluating?
  {
    if !s.status.Running? then Move(s, w, Idle)
    else match InsertAll(s.builds, names)
      case None => GiveUp(s, w)
      case Some(builds) =>
        Move(s.(status := Completed, builds := builds, sets := if names == [] then s.sets else s.sets + 1), w, Idle)
  }

  /** The worker owns a claim. */
  predicate Claims(s: State, w: Worker) {
    w in s.workers && s.workers[w].Evaluating?
  }

  predicate Free(s: State, w: Worker) {
    w in s.workers && s.workers[w].Idle?
  }

  function Step(s: State, a: Action): State {
    match a
    case Read(w) => if Free(s, w) then Move(s, w, AfterRead(s.status)) else s
    case Drain(w) => if Free(s, w) && s.status.Pending? then Move(s, w, SawPending(true)) else s
    case ListForReject(w) => if Free(s, w) && s.status.Pending? then Move(s, w, ListedToReject) else s
    case Act(w, ok) => if w in s.workers then AfterAct(s, w, ok) else s
    case Finish(w, st) =>
      if !Claims(s, w) || !(st.Completed? || st.Failed? || st.TimedOut?) then s
      else Move(if s.status.Running? then s.(status := st) else s, w, Idle)
    case Fail(w) => if Claims(s, w) then GiveUp(s, w) else s
    case Commit(w, names) => if Claims(s, w) then AfterCommit(s, w, names) else s
    case AdminRestart => if Restartable(s.status) then Requeue(s) else s
    case Cancel => if s.status.Pending? || s.status.Running? then s.(status := Cancelled) else s
    case SweepOrphan(giveUp) => if s.status.Running? then s.(status := if giveUp then Failed else Pending) else s
  }

  function Exec(s: State, run: seq<Action>): State
    decreases run
  {
    if run == [] then s else Exec(Step(s, run[0]), run[1..])
  }

  // ---- properties of every state of a run ----

  /** `good` holds at every point of the run, its start and end included. */
  ghost predicate Always(good: State -> bool, s: State, run: seq<Action>)
    decreases run
  {
    good(s) && (run == [] || Always(good, Step(s, run[0]), run[1..]))
  }

  /** No step of the run is a bad one. */
  ghost predicate Never(bad: (State, Action) -> bool, s: State, run: seq<Action>)
    decreases run
  {
    run == [] || (!bad(s, run[0]) && Never(bad, Step(s, run[0]), run[1..]))
  }

  /** Exactly the bad steps end what is good. */
  ghost predicate EndsExactly(good: State -> bool, bad: (State, Action) -> bool) {
    forall s, a :: good(s) ==> (good(Step(s, a)) <==> !bad(s, a))
  }

  lemma {:induction false} AlwaysIffNever(good: State -> bool, bad: (State, Action) -> bool, s: State, run: seq<Action>)
    requires EndsExactly(good, bad) && good(s)
    ensures Always(good, s, run) <==> Never(bad, s, run)
    decreases run
  {
    if run == [] {
    } else {
      var t := Step(s, run[0]);
      assert good(t) <==> !bad(s, run[0]);
      if good(t) {
        AlwaysIffNever(good, bad, t, run[1..]);
      } else {
        assert !Always(good, t, run[1..]);
      }
    }
  }

  // ---- which rows a poll takes up ----

  /** A poll that nobody interrupts. */
  ghost function Polled(s: State, w: Worker, restartable: bool): State {
    Step(Step(Step(s, Read(w)), Act(w, restartable)), Act(w, restartable))
  }

  /**
   Such a poll claims exactly the pending rows, the failed and timed-out ones whose jobset may
   be restarted, and the completed ones without builds; any other row it leaves as it is.
   */
  lemma PollClaimsIff(s: State, w: Worker, restartable: bool)
    requires Free(s, w)
    ensures var t := Polled(s, w, restartable);
            var takes := || s.status == Pending
                         || (s.status in {Failed, TimedOut} && restartable)
                         || (s.status == Completed && s.builds == []);
            && (Claims(t, w) <==> takes)
            && (takes ==> t.status == Running && t.builds == (if s.status in {Failed, TimedOut} then [] else s.builds))
            && (!takes ==> t == s)
  {
    match s.status
    case Pending => PollsOpen(s, w, restartable);
    case Failed => PollsFailed(s, w, restartable);
    case TimedOut => PollsFailed(s, w, restartable);
    case Completed => PollsCompleted(s, w, restartable);
    case Running => PollsOpen(s, w, restartable);
    case Cancelled => PollsOpen(s, w, restartable);
  }

  lemma PollsOpen(s: State, w: Worker, restartable: bool)
    requires Free(s, w) && s.status in {Pending, Running, Cancelled}
    ensures var t := Polled(s, w, restartable);
            if s.status == Pending then t == Move(s.(status := Running), w, Evaluating(false)) else t == s
  {
    assert s.workers[w := Idle] == s.workers;
    assert s.workers[w := SawPending(false)][w := Evaluating(false)] == s.workers[w := Evaluating(false)];
  }

  lemma PollsFailed(s: State, w: Worker, restartable: bool)
    requires Free(s, w) && s.status in {Failed, TimedOut}
    ensures var t := Polled(s, w, restartable);
            if restartable then t == Move(Requeue(s).(status := Running), w, Evaluating(false)) else t == s
  {
    assert s.workers[w := SawFailed][w := Idle] == s.workers;
    assert s.workers[w := SawFailed][w := SawPending(false)][w := Evaluating(false)] == s.workers[w := Evaluating(false)];
  }

  lemma PollsCompleted(s: State, w: Worker, restartable: bool)
    requires Free(s, w) && s.status == Completed
    ensures var t := Polled(s, w, restartable);
            if s.builds == [] then t == Move(s.(status := Running), w, Evaluating(false)) else t == s
  {
    assert s.workers[w := SawCompleted][w := Idle] == s.workers;
    assert s.workers[w := SawCompleted][w := CountedZero][w := Evaluating(false)] == s.workers[w := Evaluating(false)];
  }

  /** A row listed as pending and then claimed is claimed exactly if it still is; its worker records errors. */
  lemma DrainClaimsIff(s: State, w: Worker, ok: bool)
    requires Free(s, w)
    ensures var t := Step(Step(s, Drain(w)), Act(w, ok));
            t == if s.status == Pending then Move(s.(status := Running), w, Evaluating(true)) else s
    ensures s.status != Pending ==> Step(s, Drain(w)) == s == Step(s, ListForReject(w))
  {
    assert s.workers[w := SawPending(true)][w := Evaluating(true)] == s.workers[w := Evaluating(true)];
  }

  /** A pending row of a jobset that takes none is failed; no other row is listed for that. */
  lemma RejectFailsIff(s: State, w: Worker, ok: bool)
    requires Free(s, w)
    ensures var t := Step(Step(s, ListForReject(w)), Act(w, ok));
            t == if s.status == Pending then s.(status := Failed) else s
  {
    assert s.workers[w := ListedToReject][w := Idle] == s.workers;
  }

  /** A worker's result stands exactly while the row is still running, and is recorded as it is. */
  lemma FinishRecordsIff(s: State, w: Worker, st: Status)
    requires Claims(s, w) && st in {Completed, Failed, TimedOut}
    ensures var t := Step(s, Finish(w, st));
            t.status == (if s.status == Running then st else s.status) && t.builds == s.builds && !Owner(t, w)
  {
  }

  /** The worker still has a statement to make about a row it claimed. */
  predicate Owner(s: State, w: Worker) {
    w in s.workers && (s.workers[w].Evaluating? || s.workers[w].Recording?)
  }

  /** The sweeper touches running rows only, and keeps their builds. */
  lemma SweepIs(s: State)
    ensures Step(s, SweepOrphan(true)) == if s.status == Running then s.(status := Failed) else s
    ensures Step(s, SweepOrphan(false)) == if s.status == Running then s.(status := Pending) else s
  {
  }

  // ---- what a commit adds ----

  ghost predicate NoRepeats(names: seq<Name>) {
    forall i, j :: 0 <= i < j < |names| ==> names[i] != names[j]
  }

  ghost predicate Apart(names: seq<Name>, builds: seq<Name>) {
    forall n :: n in names ==> n !in builds
  }

  /** The inserts go through exactly when no name repeats, within the set or among the builds. */
  lemma {:induction false} InsertAllIff(builds: seq<Name>, names: seq<Name>)
    ensures InsertAll(builds, names).Some? <==> NoRepeats(names) && Apart(names, builds)
    ensures InsertAll(builds, names).Some? ==> InsertAll(builds, names).value == builds + names
    decreases |names|
  {
    if names == [] {
      assert builds + names == builds;
    } else {
      var n, rest, more := names[0], names[1..], builds + [names[0]];
      InsertAllIff(more, rest);
      assert more + rest == builds + names;
      HeadApart(builds, names);
    }
  }

  lemma HeadApart(builds: seq<Name>, names: seq<Name>)
    requires names != []
    ensures NoRepeats(names) && Apart(names, builds) <==>
            names[0] !in builds && NoRepeats(names[1..]) && Apart(names[1..], builds + [names[0]])
  {
    var n, rest := names[0], names[1..];
    assert names == [n] + rest;
    if n !in builds && NoRepeats(rest) && Apart(rest, builds + [n]) {
      forall i, j | 0 <= i < j < |names| ensures names[i] != names[j] {
        assert names[j] == rest[j - 1] && rest[j - 1] in rest;
      }
    }
    if NoRepeats(names) && Apart(names, builds) {
      forall m | m in rest ensures m !in builds + [n] {
        var i :| 0 <= i < |rest| && rest[i] == m;
        assert names[i + 1] == m;
      }
    }
  }

  /** The commit of a claim on a running row whose names are all new. */
  ghost predicate Adds(s: State, a: Action) {
    && a.Commit? && Claims(s, a.worker) && s.status == Running
    && a.names != [] && NoRepeats(a.names) && Apart(a.names, s.builds)
  }

  /** Builds appear in exactly such a step, all of its names at once, and complete the row. */
  lemma BuildsAppearIff(s: State, a: Action)
    ensures |Step(s, a).builds| > |s.builds| <==> Adds(s, a)
    ensures Adds(s, a) ==>
              Step(s, a).builds == s.builds + a.names && Step(s, a).sets == s.sets + 1 && Step(s, a).status == Completed
    ensures !Adds(s, a) ==> (Step(s, a).builds, Step(s, a).sets) in {(s.builds, s.sets), ([], 0)}
  {
    if a.Commit? { InsertAllIff(s.builds, a.names); }
  }

  lemma StepKeepsNamesUnique(s: State, a: Action)
    requires NoRepeats(s.builds)
    ensures NoRepeats(Step(s, a).builds)
  {
    BuildsAppearIff(s, a);
    if Adds(s, a) {
      var all := s.builds + a.names;
      forall i, j | 0 <= i < j < |all| ensures all[i] != all[j] {
        if i < |s.builds| <= j { assert a.names[j - |s.builds|] in a.names; }
      }
    }
  }

  /** Over every run, whoever interleaves, no job name is attached twice. */
  lemma {:induction false} NamesStayUnique(s: State, run: seq<Action>)
    requires NoRepeats(s.builds)
    ensures NoRepeats(Exec(s, run).builds)
    decreases run
  {
    if run == [] {
    } else {
      StepKeepsNamesUnique(s, run[0]);
      NamesStayUnique(Step(s, run[0]), run[1..]);
    }
  }

  /** All commits of the run carry these names, as repeated evaluations of one commit do. */
  predicate AlwaysNames(run: seq<Action>, names: seq<Name>) {
    forall i :: 0 <= i < |run| && run[i].Commit? ==> run[i].names == names
  }

  lemma NotApartFromItself(names: seq<Name>)
    ensures names != [] ==> !Apart(names, names)
  {
    assert names != [] ==> names[0] in names;
  }

  /** When repeated evaluations find the same jobs, the row never holds more than one set of them. */
  lemma {:induction false} SameNamesNeverTwice(s: State, run: seq<Action>, names: seq<Name>)
    requires AlwaysNames(run, names) && (s.builds == [] || s.builds == names)
    ensures Exec(s, run).builds == [] || Exec(s, run).builds == names
    decreases run
  {
    if run == [] {
    } else {
      var t := Step(s, run[0]);
      BuildsAppearIff(s, run[0]);
      NotApartFromItself(names);
      assert [] + names == names;
      SameNamesNeverTwice(t, run[1..], names);
    }
  }

  // ---- when a second set is attached ----

  /** A worker re-claims a completed row on a build count that is no longer true. */
  predicate StaleReclaim(s: State, a: Action) {
    a.Act? && a.worker in s.workers && s.workers[a.worker].CountedZero? && s.builds != []
  }

  /** Exactly by a stale worker does a completed row lose that status while it has builds. */
  lemma LeavesCompletedIff(s: State, a: Action)
    requires s.status == Completed && s.builds != []
    ensures Step(s, a).status != Completed <==>
            StaleReclaim(s, a) || (a.Act? && a.worker in s.workers && s.workers[a.worker].ListedToReject?)
    ensures Step(s, a).builds == s.builds
  {
  }

  /** A worker acts on a count or a listing made before the row was completed. */
  predicate ActsOutdated(s: State, a: Action) {
    a.Act? && a.worker in s.workers && (s.workers[a.worker].CountedZero? || s.workers[a.worker].ListedToReject?)
  }

  /** Over every run, a row completed with builds stays so, with the same builds, exactly if no such worker acts. */
  lemma StaysCompletedIff(s: State, run: seq<Action>)
    requires s.status == Completed && s.builds != []
    ensures Always((t: State) => t.status == Completed && t.builds == s.builds, s, run) <==> Never(ActsOutdated, s, run)
  {
    var good := (t: State) => t.status == Completed && t.builds == s.builds;
    forall t, a | good(t) ensures good(Step(t, a)) <==> !ActsOutdated(t, a) { LeavesCompletedIff(t, a); }
    AlwaysIffNever(good, ActsOutdated, s, run);
  }

  /** The row can take a commit again although builds are attached. */
  predicate Reopened(s: State) {
    s.builds != [] && (s.status.Pending? || s.status.Running?)
  }

  predicate SetsCounted(s: State) {
    s.sets == 0 <==> s.builds == []
  }

  lemma StepKeepsSets(s: State, a: Action)
    requires SetsCounted(s)
    ensures SetsCounted(Step(s, a))
  {
    BuildsAppearIff(s, a);
  }

  /** A row is reopened by a stale re-claim and by nothing else. */
  lemma ReopenedOnlyByStaleReclaim(s: State, a: Action)
    requires !Reopened(s)
    ensures Reopened(Step(s, a)) ==> StaleReclaim(s, a) && Step(s, a).status == Running
    ensures StaleReclaim(s, a) ==> Reopened(Step(s, a))
  {
    BuildsAppearIff(s, a);
  }

  ghost function At(s: State, run: seq<Action>, k: nat): State
    requires k <= |run|
  {
    Exec(s, run[..k])
  }

  lemma AtNext(s: State, run: seq<Action>, k: nat)
    requires k < |run|
    ensures At(s, run, k + 1) == Step(At(s, run, k), run[k])
  {
    ExecOneMore(s, run[..k], run[k]);
    assert run[..k + 1] == run[..k] + [run[k]];
  }

  /** From step `i`, a stale re-claim, to step `k` the row keeps the builds it had. */
  ghost predicate ReclaimedSince(s: State, run: seq<Action>, i: nat, k: nat)
    requires k <= |run|
  {
    && i < k && StaleReclaim(At(s, run, i), run[i])
    && forall j :: i <= j <= k ==> At(s, run, j).builds == At(s, run, i).builds
  }

  /** Whenever the row is reopened, some stale re-claim since then explains it. */
  lemma {:induction false} ReopenedHasCause(s: State, run: seq<Action>, k: nat) returns (i: nat)
    requires k <= |run| && !Reopened(s) && SetsCounted(s) && Reopened(At(s, run, k))
    ensures ReclaimedSince(s, run, i, k)
    decreases k
  {
    if k == 0 {
      assert false;
    } else {
      var before := At(s, run, k - 1);
      AtNext(s, run, k - 1);
      if Reopened(before) {
        i := ReopenedHasCause(s, run, k - 1);
        BuildsAppearIff(before, run[k - 1]);
      } else {
        ReopenedOnlyByStaleReclaim(before, run[k - 1]);
        BuildsAppearIff(before, run[k - 1]);
        i := k - 1;
      }
    }
  }

  /** The row came to hold a second set at step `k`. */
  ghost predicate SecondSetAt(s: State, run: seq<Action>, k: nat)
    requires k < |run|
  {
    At(s, run, k).sets == 1 && At(s, run, k + 1).sets == 2
  }

  /**
   Over every run, a second set of builds appears in exactly those steps that commit all new
   names to a row with one set, and then a stale re-claim reopened that row.
   */
  lemma SecondSetIff(workers: set<Worker>, poller: Option<Worker>, run: seq<Action>, k: nat)
    requires k < |run|
    ensures var s := Init(workers, poller);
            && (SecondSetAt(s, run, k) <==> At(s, run, k).sets == 1 && Adds(At(s, run, k), run[k]))
            && (SecondSetAt(s, run, k) ==> exists i :: ReclaimedSince(s, run, i, k))
  {
    var s := Init(workers, poller);
    var t := At(s, run, k);
    AtNext(s, run, k);
    BuildsAppearIff(t, run[k]);
    if SecondSetAt(s, run, k) {
      RunKeepsSets(s, run[..k]);
      var i := ReopenedHasCause(s, run, k);
    }
  }

  lemma {:induction false} RunKeepsSets(s: State, run: seq<Action>)
    requires SetsCounted(s)
    ensures SetsCounted(Exec(s, run))
    decreases run
  {
    if run == [] {
    } else {
      StepKeepsSets(s, run[0]);
      RunKeepsSets(Step(s, run[0]), run[1..]);
    }
  }

  // ---- runs ----

  lemma {:induction false} ExecAppend(s: State, run: seq<Action>, more: seq<Action>)
    ensures Exec(s, run + more) == Exec(Exec(s, run), more)
    decreases run
  {
    if run == [] {
      assert run + more == more;
    } else {
      ExecAppend(Step(s, run[0]), run[1..], more);
      assert (run + more)[1..] == run[1..] + more;
    }
  }

  lemma ExecOneMore(s: State, run: seq<Action>, a: Action)
    ensures Exec(s, run + [a]) == Step(Exec(s, run), a)
  {
    ExecAppend(s, run, [a]);
    ExecOne(Exec(s, run), a);
  }

  lemma ExecOne(s: State, a: Action)
    ensures Exec(s, [a]) == Step(s, a)
  {
    assert [a][1..] == [];
  }

  lemma ExecTwo(s: State, a: Action, b: Action)
    ensures Exec(s, [a, b]) == Step(Step(s, a), b)
  {
    ExecOne(s, a);
    ExecOneMore(s, [a], b);
    assert [a] + [b] == [a, b];
  }

  lemma ExecThree(s: State, a: Action, b: Action, c: Action)
    ensures Exec(s, [a, b, c]) == Step(Step(Step(s, a), b), c)
  {
    ExecTwo(s, a, b);
    ExecOneMore(s, [a, b], c);
    assert [a, b] + [c] == [a, b, c];
  }

  // ---- what a stale re-claim costs ----

  /** A row with two workers. */
  ghost function Pair(status: Status, builds: seq<Name>, sets: nat, zero: Pc, one: Pc): State {
    State(status, builds, sets, map[0 := zero, 1 := one])
  }

  lemma InitPair()
    ensures Init({0, 1}, None) == Pair(Pending, [], 0, Idle, Idle)
  {
    assert Init({0, 1}, None).workers == map[0 := Idle, 1 := Idle];
  }

  /** A worker claims the row and completes it without builds. */
  lemma CompletesEmpty() returns (run: seq<Action>)
    ensures Exec(Pair(Pending, [], 0, Idle, Idle), run) == Pair(Completed, [], 0, Idle, Idle)
  {
    var s := Pair(Pending, [], 0, Idle, Idle);
    run := [Read(0), Act(0, true), Finish(0, Completed)];
    ExecThree(s, run[0], run[1], run[2]);
    assert Step(s, run[0]) == Pair(Pending, [], 0, SawPending(false), Idle);
    assert Step(Step(s, run[0]), run[1]) == Pair(Running, [], 0, Evaluating(false), Idle);
  }

  /** Both workers poll the completed row; each counts no builds. */
  lemma BothCount() returns (run: seq<Action>)
    ensures Exec(Pair(Completed, [], 0, Idle, Idle), run) == Pair(Completed, [], 0, CountedZero, CountedZero)
  {
    var s, t := Pair(Completed, [], 0, Idle, Idle), Pair(Completed, [], 0, CountedZero, Idle);
    var zero, one := [Read(0), Act(0, true)], [Read(1), Act(1, true)];
    ExecTwo(s, zero[0], zero[1]);
    assert Step(s, zero[0]) == Pair(Completed, [], 0, SawCompleted, Idle);
    ExecTwo(t, one[0], one[1]);
    assert Step(t, one[0]) == Pair(Completed, [], 0, CountedZero, SawCompleted);
    run := zero + one;
    ExecAppend(s, zero, one);
  }

  /** The first re-claims and commits. */
  lemma FirstCommits(n: Name) returns (run: seq<Action>)
    ensures Exec(Pair(Completed, [], 0, CountedZero, CountedZero), run) == Pair(Completed, [n], 1, Idle, CountedZero)
  {
    var s := Pair(Completed, [], 0, CountedZero, CountedZero);
    run := [Act(0, true), Commit(0, [n])];
    ExecTwo(s, run[0], run[1]);
    assert Step(s, run[0]) == Pair(Running, [], 0, Evaluating(false), CountedZero);
    InsertAllIff([], [n]);
    assert [] + [n] == [n];
  }

  /**
   The second re-claims on its outdated count; its commit conflicts and is only logged, and
   the sweeper requeues the row, builds and all.
   */
  lemma SecondConflicts(n: Name) returns (run: seq<Action>)
    ensures AlwaysNames(run, [n])
    ensures Exec(Pair(Completed, [n], 1, Idle, CountedZero), run) == Pair(Pending, [n], 1, Idle, Idle)
  {
    var s := Pair(Completed, [n], 1, Idle, CountedZero);
    run := [Act(1, true), Commit(1, [n]), SweepOrphan(false)];
    ExecThree(s, run[0], run[1], run[2]);
    var t := Step(s, run[0]);
    assert t == Pair(Running, [n], 1, Idle, Evaluating(false));
    InsertAllIff([n], [n]);
    assert n in [n];
    assert Step(t, run[1]) == Pair(Running, [n], 1, Idle, Idle);
  }

  /** The next attempt conflicts as well, and this one is recorded. */
  lemma ConflictRecorded(n: Name) returns (run: seq<Action>)
    ensures AlwaysNames(run, [n])
    ensures Exec(Pair(Pending, [n], 1, Idle, Idle), run) == Pair(Failed, [n], 1, Idle, Idle)
  {
    var s, t := Pair(Pending, [n], 1, Idle, Idle), Pair(Running, [n], 1, Idle, Evaluating(true));
    var claim, record := [Drain(1), Act(1, true)], [Commit(1, [n]), Act(1, true)];
    ExecTwo(s, claim[0], claim[1]);
    assert Step(s, claim[0]) == Pair(Pending, [n], 1, Idle, SawPending(true));
    ExecTwo(t, record[0], record[1]);
    InsertAllIff([n], [n]);
    assert n in [n];
    assert Step(t, record[0]) == Pair(Running, [n], 1, Idle, Recording);
    run := claim + record;
    ExecAppend(s, claim, record);
  }

  /** A poll of the failed row restarts it and deletes the good builds. */
  lemma RestartDeletes(n: Name) returns (run: seq<Action>)
    ensures Exec(Pair(Failed, [n], 1, Idle, Idle), run) == Pair(Pending, [], 0, SawPending(false), Idle)
  {
    var s := Pair(Failed, [n], 1, Idle, Idle);
    run := [Read(0), Act(0, true)];
    ExecTwo(s, run[0], run[1]);
    assert Step(s, run[0]) == Pair(Failed, [n], 1, SawFailed, Idle);
  }

  lemma CompletedWithZeroCount(n: Name) returns (run: seq<Action>)
    ensures Exec(Init({0, 1}, None), run) == Pair(Completed, [n], 1, Idle, CountedZero)
  {
    InitPair();
    var first := CompletesEmpty();
    var second := BothCount();
    var third := FirstCommits(n);
    run := first + second + third;
    ExecAppend(Init({0, 1}, None), first, second);
    ExecAppend(Init({0, 1}, None), first + second, third);
  }

  /**
   A stale re-claim loses a completed evaluation. A run completes the row with a build; two
   workers that go on from there fail it; and the next poll deletes the build.
   */
  lemma StaleReclaimLosesBuilds(n: Name) returns (good: seq<Action>, bad: seq<Action>, poll: seq<Action>)
    ensures Exec(Init({0, 1}, None), good) == Pair(Completed, [n], 1, Idle, CountedZero)
    ensures Exec(Init({0, 1}, None), good + bad) == Pair(Failed, [n], 1, Idle, Idle)
    ensures Exec(Init({0, 1}, None), good + bad + poll) == Pair(Pending, [], 0, SawPending(false), Idle)
    ensures AlwaysNames(bad, [n])
  {
    good := CompletedWithZeroCount(n);
    var first := SecondConflicts(n);
    var second := ConflictRecorded(n);
    bad := first + second;
    poll := RestartDeletes(n);
    ExecAppend(Pair(Completed, [n], 1, Idle, CountedZero), first, second);
    ExecAppend(Init({0, 1}, None), good, bad);
    ExecAppend(Init({0, 1}, None), good + bad, poll);
  }

  /** Only a second evaluation that finds other jobs attaches a second set. */
  lemma StaleReclaimCanAddSet() returns (run: seq<Action>)
    ensures Exec(Init({0, 1}, None), run) == Pair(Completed, ["a", "b"], 2, Idle, Idle)
  {
    var good := CompletedWithZeroCount("a");
    var s, more := Pair(Completed, ["a"], 1, Idle, CountedZero), [Act(1, true), Commit(1, ["b"])];
    run := good + more;
    ExecAppend(Init({0, 1}, None), good, more);
    ExecTwo(s, more[0], more[1]);
    assert Step(s, more[0]) == Pair(Running, ["a"], 1, Idle, Evaluating(false));
    InsertAllIff(["a"], ["b"]);
    assert ["a"] + ["b"] == ["a", "b"];
  }

  // ---- cancellation ----

  /** A step that acts on the row as it was before it was cancelled. */
  predicate StaleRevival(s: State, a: Action) {
    && a.Act? && a.worker in s.workers
    && (s.workers[a.worker].CountedZero? || s.workers[a.worker].ListedToReject?
        || (s.workers[a.worker].SawFailed? && a.restartable))
  }

  /** A cancelled row leaves that status exactly by an administrator's restart or a stale worker. */
  lemma LeavesCancelledIff(s: State, a: Action)
    requires s.status == Cancelled
    ensures Step(s, a).status != Cancelled <==> a.AdminRestart? || StaleRevival(s, a)
    ensures Step(s, a).builds == s.builds || Step(s, a).builds == []
  {
  }

  /** An administrator restarts the row, or a worker acts on what it was before. */
  predicate Revives(s: State, a: Action) {
    a.AdminRestart? || StaleRevival(s, a)
  }

  /** Over every run, a cancelled row stays cancelled exactly if nobody does that. */
  lemma StaysCancelledIff(s: State, run: seq<Action>)
    requires s.status == Cancelled
    ensures Always((t: State) => t.status == Cancelled, s, run) <==> Never(Revives, s, run)
  {
    var good := (t: State) => t.status == Cancelled;
    forall t, a | good(t) ensures good(Step(t, a)) <==> !Revives(t, a) { LeavesCancelledIff(t, a); }
    AlwaysIffNever(good, Revives, s, run);
  }

  /** A row with one worker and no builds. */
  ghost function Solo(status: Status, pc: Pc): State {
    State(status, [], 0, map[0 := pc])
  }

  lemma FailsAlone() returns (run: seq<Action>)
    ensures Exec(Init({0}, None), run) == Solo(Failed, Idle)
  {
    var s := Init({0}, None);
    assert s.workers == map[0 := Idle];
    run := [Read(0), Act(0, true), Finish(0, Failed)];
    ExecThree(s, run[0], run[1], run[2]);
    assert Step(s, run[0]) == Solo(Pending, SawPending(false));
    assert Step(Step(s, run[0]), run[1]) == Solo(Running, Evaluating(false));
  }

  /** A worker sees a failed row, which is then restarted and cancelled by an administrator. */
  lemma CancelledUnderAWorker() returns (run: seq<Action>)
    ensures Exec(Solo(Failed, Idle), run) == Solo(Cancelled, SawFailed)
  {
    var s := Solo(Failed, Idle);
    run := [Read(0), AdminRestart, Cancel];
    ExecThree(s, run[0], run[1], run[2]);
    assert Step(s, run[0]) == Solo(Failed, SawFailed);
  }

  /** From creation: the worker's claim then takes the cancelled row to running. */
  lemma StaleClaimRevivesCancelled() returns (run: seq<Action>, claim: seq<Action>)
    ensures Exec(Init({0}, None), run) == Solo(Cancelled, SawFailed)
    ensures claim == [Act(0, true), Act(0, true)]
    ensures Exec(Init({0}, None), run + claim) == Solo(Running, Evaluating(false))
  {
    var first := FailsAlone();
    var second := CancelledUnderAWorker();
    run := first + second;
    ExecAppend(Init({0}, None), first, second);
    claim := [Act(0, true), Act(0, true)];
    ExecAppend(Init({0}, None), run, claim);
    ExecTwo(Solo(Cancelled, SawFailed), claim[0], claim[1]);
    assert Step(Solo(Cancelled, SawFailed), claim[0]) == Solo(Pending, SawPending(false));
  }

  // ---- rows nobody works on ----

  ghost predicate HasOwner(s: State) {
    exists w :: Owner(s, w)
  }

  ghost predicate Owned(s: State) {
    s.status == Running ==> HasOwner(s)
  }

  /** The evaluation fails, or its transaction rolls back on a repeated name. */
  ghost predicate Errs(s: State, a: Action) {
    a.Fail? || (a.Commit? && !(NoRepeats(a.names) && Apart(a.names, s.builds)))
  }

  /** The only owner of a running row errs and, having polled for it, only logs that. */
  ghost predicate Abandons(s: State, a: Action) {
    && s.status == Running && Errs(s, a)
    && Claims(s, a.worker) && !s.workers[a.worker].records
    && forall v :: Owner(s, v) ==> v == a.worker
  }

  lemma OwnStepKeepsOwned(s: State, a: Action)
    requires a.Act? || a.Finish? || a.Fail? || a.Commit?
    requires s.status == Running && Owner(s, a.worker) && Step(s, a).status == Running
    requires !(Errs(s, a) && Claims(s, a.worker) && !s.workers[a.worker].records)
    ensures Owner(Step(s, a), a.worker)
  {
    if a.Commit? { InsertAllIff(s.builds, a.names); }
  }

  lemma AbandonLeavesNone(s: State, a: Action)
    requires Abandons(s, a)
    ensures Step(s, a).status == Running && !HasOwner(Step(s, a))
  {
    if a.Commit? { InsertAllIff(s.builds, a.names); }
    assert Step(s, a) == GiveUp(s, a.worker);
    forall v ensures !Owner(Step(s, a), v) {
      assert Owner(s, v) ==> v == a.worker;
    }
  }

  /** Exactly an abandoning step leaves a running row without a worker. */
  lemma StaysOwnedIff(s: State, a: Action)
    requires Owned(s)
    ensures Owned(Step(s, a)) <==> !Abandons(s, a)
  {
    var t := Step(s, a);
    if Abandons(s, a) {
      AbandonLeavesNone(s, a);
    } else if t.status == Running {
      if s.status != Running {
        assert a.Act? && Owner(t, a.worker);
      } else if v :| Owner(s, v) && !((a.Act? || a.Finish? || a.Fail? || a.Commit?) && a.worker == v) {
        OtherOwnerStays(s, a, v);
      } else {
        var w :| Owner(s, w);
        OwnStepKeepsOwned(s, a);
      }
    }
  }

  lemma OtherOwnerStays(s: State, a: Action, v: Worker)
    requires Owner(s, v) && !((a.Act? || a.Finish? || a.Fail? || a.Commit?) && a.worker == v)
    ensures Owner(Step(s, a), v)
  {
  }

  /** Over every run of every set of workers: a running row has a worker at every point exactly if no step abandons it. */
  lemma AlwaysOwnedIff(workers: set<Worker>, poller: Option<Worker>, run: seq<Action>)
    ensures Always(Owned, Init(workers, poller), run) <==> Never(Abandons, Init(workers, poller), run)
  {
    var s := Init(workers, poller);
    if poller.Some? { assert Owner(s, poller.value); }
    forall t, a | Owned(t) ensures Owned(Step(t, a)) <==> !Abandons(t, a) { StaysOwnedIff(t, a); }
    AlwaysIffNever(Owned, Abandons, s, run);
  }

  /** Running, and nobody will ever say otherwise. */
  ghost predicate Abandoned(s: State) {
    s.status == Running && !HasOwner(s)
  }

  /** The sweeper, a cancellation, or a worker acting on an outdated count or listing. */
  predicate Rescues(s: State, a: Action) {
    a.SweepOrphan? || a.Cancel? || ActsOutdated(s, a)
  }

  lemma StaysAbandonedIff(s: State, a: Action)
    requires Abandoned(s)
    ensures Abandoned(Step(s, a)) <==> !Rescues(s, a)
  {
    var t := Step(s, a);
    if Rescues(s, a) {
      assert t.status == Running ==> Owner(t, a.worker);
    } else {
      StaysRunning(s, a);
      forall v ensures !Owner(t, v) { NoNewOwner(s, a, v); }
    }
  }

  lemma StaysRunning(s: State, a: Action)
    requires Abandoned(s) && !Rescues(s, a)
    ensures Step(s, a).status == Running
  {
    if a.Act? || a.Finish? || a.Commit? { assert !Owner(s, a.worker); }
  }

  lemma NoNewOwner(s: State, a: Action, v: Worker)
    requires Abandoned(s) && !Rescues(s, a)
    ensures !Owner(Step(s, a), v)
  {
    assert !Owner(s, v);
  }

  /** Over every run, an abandoned row stays running without a worker exactly if none of these happens. */
  lemma AlwaysAbandonedIff(s: State, run: seq<Action>)
    requires Abandoned(s)
    ensures Always(Abandoned, s, run) <==> Never(Rescues, s, run)
  {
    forall t, a | Abandoned(t) ensures Abandoned(Step(t, a)) <==> !Rescues(t, a) { StaysAbandonedIff(t, a); }
    AlwaysIffNever(Abandoned, Rescues, s, run);
  }

  /** From creation: a poll whose evaluation fails. */
  lemma AbandonedByError() returns (run: seq<Action>)
    ensures run == [Read(0), Act(0, true), Fail(0)]
    ensures Exec(Init({0}, None), run) == Solo(Running, Idle) && Abandoned(Solo(Running, Idle))
  {
    var s := Init({0}, None);
    assert s.workers == map[0 := Idle];
    run := [Read(0), Act(0, true), Fail(0)];
    ExecThree(s, run[0], run[1], run[2]);
    assert Step(s, run[0]) == Solo(Pending, SawPending(false));
    assert Step(Step(s, run[0]), run[1]) == Solo(Running, Evaluating(false));
  }

  /** From creation: a stale re-claim whose commit conflicts. */
  lemma AbandonedByConflict(n: Name) returns (run: seq<Action>)
    ensures Exec(Init({0, 1}, None), run) == Pair(Running, [n], 1, Idle, Idle) && Abandoned(Pair(Running, [n], 1, Idle, Idle))
  {
    var good := CompletedWithZeroCount(n);
    var s, more := Pair(Completed, [n], 1, Idle, CountedZero), [Act(1, true), Commit(1, [n])];
    run := good + more;
    ExecAppend(Init({0, 1}, None), good, more);
    ExecTwo(s, more[0], more[1]);
    assert Step(s, more[0]) == Pair(Running, [n], 1, Idle, Evaluating(false));
    InsertAllIff([n], [n]);
    assert n in [n];
  }

  // ---- the statements as a worker makes them ----

  datatype Claim = Claimed | AlreadyRunning | AlreadyCompleted(count: nat) | WasCancelled

  class Row {
    var status: Status
    var builds: seq<Name>
    ghost var sets: nat

    ghost function View(w: Worker, pc: Pc): State
      reads this
    {
      State(status, builds, sets, map[w := pc])
    }

    method TryClaimPending() returns (claim: Claim)
      modifies this`status
      ensures claim == if old(status).Pending? then Claimed else AlreadyRunning
      ensures status == if old(status).Pending? then Running else old(status)
    {
      if !status.Pending? { return AlreadyRunning; }
      status := Running;
      claim := Claimed;
    }

    method Restart(restartable: bool) returns (ok: bool)
      modifies this
      ensures ok == (restartable && Restartable(old(status)))
      ensures (status, builds, sets) == if ok then (Pending, [], 0) else (old(status), old(builds), old(sets))
    {
      ok := restartable && Restartable(status);
      if ok { status, builds, sets := Pending, [], 0; }
    }

    /** Claim a row last seen with status `seen`; the row itself may have moved on. */
    method ClaimExisting(seen: Status, restartable: bool, ghost w: Worker) returns (claim: Claim)
      modifies this
      ensures View(w, if claim.Claimed? then Evaluating(false) else Idle) ==
              Exec(old(View(w, AfterRead(seen))), [Act(w, restartable), Act(w, restartable)])
      ensures claim.Claimed? ==> status == Running
      ensures claim.Claimed? <==>
              || (seen == Pending && old(status) == Pending)
              || (seen in {Failed, TimedOut} && restartable && old(status) in {Failed, TimedOut, Cancelled})
              || (seen == Completed && old(builds) == [])
      ensures claim.WasCancelled? <==> seen.Cancelled?
      ensures claim.AlreadyCompleted? ==> seen.Completed? && claim.count == |builds| > 0
    {
      ExecTwo(View(w, AfterRead(seen)), Act(w, restartable), Act(w, restartable));
      match seen
      case Pending => claim := TryClaimPending();
      case Failed =>
        var ok := Restart(restartable);
        if !ok { return AlreadyRunning; }
        claim := TryClaimPending();
      case TimedOut =>
        var ok := Restart(restartable);
        if !ok { return AlreadyRunning; }
        claim := TryClaimPending();
      case Completed =>
        if |builds| > 0 { return AlreadyCompleted(|builds|); }
        status := Running;
        claim := Claimed;
      case Running => claim := AlreadyRunning;
      case Cancelled => claim := WasCancelled;
    }

    /** The transaction. `conflict` is the unique violation that rolled it back. */
    method CommitBuilds(names: seq<Name>, ghost w: Worker, ghost records: bool) returns (done: bool, conflict: Option<Name>)
      modifies this
      ensures View(w, if conflict.Some? && records then Recording else Idle) ==
              Step(old(View(w, Evaluating(records))), Commit(w, names))
      ensures done <==> old(status).Running? && conflict.None?
      ensures conflict.Some? <==> old(status).Running? && !(NoRepeats(names) && Apart(names, old(builds)))
    {
      done, conflict := false, None;
      if !status.Running? { return; }
      InsertAllIff(builds, names);
      var inserted := builds;
      for i := 0 to |names|
        invariant InsertAll(inserted, names[i..]) == InsertAll(builds, names)
      {
        if names[i] in inserted { return false, Some(names[i]); }
        inserted := inserted + [names[i]];
      }
      builds, status := inserted, Completed;
      if names != [] { sets := sets + 1; }
      done := true;
    }
  }
}
