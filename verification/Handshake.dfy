/**
 The rootless sandbox handshake: two processes, two pipes, and every failure in between.
 The child announces its namespace with "6", the parent writes the id maps and answers "7",
 and only then may the child pivot and exec.
 */
module Handshake {

  /** Pipe ends. The child writes ChildTx and the parent reads ChildRx; the other pipe runs back. */
  datatype End = ChildRx | ChildTx | ParentRx | ParentTx

  datatype ParentPc = PDropTx | PDropRx | PRead | PMaps | PWrite | PWait | PExit

  datatype ChildPc = CDropRx | CDropTx | CSetup | CWrite | CRead | CPivot | CExec | CRunning | CExit

  /** Open ends per process, bytes in flight per pipe, and whether the id maps have been written. */
  datatype State = State(
    parent: ParentPc,
    child: ChildPc,
    parentFds: set<End>,
    childFds: set<End>,
    toParent: seq<char>,
    toChild: seq<char>,
    mapsWritten: bool)

  /** `fail` makes the step's system call fail; `Kill` is an outside signal. */
  datatype Action =
    | ParentStep(fail: bool)
    | ChildStep(fail: bool)
    | ProgramExits
    | KillParent
    | KillChild

  const ALL_ENDS: set<End> := {ChildRx, ChildTx, ParentRx, ParentTx}

  /** Right after fork both processes hold every end. */
  const INIT: State := State(PDropTx, CDropRx, ALL_ENDS, ALL_ENDS, [], [], false)

  predicate Open(s: State, e: End) {
    e in s.parentFds || e in s.childFds
  }

  function ParentExits(s: State): State {
    s.(parent := PExit, parentFds := {})
  }

  function ChildExits(s: State): State {
    s.(child := CExit, childFds := {})
  }

  /** A read blocks while the pipe is empty and some process still holds its write end. */
  predicate Enabled(s: State, a: Action) {
    match a
    case ParentStep(_) =>
      && !s.parent.PExit?
      && (s.parent.PRead? ==> s.toParent != [] || !Open(s, ChildTx))
      && (s.parent.PWait? ==> s.child.CExit?)
    case ChildStep(_) =>
      && !s.child.CExit? && !s.child.CRunning?
      && (s.child.CRead? ==> s.toChild != [] || !Open(s, ParentTx))
    case ProgramExits => s.child.CRunning?
    case KillParent => !s.parent.PExit?
    case KillChild => !s.child.CExit?
  }

  function AfterParent(s: State, fail: bool): State {
    match s.parent
    case PDropTx => s.(parent := PDropRx, parentFds := s.parentFds - {ChildTx})
    case PDropRx => s.(parent := PRead, parentFds := s.parentFds - {ParentRx})
    case PRead =>
      if fail || s.toParent == [] || s.toParent[0] != '6' then ParentExits(s)
      else s.(parent := PMaps, toParent := s.toParent[1..])
    case PMaps => if fail then ParentExits(s) else s.(parent := PWrite, mapsWritten := true)
    case PWrite =>
      if fail || !Open(s, ParentRx) then ParentExits(s)
      else s.(parent := PWait, toChild := s.toChild + ['7'])
    case PWait => ParentExits(s)
    case PExit => s
  }

  function AfterChild(s: State, fail: bool): State {
    match s.child
    case CDropRx => s.(child := CDropTx, childFds := s.childFds - {ChildRx})
    case CDropTx => s.(child := CSetup, childFds := s.childFds - {ParentTx})
    case CSetup => if fail then ChildExits(s) else s.(child := CWrite)
    case CWrite =>
      if fail || !Open(s, ChildRx) then ChildExits(s)
      else s.(child := CRead, toParent := s.toParent + ['6'])
    case CRead =>
      if fail || s.toChild == [] || s.toChild[0] != '7' then ChildExits(s)
      else s.(child := CPivot, toChild := s.toChild[1..])
    case CPivot => if fail then ChildExits(s) else s.(child := CExec)
    case CExec => if fail then ChildExits(s) else s.(child := CRunning, childFds := {})
    case CRunning => s
    case CExit => s
  }

  function Step(s: State, a: Action): State {
    match a
    case ParentStep(fail) => AfterParent(s, fail)
    case ChildStep(fail) => AfterChild(s, fail)
    case ProgramExits => ChildExits(s)
    case KillParent => ParentExits(s)
    case KillChild => ChildExits(s)
  }

  /** A run takes enabled steps only. */
  ghost predicate IsRun(s: State, run: seq<Action>)
    decreases run
  {
    run == [] || (Enabled(s, run[0]) && IsRun(Step(s, run[0]), run[1..]))
  }

  function Exec(s: State, run: seq<Action>): State
    decreases run
  {
    if run == [] then s else Exec(Step(s, run[0]), run[1..])
  }

  // ---- invariant ----

  predicate PastHandshake(c: ChildPc) {
    c.CPivot? || c.CExec? || c.CRunning?
  }

  /** The child has not announced its namespace yet. */
  predicate BeforeAnnounce(c: ChildPc) {
    c.CDropRx? || c.CDropTx? || c.CSetup? || c.CWrite?
  }

  /** The parent has not released the child yet. */
  predicate BeforeRelease(p: ParentPc) {
    p.PDropTx? || p.PDropRx? || p.PRead? || p.PMaps? || p.PWrite?
  }

  predicate BeforeRead(p: ParentPc) {
    p.PDropTx? || p.PDropRx? || p.PRead?
  }

  predicate Inv(s: State) {
    // Releasing the child takes written maps.
    && (s.parent.PWrite? || s.parent.PWait? || s.toChild != [] || PastHandshake(s.child) ==> s.mapsWritten)
    // Each side has dropped its copy of the end it reads against.
    && (!s.parent.PDropTx? ==> ChildTx !in s.parentFds)
    && (!s.child.CDropRx? && !s.child.CDropTx? ==> ParentTx !in s.childFds)
    && (s.parent.PExit? ==> s.parentFds == {})
    && (s.child.CExit? ==> s.childFds == {})
    // One token per pipe, sent once.
    && (s.toParent == [] || s.toParent == ['6']) && (s.toChild == [] || s.toChild == ['7'])
    && (BeforeAnnounce(s.child) ==> s.toParent == [] && (BeforeRead(s.parent) || s.parent.PExit?))
    && (s.child.CRead? && BeforeRead(s.parent) ==> s.toParent != [])
    && (s.child.CRead? && s.parent.PWait? ==> s.toChild != [])
    && (BeforeRelease(s.parent) ==> s.toChild == [] && !PastHandshake(s.child))
  }

  lemma ParentKeepsInv(s: State, fail: bool)
    requires Inv(s) && Enabled(s, ParentStep(fail))
    ensures Inv(AfterParent(s, fail))
  {
  }

  lemma ChildKeepsInv(s: State, fail: bool)
    requires Inv(s) && Enabled(s, ChildStep(fail))
    ensures Inv(AfterChild(s, fail))
  {
  }

  lemma InvStep(s: State, a: Action)
    requires Inv(s) && Enabled(s, a)
    ensures Inv(Step(s, a))
  {
    match a
    case ParentStep(fail) => ParentKeepsInv(s, fail);
    case ChildStep(fail) => ChildKeepsInv(s, fail);
    case _ =>
  }

  lemma {:induction false} InvRun(s: State, run: seq<Action>)
    requires Inv(s) && IsRun(s, run)
    ensures Inv(Exec(s, run))
    decreases run
  {
    if run == [] {
    } else {
      InvStep(s, run[0]);
      InvRun(Step(s, run[0]), run[1..]);
    }
  }

  /** In every interleaving and failure, the child pivots and execs only after the id maps are written. */
  lemma PivotOnlyAfterMaps(run: seq<Action>)
    requires IsRun(INIT, run)
    ensures PastHandshake(Exec(INIT, run).child) ==> Exec(INIT, run).mapsWritten
  {
    InvRun(INIT, run);
  }

  /** Neither side waits on a pipe whose peer is gone. */
  lemma DeadPeerUnblocks(run: seq<Action>, fail: bool)
    requires IsRun(INIT, run)
    ensures var s := Exec(INIT, run);
            && (s.parent.PRead? && s.child.CExit? ==> Enabled(s, ParentStep(fail)))
            && (s.child.CRead? && s.parent.PExit? ==> Enabled(s, ChildStep(fail)))
  {
    InvRun(INIT, run);
  }

  // ---- why each side drops the other's write end ----

  /** The child is gone, and the parent reads, or is about to, from a pipe it holds open itself. */
  predicate ParentHeld(s: State) {
    (s.parent.PDropRx? || s.parent.PRead?) && s.toParent == [] && ChildTx in s.parentFds && s.child.CExit?
  }

  /** The parent is gone, and the child reads from a pipe it holds open itself. */
  predicate ChildHeld(s: State) {
    s.child.CRead? && s.toChild == [] && ParentTx in s.childFds && s.parent.PExit?
  }

  /** From such a state, in every run and under every failure, nothing but a signal ends the wait. */
  lemma {:induction false} KeptEndBlocks(s: State, run: seq<Action>)
    requires IsRun(s, run)
    ensures ParentHeld(s) && KillParent !in run ==> ParentHeld(Exec(s, run))
    ensures ChildHeld(s) && KillChild !in run ==> ChildHeld(Exec(s, run))
    decreases run
  {
    if run == [] {
    } else {
      KeptEndBlocks(Step(s, run[0]), run[1..]);
    }
  }

  /** The parent as it would be had it not dropped its copy of the child's write end. */
  const PARENT_KEEPS: State := State(PDropRx, CDropRx, ALL_ENDS, ALL_ENDS, [], [], false)

  /** The child as it would be had it not dropped its copy of the parent's. */
  const CHILD_KEEPS: State := State(PDropTx, CSetup, ALL_ENDS, ALL_ENDS - {ChildRx}, [], [], false)

  lemma RunOfOne(s: State, a: Action)
    requires Enabled(s, a)
    ensures IsRun(s, [a]) && Exec(s, [a]) == Step(s, a)
  {
    assert [a][1..] == [];
  }

  lemma RunOfTwo(s: State, a: Action, b: Action)
    requires Enabled(s, a) && Enabled(Step(s, a), b)
    ensures IsRun(s, [a, b]) && Exec(s, [a, b]) == Step(Step(s, a), b)
  {
    RunOfOne(Step(s, a), b);
    assert [a, b][1..] == [b];
  }

  lemma RunOfThree(s: State, a: Action, b: Action, c: Action)
    requires Enabled(s, a) && Enabled(Step(s, a), b) && Enabled(Step(Step(s, a), b), c)
    ensures IsRun(s, [a, b, c]) && Exec(s, [a, b, c]) == Step(Step(Step(s, a), b), c)
  {
    RunOfTwo(Step(s, a), b, c);
    assert [a, b, c][1..] == [b, c];
  }

  /** Either omission hangs its side for good as soon as the peer dies at the wrong moment. */
  lemma KeptEndHangs() returns (parentRun: seq<Action>, childRun: seq<Action>)
    ensures IsRun(PARENT_KEEPS, parentRun) && ParentHeld(Exec(PARENT_KEEPS, parentRun))
    ensures IsRun(CHILD_KEEPS, childRun) && ChildHeld(Exec(CHILD_KEEPS, childRun))
  {
    parentRun := [ParentStep(false), KillChild];
    RunOfTwo(PARENT_KEEPS, parentRun[0], parentRun[1]);
    childRun := [ChildStep(false), ChildStep(false), KillParent];
    RunOfThree(CHILD_KEEPS, childRun[0], childRun[1], childRun[2]);
  }

  // ---- what a run without failures comes to ----

  /** No system call of the run fails and nobody sends a signal. */
  predicate Clean(run: seq<Action>) {
    forall i :: 0 <= i < |run| ==> Undisturbed(run[i])
  }

  predicate Undisturbed(a: Action) {
    a == ParentStep(false) || a == ChildStep(false) || a == ProgramExits
  }

  /** While nothing fails, nobody leaves before the program has run, and both ends stay open until then. */
  predicate CleanInv(s: State) {
    && Inv(s)
    && (s.child.CExit? ==> s.parent.PWait? || s.parent.PExit?)
    && (s.parent.PExit? ==> s.child.CExit?)
    && (!s.parent.PExit? ==> ChildRx in s.parentFds && ParentTx in s.parentFds)
    && (!s.child.CRunning? && !s.child.CExit? ==> ChildTx in s.childFds && ParentRx in s.childFds)
    && (s.parent.PMaps? || s.parent.PWrite? ==> s.child.CRead?)
    && (s.child.CRead? && s.parent.PWait? ==> s.toChild == ['7'])
    && (PastHandshake(s.child) ==> s.parent.PWait?)
  }

  lemma CleanParentStep(s: State)
    requires CleanInv(s) && Enabled(s, ParentStep(false))
    ensures CleanInv(AfterParent(s, false))
  {
  }

  lemma CleanChildStep(s: State)
    requires CleanInv(s) && Enabled(s, ChildStep(false))
    ensures CleanInv(AfterChild(s, false)) && !AfterChild(s, false).child.CExit?
  {
  }

  lemma CleanStep(s: State, a: Action)
    requires CleanInv(s) && Enabled(s, a) && Undisturbed(a)
    ensures CleanInv(Step(s, a))
    ensures Step(s, a).child.CExit? && !s.child.CExit? ==> s.child.CRunning?
  {
    InvStep(s, a);
    match a
    case ParentStep(_) => CleanParentStep(s);
    case ChildStep(_) => CleanChildStep(s);
    case _ =>
  }

  /** At some point of the run, its start and end included, the program runs. */
  ghost predicate ProgramRan(s: State, run: seq<Action>)
    decreases run
  {
    s.child.CRunning? || (run != [] && ProgramRan(Step(s, run[0]), run[1..]))
  }

  lemma {:induction false} CleanRun(s: State, run: seq<Action>)
    requires CleanInv(s) && IsRun(s, run) && Clean(run)
    ensures CleanInv(Exec(s, run))
    ensures Exec(s, run).child.CExit? && !s.child.CExit? ==> ProgramRan(s, run)
    decreases run
  {
    if run == [] {
    } else {
      assert Undisturbed(run[0]);
      CleanStep(s, run[0]);
      forall i | 0 <= i < |run[1..]| ensures Undisturbed(run[1..][i]) { assert run[1..][i] == run[i + 1]; }
      CleanRun(Step(s, run[0]), run[1..]);
    }
  }

  /** Every run without failures and signals that can go no further has run the program, and both sides have exited. */
  lemma CleanRunsRunTheProgram(run: seq<Action>)
    requires IsRun(INIT, run) && Clean(run) && !CanMove(Exec(INIT, run))
    ensures ProgramRan(INIT, run)
    ensures Exec(INIT, run).parent.PExit? && Exec(INIT, run).child.CExit?
  {
    CleanRun(INIT, run);
    NoDeadlock(run);
  }

  /** A child that exits without having run its program had a failing call, or a signal was sent. */
  lemma EarlyExitHasCause(run: seq<Action>)
    requires IsRun(INIT, run) && Exec(INIT, run).child.CExit? && !ProgramRan(INIT, run)
    ensures exists i :: 0 <= i < |run| && !Undisturbed(run[i])
  {
    if Clean(run) { CleanRun(INIT, run); }
  }

  // ---- termination ----

  /** Steps that happen on their own, without failures or signals. */
  predicate CanMove(s: State) {
    Enabled(s, ParentStep(false)) || Enabled(s, ChildStep(false)) || Enabled(s, ProgramExits)
  }

  /** Until both processes have exited, one of them can move: there is no deadlock. */
  lemma NoDeadlock(run: seq<Action>)
    requires IsRun(INIT, run)
    ensures var s := Exec(INIT, run); CanMove(s) || (s.parent.PExit? && s.child.CExit?)
  {
    InvRun(INIT, run);
  }

  function ParentLeft(p: ParentPc): nat {
    match p
    case PDropTx => 6 case PDropRx => 5 case PRead => 4 case PMaps => 3 case PWrite => 2 case PWait => 1 case PExit => 0
  }

  function ChildLeft(c: ChildPc): nat {
    match c
    case CDropRx => 8 case CDropTx => 7 case CSetup => 6 case CWrite => 5 case CRead => 4
    case CPivot => 3 case CExec => 2 case CRunning => 1 case CExit => 0
  }

  lemma StepShortens(s: State, a: Action)
    requires Enabled(s, a)
    ensures ParentLeft(Step(s, a).parent) + ChildLeft(Step(s, a).child) < ParentLeft(s.parent) + ChildLeft(s.child)
  {
  }

  /** Every step brings one process closer to its exit, so every run is finite. */
  lemma {:induction false} RunsAreShort(s: State, run: seq<Action>)
    requires IsRun(s, run)
    ensures |run| + ParentLeft(Exec(s, run).parent) + ChildLeft(Exec(s, run).child) <= ParentLeft(s.parent) + ChildLeft(s.child)
    decreases run
  {
    if run == [] {
    } else {
      StepShortens(s, run[0]);
      RunsAreShort(Step(s, run[0]), run[1..]);
    }
  }
}
