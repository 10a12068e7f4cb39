/**
 The per-agent slot counter: a load followed by a compare-and-swap loop, under any
 interleaving of callers, spurious failures included.
 */
module SlotCounter {
  import opened Counting

  type Caller = nat

  datatype Pc = Idle | Loaded(cur: nat) | Holding

  datatype State = State(currentJobs: nat, pc: map<Caller, Pc>)

  /** `Run` advances a caller of try_acquire_slot; `Drop` releases a held guard. */
  datatype Action = Run(caller: Caller, spurious: bool) | Drop(caller: Caller)

  function Init(callers: set<Caller>): State {
    State(0, map c | c in callers :: Idle)
  }

  function Step(s: State, a: Action, maxJobs: nat): State {
    if a.caller !in s.pc then s
    else match a
      case Drop(c) =>
        if s.pc[c].Holding? then State((s.currentJobs + U32 - 1) % U32, s.pc[c := Idle]) else s
      case Run(c, spurious) =>
        match s.pc[c]
        case Idle => s.(pc := s.pc[c := Loaded(s.currentJobs)])
        case Loaded(cur) =>
          if cur >= maxJobs then s.(pc := s.pc[c := Idle])
          else if cur == s.currentJobs && !spurious then State(cur + 1, s.pc[c := Holding])
          else s.(pc := s.pc[c := Loaded(s.currentJobs)])
        case Holding => s
  }

  function Exec(s: State, run: seq<Action>, maxJobs: nat): State
    decreases run
  {
    if run == [] then s else Exec(Step(s, run[0], maxJobs), run[1..], maxJobs)
  }

  ghost function Holders(s: State): set<Caller> {
    set c | c in s.pc && s.pc[c].Holding?
  }

  /** The counter is the number of guards held, and never exceeds the maximum. */
  ghost predicate Inv(s: State, maxJobs: nat) {
    s.currentJobs == |Holders(s)| <= maxJobs
  }

  lemma InvStep(s: State, a: Action, maxJobs: nat)
    requires maxJobs < U32 && Inv(s, maxJobs)
    ensures Inv(Step(s, a, maxJobs), maxJobs)
  {
    var t, c := Step(s, a, maxJobs), a.caller;
    if t.currentJobs > s.currentJobs {
      assert Holders(t) == Holders(s) + {c} && c !in Holders(s);
    } else if t.currentJobs < s.currentJobs {
      assert Holders(t) == Holders(s) - {c} && c in Holders(s);
    } else {
      assert Holders(t) == Holders(s);
    }
  }

  /** No run oversubscribes the agent, and the counter always equals the number of guards held. */
  lemma {:induction false} NeverOversubscribed(s: State, run: seq<Action>, maxJobs: nat)
    requires maxJobs < U32 && Inv(s, maxJobs)
    ensures Inv(Exec(s, run, maxJobs), maxJobs)
    decreases run
  {
    if run == [] {
    } else {
      InvStep(s, run[0], maxJobs);
      NeverOversubscribed(Step(s, run[0], maxJobs), run[1..], maxJobs);
    }
  }

  lemma InitInv(callers: set<Caller>, maxJobs: nat)
    ensures Inv(Init(callers), maxJobs)
  {
    assert Holders(Init(callers)) == {};
  }

  /** Once all guards are dropped the counter is back at zero. */
  lemma AllDroppedMeansZero(callers: set<Caller>, run: seq<Action>, maxJobs: nat)
    requires maxJobs < U32
    requires Holders(Exec(Init(callers), run, maxJobs)) == {}
    ensures Exec(Init(callers), run, maxJobs).currentJobs == 0
  {
    InitInv(callers, maxJobs);
    NeverOversubscribed(Init(callers), run, maxJobs);
  }

  /** Asked without interference, the agent grants a slot exactly when it has one. */
  lemma AcquiresIff(s: State, c: Caller, maxJobs: nat)
    requires c in s.pc && s.pc[c].Idle?
    ensures var t := Step(Step(s, Run(c, false), maxJobs), Run(c, false), maxJobs);
            && (t.pc[c].Holding? <==> s.currentJobs < maxJobs)
            && t.currentJobs == s.currentJobs + (if s.currentJobs < maxJobs then 1 else 0)
  {
  }

  /** Dropping a guard gives back exactly that slot. */
  lemma DropReleases(s: State, c: Caller, maxJobs: nat)
    requires maxJobs < U32 && Inv(s, maxJobs) && c in Holders(s)
    ensures var t := Step(s, Drop(c), maxJobs); Holders(t) == Holders(s) - {c} && t.currentJobs == s.currentJobs - 1
  {
    assert Holders(s) != {};
  }

  /** Under any interference a caller gives up only on a count that was at the maximum when it was read. */
  lemma RefusedOnlyWhenFull(s: State, a: Action, maxJobs: nat)
    requires a.Run? && a.caller in s.pc && s.pc[a.caller].Loaded? && Step(s, a, maxJobs).pc[a.caller].Idle?
    ensures s.pc[a.caller].cur >= maxJobs
  {
  }
}
