/**
 `reserve_build` under any interleaving of its callers at single atomic operations: the
 draining load, the fetch-add, the compensating fetch-sub and the draining store are
 separate steps, and the 32-bit counter wraps.
 */
module Reservation {
  import opened Counting
  import opened Options

  type Caller = nat

  /** Where a caller stands inside `reserve_build`. */
  datatype Pc =
    | Idle         // outside, or about to load `draining`
    | Checked      // saw draining unset, about to fetch-add
    | Overshot     // fetch-add returned at least the cap, about to undo it
    | Refusing     // undone, about to set draining and return false
    | LastAccepted // took the last build, about to set draining and return true

  /** `granted` counts decisions to accept; `monitorDrained` says the exit monitor set the flag. */
  datatype State = State(accepted: nat, draining: bool, granted: nat, monitorDrained: bool, pc: map<Caller, Pc>)

  datatype Action = Run(caller: Caller) | MonitorDrains

  function Init(callers: set<Caller>): State {
    State(0, false, 0, false, map c | c in callers :: Idle)
  }

  function Step(s: State, a: Action, max: Option<nat>): State {
    match a
    case MonitorDrains => s.(draining := true, monitorDrained := true)
    case Run(c) =>
      if c !in s.pc then s
      else match s.pc[c]
        case Idle =>
          if s.draining then s
          else if max.None? then s.(granted := s.granted + 1)
          else s.(pc := s.pc[c := Checked])
        case Checked =>
          var prev := s.accepted;
          var bumped := s.(accepted := (prev + 1) % U32);
          if max.None? || prev >= max.value then bumped.(pc := s.pc[c := Overshot])
          else if prev + 1 >= max.value then bumped.(granted := s.granted + 1, pc := s.pc[c := LastAccepted])
          else bumped.(granted := s.granted + 1, pc := s.pc[c := Idle])
        case Overshot => s.(accepted := (s.accepted + U32 - 1) % U32, pc := s.pc[c := Refusing])
        case Refusing => s.(draining := true, pc := s.pc[c := Idle])
        case LastAccepted => s.(draining := true, pc := s.pc[c := Idle])
  }

  function Exec(s: State, run: seq<Action>, max: Option<nat>): State
    decreases run
  {
    if run == [] then s else Exec(Step(s, run[0], max), run[1..], max)
  }

  /** The step in which a caller returns false. */
  predicate Refuses(s: State, a: Action) {
    a.Run? && a.caller in s.pc && (s.pc[a.caller].Refusing? || (s.pc[a.caller].Idle? && s.draining))
  }

  ghost function At(pc: map<Caller, Pc>, where: Pc): set<Caller> {
    set c | c in pc && pc[c] == where
  }

  predicate PastCap(where: Pc) {
    where.Overshot? || where.Refusing? || where.LastAccepted?
  }

  /** Too few callers to push the counter from the cap round to zero and still have one left to try. */
  predicate Roomy(max: nat, callers: set<Caller>) {
    max == 0 || max + |callers| < U32 + 2
  }

  /** The caller that took the last build, for good. */
  predicate Settled(s: State, c: Caller) {
    c in s.pc && (s.pc[c].LastAccepted? || (s.pc[c].Idle? && s.draining))
  }

  /** A cap of `max` builds among the given callers. */
  ghost predicate CapInv(s: State, max: nat, callers: set<Caller>) {
    && s.pc.Keys == callers
    && s.granted <= max
    && s.accepted == (s.granted + |At(s.pc, Overshot)|) % U32
    && (forall c :: c in s.pc && PastCap(s.pc[c]) ==> s.granted == max)
    && (0 < max == s.granted ==> exists c :: Settled(s, c))
  }

  lemma MoveCaller(pc: map<Caller, Pc>, c: Caller, to: Pc, where: Pc)
    requires c in pc
    ensures var moved := At(pc[c := to], where);
            && moved == (if to == where then At(pc, where) + {c} else At(pc, where) - {c})
            && |moved| == |At(pc, where)| - (if pc[c] == where then 1 else 0) + (if to == where then 1 else 0)
  {
    var before, moved := At(pc, where), At(pc[c := to], where);
    assert moved == if to == where then before + {c} else before - {c};
    assert c in before <==> pc[c] == where;
  }

  lemma CapInvStep(s: State, a: Action, max: nat, callers: set<Caller>)
    requires max < U32 && Roomy(max, callers) && CapInv(s, max, callers)
    ensures CapInv(Step(s, a, Some(max)), max, callers)
  {
    var t := Step(s, a, Some(max));
    if a.Run? && a.caller in s.pc {
      var c, here := a.caller, s.pc[a.caller];
      if here.Checked? {
        if s.granted < max { CheckedBelowCap(s, c, max, callers); } else { CheckedAtCap(s, c, max, callers); }
      } else if here.Overshot? {
        OvershotStep(s, c, max, callers);
      } else if here.Idle? {
        if !s.draining { MoveCaller(s.pc, c, Checked, Overshot); }
        SettledStays(s, a, max);
      } else {
        MoveCaller(s.pc, c, Idle, Overshot);
        SettledStays(s, a, max);
      }
    } else {
      SettledStays(s, a, max);
    }
  }

  lemma SettledStays(s: State, a: Action, max: nat)
    ensures forall c :: Settled(s, c) ==> Settled(Step(s, a, Some(max)), c)
  {
  }

  /** Below the cap nobody has overshot, so the fetch-add accepts and moves the caller on. */
  lemma CheckedBelowCap(s: State, c: Caller, max: nat, callers: set<Caller>)
    requires max < U32 && CapInv(s, max, callers)
    requires c in s.pc && s.pc[c].Checked? && s.granted < max
    ensures CapInv(Step(s, Run(c), Some(max)), max, callers)
  {
    assert At(s.pc, Overshot) == {};
    MoveCaller(s.pc, c, Idle, Overshot);
    MoveCaller(s.pc, c, LastAccepted, Overshot);
    var t := Step(s, Run(c), Some(max));
    assert t.granted == max ==> Settled(t, c);
  }

  /** At the cap the counter has not wrapped back below it while a caller is still trying. */
  lemma StillAtCap(s: State, c: Caller, max: nat, callers: set<Caller>)
    requires max < U32 && Roomy(max, callers) && CapInv(s, max, callers)
    requires c in s.pc && s.pc[c].Checked? && s.granted == max
    ensures s.accepted >= max
  {
    if max > 0 {
      var w :| Settled(s, w);
      OvershotElsewhere(s, callers, w, c);
    }
  }

  lemma OvershotElsewhere(s: State, callers: set<Caller>, w: Caller, c: Caller)
    requires s.pc.Keys == callers && w in s.pc && c in s.pc && w != c
    requires !s.pc[w].Overshot? && !s.pc[c].Overshot?
    ensures |At(s.pc, Overshot)| + 2 <= |callers|
  {
    var others := callers - {w} - {c};
    assert |others| == |callers| - 2;
    SubsetSize(At(s.pc, Overshot), others);
  }

  lemma CheckedAtCap(s: State, c: Caller, max: nat, callers: set<Caller>)
    requires max < U32 && Roomy(max, callers) && CapInv(s, max, callers)
    requires c in s.pc && s.pc[c].Checked? && s.granted == max
    ensures CapInv(Step(s, Run(c), Some(max)), max, callers)
  {
    StillAtCap(s, c, max, callers);
    MoveCaller(s.pc, c, Overshot, Overshot);
    WrapUp(max + |At(s.pc, Overshot)|);
    SettledStays(s, Run(c), max);
  }

  lemma OvershotStep(s: State, c: Caller, max: nat, callers: set<Caller>)
    requires CapInv(s, max, callers)
    requires c in s.pc && s.pc[c].Overshot?
    ensures CapInv(Step(s, Run(c), Some(max)), max, callers)
  {
    MoveCaller(s.pc, c, Refusing, Overshot);
    assert c in At(s.pc, Overshot);
    WrapDown(s.granted + |At(s.pc, Overshot)|);
    SettledStays(s, Run(c), max);
  }

  lemma {:induction false} CapInvRun(s: State, run: seq<Action>, max: nat, callers: set<Caller>)
    requires max < U32 && Roomy(max, callers) && CapInv(s, max, callers)
    ensures CapInv(Exec(s, run, Some(max)), max, callers)
    decreases run
  {
    if run == [] {
    } else {
      CapInvStep(s, run[0], max, callers);
      CapInvRun(Step(s, run[0], Some(max)), run[1..], max, callers);
    }
  }

  lemma InitCapInv(max: nat, callers: set<Caller>)
    ensures CapInv(Init(callers), max, callers)
  {
    assert At(Init(callers).pc, Overshot) == {};
  }

  /** Whoever takes the last build, or is turned away at the cap, leaves the session draining. */
  lemma LeavingDrains(s: State, c: Caller, max: Option<nat>)
    requires c in s.pc && (s.pc[c].Refusing? || s.pc[c].LastAccepted?)
    ensures var t := Step(s, Run(c), max); t.draining && t.pc[c].Idle?
  {
  }

  /** So over every run, once the cap is reached and nobody is inside, the session is draining. */
  lemma FullAndQuietDrains(run: seq<Action>, max: nat, callers: set<Caller>)
    requires 0 < max < U32 && Roomy(max, callers)
    requires var s := Exec(Init(callers), run, Some(max)); s.granted == max && forall c :: c in s.pc ==> s.pc[c].Idle?
    ensures Exec(Init(callers), run, Some(max)).draining
  {
    InitCapInv(max, callers);
    CapInvRun(Init(callers), run, max, callers);
  }

  // ---- refusals ----

  /** While fewer than `max` have succeeded, the counter is exact and nobody is past the cap. */
  ghost predicate BelowCap(s: State, max: nat) {
    s.granted < max ==>
      && s.accepted == s.granted
      && (forall c :: c in s.pc ==> !PastCap(s.pc[c]))
      && (s.draining ==> s.monitorDrained)
  }

  lemma BelowCapStep(s: State, a: Action, max: nat)
    requires max < U32 && BelowCap(s, max)
    ensures BelowCap(Step(s, a, Some(max)), max)
  {
    if s.granted < max && a.Run? && a.caller in s.pc {
      assert !PastCap(s.pc[a.caller]);
    }
  }

  lemma {:induction false} BelowCapRun(s: State, run: seq<Action>, max: nat)
    requires max < U32 && BelowCap(s, max)
    ensures BelowCap(Exec(s, run, Some(max)), max)
    decreases run
  {
    if run == [] {
    } else {
      BelowCapStep(s, run[0], max);
      BelowCapRun(Step(s, run[0], Some(max)), run[1..], max);
    }
  }

  /** Nobody is refused while fewer than `max` have succeeded, unless the monitor drained the session. */
  lemma RefusedOnlyWhenFullOrDrained(run: seq<Action>, a: Action, max: nat, callers: set<Caller>)
    requires max < U32 && Refuses(Exec(Init(callers), run, Some(max)), a)
    ensures var s := Exec(Init(callers), run, Some(max)); s.granted >= max || s.monitorDrained
  {
    var s := Exec(Init(callers), run, Some(max));
    BelowCapRun(Init(callers), run, max);
    assert s.pc[a.caller].Refusing? ==> PastCap(s.pc[a.caller]);
  }

  // ---- when the cap can be broken ----

  lemma {:induction false} ExecAppend(s: State, run: seq<Action>, more: seq<Action>, max: Option<nat>)
    ensures Exec(s, run + more, max) == Exec(Exec(s, run, max), more, max)
    decreases run
  {
    if run == [] {
      assert run + more == more;
    } else {
      ExecAppend(Step(s, run[0], max), run[1..], more, max);
      assert (run + more)[1..] == run[1..] + more;
    }
  }

  lemma ExecOne(s: State, a: Action, more: seq<Action>, max: Option<nat>)
    ensures Exec(s, [a] + more, max) == Exec(Step(s, a, max), more, max)
  {
    assert ([a] + more)[1..] == more;
  }

  function AllTo(pc: map<Caller, Pc>, todo: set<Caller>, to: Pc): map<Caller, Pc> {
    map c | c in pc :: if c in todo then to else pc[c]
  }

  lemma AllToStep(pc: map<Caller, Pc>, todo: set<Caller>, to: Pc, c: Caller)
    requires c in todo && c in pc
    ensures AllTo(pc[c := to], todo - {c}, to) == AllTo(pc, todo, to)
  {
  }

  /** One caller makes `n` reservations below the cap, one after the other. */
  lemma {:induction false} Reserve(s: State, c: Caller, n: nat, max: nat) returns (run: seq<Action>)
    requires c in s.pc && s.pc[c].Idle? && !s.draining
    requires s.accepted == s.granted && s.granted + n < max < U32
    ensures Exec(s, run, Some(max)) == s.(accepted := s.accepted + n, granted := s.granted + n)
    decreases n
  {
    run := [];
    if n > 0 {
      var t := s.(pc := s.pc[c := Checked]);
      var u := s.(accepted := s.accepted + 1, granted := s.granted + 1);
      assert t.pc[c := Idle] == s.pc;
      assert Step(t, Run(c), Some(max)) == u;
      var rest := Reserve(u, c, n - 1, max);
      ExecOne(t, Run(c), rest, Some(max));
      ExecOne(s, Run(c), [Run(c)] + rest, Some(max));
      run := [Run(c)] + ([Run(c)] + rest);
    }
  }

  /** Every caller loads `draining` before anyone sets it. */
  lemma {:induction false} LoadAll(s: State, todo: set<Caller>, max: nat) returns (run: seq<Action>)
    requires todo <= s.pc.Keys && (forall c :: c in todo ==> s.pc[c].Idle?) && !s.draining
    ensures Exec(s, run, Some(max)) == s.(pc := AllTo(s.pc, todo, Checked))
    decreases |todo|
  {
    run := [];
    if todo == {} {
      assert AllTo(s.pc, todo, Checked) == s.pc;
    } else {
      var c :| c in todo;
      var t := Step(s, Run(c), Some(max));
      var rest := LoadAll(t, todo - {c}, max);
      ExecOne(s, Run(c), rest, Some(max));
      AllToStep(s.pc, todo, Checked, c);
      run := [Run(c)] + rest;
    }
  }

  /** At the cap, callers overshoot up to and including the one that wraps the counter. */
  lemma {:induction false} OvershootAll(s: State, todo: set<Caller>, max: nat) returns (run: seq<Action>)
    requires todo != {} && todo <= s.pc.Keys && (forall c :: c in todo ==> s.pc[c].Checked?)
    requires max <= s.accepted && s.accepted + |todo| <= U32
    ensures Exec(s, run, Some(max)) == s.(accepted := (s.accepted + |todo|) % U32, pc := AllTo(s.pc, todo, Overshot))
    decreases |todo|
  {
    var c :| c in todo;
    var t := Step(s, Run(c), Some(max));
    AllToStep(s.pc, todo, Overshot, c);
    if todo == {c} {
      assert AllTo(t.pc, {}, Overshot) == t.pc;
      ExecOne(s, Run(c), [], Some(max));
      run := [Run(c)] + [];
    } else {
      assert |todo - {c}| == |todo| - 1 > 0 by { assert todo - {c} != {}; }
      var rest := OvershootAll(t, todo - {c}, max);
      ExecOne(s, Run(c), rest, Some(max));
      run := [Run(c)] + rest;
    }
  }

  /** The last build is taken, `U32 - max` callers overshoot, and the next one finds the counter at zero. */
  lemma WrapPastCap(s: State, c: Caller, max: nat) returns (run: seq<Action>)
    requires 0 < max < U32 && max + |s.pc.Keys| >= U32 + 2 && c in s.pc
    requires s.accepted == s.granted == max - 1 && forall d :: d in s.pc ==> s.pc[d].Checked?
    ensures Exec(s, run, Some(max)).granted > max
  {
    var t := Step(s, Run(c), Some(max));
    var others := s.pc.Keys - {c};
    var todo := SubsetOfSize(others, U32 - max);
    var rest := OvershootAll(t, todo, max);
    var u := t.(accepted := 0, pc := AllTo(t.pc, todo, Overshot));
    assert |others - todo| > 0 by { assert others == todo + (others - todo); }
    var d :| d in others - todo;
    run := [Run(c)] + (rest + [Run(d)]);
    ExecOne(s, Run(c), rest + [Run(d)], Some(max));
    ExecAppend(t, rest, [Run(d)], Some(max));
    ExecOne(u, Run(d), [], Some(max));
    assert [Run(d)] + [] == [Run(d)];
  }

  lemma CapBreaks(max: nat, callers: set<Caller>) returns (run: seq<Action>)
    requires max < U32 && !Roomy(max, callers)
    ensures Exec(Init(callers), run, Some(max)).granted > max
  {
    var init := Init(callers);
    assert init.pc.Keys == callers && callers != {};
    var c :| c in callers;
    var first := Reserve(init, c, max - 1, max);
    var s := init.(accepted := max - 1, granted := max - 1);
    var second := LoadAll(s, callers, max);
    var t := s.(pc := AllTo(s.pc, callers, Checked));
    assert t.pc.Keys == callers;
    var third := WrapPastCap(t, c, max);
    run := first + (second + third);
    ExecAppend(init, first, second + third, Some(max));
    ExecAppend(s, second, third, Some(max));
  }

  /**
   In every run at most `max` reservations succeed, exactly when there are too few callers to
   wrap the counter past the cap.
   */
  lemma CapHoldsIff(max: nat, callers: set<Caller>)
    requires max < U32
    ensures (forall run :: Exec(Init(callers), run, Some(max)).granted <= max) <==> Roomy(max, callers)
  {
    if Roomy(max, callers) {
      forall run ensures Exec(Init(callers), run, Some(max)).granted <= max {
        InitCapInv(max, callers);
        CapInvRun(Init(callers), run, max, callers);
      }
    } else {
      var run := CapBreaks(max, callers);
    }
  }

  /** Once set, `draining` stays set, and no reservation begins after that. */
  lemma {:induction false} DrainingIsForever(s: State, run: seq<Action>, max: Option<nat>)
    requires s.draining
    ensures Exec(s, run, max).draining
    ensures Exec(s, run, max).granted <= s.granted + |At(s.pc, Checked)|
    decreases run
  {
    if run == [] {
    } else {
      var t := Step(s, run[0], max);
      DrainingIsForever(t, run[1..], max);
      CheckedShrinks(s, run[0], max);
    }
  }

  lemma CheckedShrinks(s: State, a: Action, max: Option<nat>)
    requires s.draining
    ensures var t := Step(s, a, max); t.granted + |At(t.pc, Checked)| <= s.granted + |At(s.pc, Checked)|
  {
    var t := Step(s, a, max);
    if a.Run? && a.caller in s.pc && t.pc != s.pc {
      MoveCaller(s.pc, a.caller, t.pc[a.caller], Checked);
    }
  }

  /** Without a cap the counter is not used: a caller is refused exactly when the monitor has drained. */
  lemma {:induction false} UncappedRefusal(s: State, run: seq<Action>, a: Action)
    requires s.draining == s.monitorDrained && (forall c :: c in s.pc ==> s.pc[c].Idle?)
    ensures var t := Exec(s, run, None); a.Run? && a.caller in t.pc ==> (Refuses(t, a) <==> t.monitorDrained)
    decreases run
  {
    if run == [] {
    } else {
      UncappedRefusal(Step(s, run[0], None), run[1..], a);
    }
  }
}
