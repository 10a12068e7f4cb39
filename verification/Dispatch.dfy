/** Choosing and reserving an agent for a build: filter, sort, take the first free slot. */
module Dispatch {
  import opened Orders
  import opened Matching
  import opened Options

  datatype Strategy = SpeedFactorOnly | CpuCoreCountWithSpeedFactor | Dynamic

  datatype Snapshot = Snapshot(
    machineId: nat,
    supported: Features,
    mandatory: Features,
    speedFactor: real,
    cpuCount: nat,
    maxJobs: nat,
    currentJobs: nat,
    oidc: bool,
    oidcRepository: Option<string>,
    heartbeatFresh: bool,
    psi: seq<real>)

  /** What the scheduler knows about one build when it looks for a venue. */
  datatype Request = Request(
    features: Features,
    demand: set<string>,
    strategy: Strategy,
    psiThreshold: Option<real>,
    trusted: Option<Option<string>>)

  // ---- eligibility ----

  /** A stale or missing heartbeat is treated as unknown and lets the agent through. */
  predicate PressureOk(a: Snapshot, r: Request) {
    r.psiThreshold.Some? && a.heartbeatFresh ==> forall i :: 0 <= i < |a.psi| ==> a.psi[i] <= r.psiThreshold.value
  }

  predicate TrustOk(a: Snapshot, r: Request) {
    a.oidc ==> r.trusted.Some? && (a.oidcRepository.Some? ==> r.trusted.value == a.oidcRepository)
  }

  predicate Eligible(a: Snapshot, r: Request, schedulable: set<nat>) {
    && PressureOk(a, r)
    && SupportsRequiredFeatures(r.features, a.supported, a.mandatory)
    && TrustOk(a, r)
    && a.machineId in schedulable
  }

  // ---- ranking ----

  /** Contended capabilities the build would waste on this agent. */
  function ContendedSurplus(supported: Features, r: Request): nat {
    if supported == [] then 0
    else (if supported[0] in r.demand && supported[0] !in r.features then 1 else 0) + ContendedSurplus(supported[1..], r)
  }

  /** Higher is better. */
  function Score(strategy: Strategy, a: Snapshot): real {
    match strategy
    case SpeedFactorOnly => a.speedFactor
    case CpuCoreCountWithSpeedFactor => a.cpuCount as real * a.speedFactor
    case Dynamic => (if a.currentJobs >= a.maxJobs then 0 else a.maxJobs - a.currentJobs) as real * a.speedFactor
  }

  /** At least as good a choice: surplus first, then the strategy's score, then the machine id. */
  predicate Better(a: Snapshot, b: Snapshot, r: Request) {
    var sa, sb := ContendedSurplus(a.supported, r), ContendedSurplus(b.supported, r);
    if sa != sb then sa < sb
    else if Score(r.strategy, a) != Score(r.strategy, b) then Score(r.strategy, a) > Score(r.strategy, b)
    else a.machineId <= b.machineId
  }

  /** Machine ids are the keys of the agent pool. */
  ghost predicate DistinctIds(agents: seq<Snapshot>) {
    forall a, b :: a in agents && b in agents && a.machineId == b.machineId ==> a == b
  }

  lemma BetterIsTotalPreorder(r: Request)
    ensures TotalPreorder((a, b) => Better(a, b, r))
  {
  }

  // ---- what the ranking means ----

  /** An agent may be asked: schedulable, able, not under pressure, and trusted with this build. */
  lemma EligibleIff(a: Snapshot, r: Request, schedulable: set<nat>)
    ensures Eligible(a, r, schedulable) <==>
            && a.machineId in schedulable
            && (forall f :: f in r.features ==> f in a.supported)
            && (forall f :: f in a.mandatory ==> f in r.features)
            && (r.psiThreshold.Some? && a.heartbeatFresh ==> forall p :: p in a.psi ==> p <= r.psiThreshold.value)
            && (a.oidc ==> r.trusted.Some? && (a.oidcRepository.None? || r.trusted.value == a.oidcRepository))
  {
    assert forall i :: 0 <= i < |a.psi| ==> a.psi[i] in a.psi;
    assert forall p :: p in a.psi ==> exists i :: 0 <= i < |a.psi| && a.psi[i] == p;
  }

  /** Among agents equally wasteful the higher score goes first, and among equal scores the lower id. */
  lemma PreferenceIs(a: Snapshot, b: Snapshot, r: Request)
    ensures var sa, sb := ContendedSurplus(a.supported, r), ContendedSurplus(b.supported, r);
            var xa, xb := Score(r.strategy, a), Score(r.strategy, b);
            && (sa < sb ==> Better(a, b, r) && !Better(b, a, r))
            && (sa == sb && xa > xb ==> Better(a, b, r) && !Better(b, a, r))
            && (sa == sb && xa == xb && a.machineId < b.machineId ==> Better(a, b, r) && !Better(b, a, r))
  {
  }

  /** What the strategies weigh: speed, speed times cores, speed times free job slots. */
  lemma ScoreIs(a: Snapshot)
    ensures Score(SpeedFactorOnly, a) == a.speedFactor
    ensures Score(CpuCoreCountWithSpeedFactor, a) == a.speedFactor * a.cpuCount as real
    ensures a.currentJobs < a.maxJobs ==> Score(Dynamic, a) == a.speedFactor * (a.maxJobs - a.currentJobs) as real
    ensures a.currentJobs >= a.maxJobs ==> Score(Dynamic, a) == 0.0
  {
  }

  ghost function Wasted(supported: Features, r: Request): set<string> {
    set f | f in supported && f in r.demand && f !in r.features
  }

  /** The surplus counts the features others are waiting for that this build would not use. */
  lemma {:induction false} SurplusCounts(supported: Features, r: Request)
    requires forall i, j :: 0 <= i < j < |supported| ==> supported[i] != supported[j]
    ensures ContendedSurplus(supported, r) == |Wasted(supported, r)|
  {
    if supported == [] {
    } else {
      var f, rest := supported[0], supported[1..];
      SurplusCounts(rest, r);
      assert f !in rest;
      assert supported == [f] + rest;
      assert Wasted(supported, r) == Wasted(rest, r) + if f in r.demand && f !in r.features then {f} else {};
    }
  }

  // ---- selection ----

  function EligibleOf(agents: seq<Snapshot>, r: Request, schedulable: set<nat>): seq<Snapshot> {
    if agents == [] then []
    else if Eligible(agents[0], r, schedulable) then [agents[0]] + EligibleOf(agents[1..], r, schedulable)
    else EligibleOf(agents[1..], r, schedulable)
  }

  lemma {:induction false} EligibleOfExact(agents: seq<Snapshot>, r: Request, schedulable: set<nat>)
    ensures forall a :: a in EligibleOf(agents, r, schedulable) <==> a in agents && Eligible(a, r, schedulable)
  {
    if agents == [] {
    } else {
      EligibleOfExact(agents[1..], r, schedulable);
      assert forall a :: a in agents <==> a == agents[0] || a in agents[1..];
    }
  }

  /** The agent to reserve: the best eligible one that still has a slot when asked. */
  ghost predicate IsBest(a: Snapshot, agents: seq<Snapshot>, r: Request, schedulable: set<nat>, free: set<nat>) {
    && a in agents && Eligible(a, r, schedulable) && a.machineId in free
    && forall b :: b in agents && Eligible(b, r, schedulable) && b.machineId in free ==> Better(a, b, r)
  }

  method FilterEligible(agents: seq<Snapshot>, r: Request, schedulable: set<nat>) returns (eligible: seq<Snapshot>)
    ensures eligible == EligibleOf(agents, r, schedulable)
  {
    eligible := [];
    for i := 0 to |agents|
      invariant eligible + EligibleOf(agents[i..], r, schedulable) == EligibleOf(agents, r, schedulable)
    {
      assert agents[i..][1..] == agents[i + 1..];
      if Eligible(agents[i], r, schedulable) {
        eligible := eligible + [agents[i]];
      }
    }
  }

  function Ranked(eligible: seq<Snapshot>, r: Request): seq<Snapshot> {
    Sort(eligible, (a, b) => Better(a, b, r))
  }

  lemma RankedCorrect(eligible: seq<Snapshot>, r: Request)
    ensures multiset(Ranked(eligible, r)) == multiset(eligible)
    ensures forall a :: a in Ranked(eligible, r) <==> a in eligible
    ensures forall i, j :: 0 <= i < j < |Ranked(eligible, r)| ==> Better(Ranked(eligible, r)[i], Ranked(eligible, r)[j], r)
  {
    var order, ranked := (a, b) => Better(a, b, r), Ranked(eligible, r);
    BetterIsTotalPreorder(r);
    SortCorrect(eligible, order);
    forall a ensures a in ranked <==> a in eligible { assert a in multiset(ranked) <==> a in multiset(eligible); }
    forall i, j | 0 <= i < j < |ranked| ensures Better(ranked[i], ranked[j], r) { assert order(ranked[i], ranked[j]); }
  }

  /** The agents in the order they are asked for a slot. */
  function Asked(agents: seq<Snapshot>, r: Request, schedulable: set<nat>): seq<Snapshot> {
    Ranked(EligibleOf(agents, r, schedulable), r)
  }

  /** Exactly the eligible agents are asked, each better one before each worse one. */
  lemma AskedCorrect(agents: seq<Snapshot>, r: Request, schedulable: set<nat>)
    ensures var asked := Asked(agents, r, schedulable);
            && (forall a :: a in asked <==> a in agents && Eligible(a, r, schedulable))
            && (forall i, j :: 0 <= i < j < |asked| ==> Better(asked[i], asked[j], r))
  {
    EligibleOfExact(agents, r, schedulable);
    RankedCorrect(EligibleOf(agents, r, schedulable), r);
  }

  /** The agents that waste least are asked first. */
  lemma LeastWastefulFirst(agents: seq<Snapshot>, r: Request, schedulable: set<nat>, i: nat, j: nat)
    requires i < j < |Asked(agents, r, schedulable)|
    ensures var asked := Asked(agents, r, schedulable);
            ContendedSurplus(asked[i].supported, r) <= ContendedSurplus(asked[j].supported, r)
  {
    AskedCorrect(agents, r, schedulable);
    var asked := Asked(agents, r, schedulable);
    PreferenceIs(asked[j], asked[i], r);
    assert Better(asked[i], asked[j], r);
  }

  /**
   Ask each agent in turn for a slot. `grants(i)` says whether the i-th one asked still has
   a slot at that moment, whatever its snapshot said.
   */
  method SelectAndReserve(agents: seq<Snapshot>, r: Request, schedulable: set<nat>, grants: nat -> bool)
      returns (chosen: Option<Snapshot>)
    ensures var asked := Asked(agents, r, schedulable);
            && (chosen.None? <==> forall j :: 0 <= j < |asked| ==> !grants(j))
            && (chosen.Some? ==> exists i: nat :: FirstGrant(i, asked, grants) && chosen.value == asked[i])
  {
    var eligible := FilterEligible(agents, r, schedulable);
    var asked := Ranked(eligible, r);
    for i := 0 to |asked|
      invariant forall j :: 0 <= j < i ==> !grants(j)
    {
      if grants(i) {
        assert FirstGrant(i, asked, grants);
        return Some(asked[i]);
      }
    }
    chosen := None;
  }

  ghost predicate FirstGrant(i: nat, asked: seq<Snapshot>, grants: nat -> bool) {
    i < |asked| && grants(i) && forall j :: 0 <= j < i ==> !grants(j)
  }

  /** Every eligible agent the scheduler would rather have had was asked before and had no slot. */
  lemma BetterOnesRefused(i: nat, b: Snapshot, agents: seq<Snapshot>, r: Request, schedulable: set<nat>, grants: nat -> bool)
      returns (j: nat)
    requires var asked := Asked(agents, r, schedulable); FirstGrant(i, asked, grants) && !Better(asked[i], b, r)
    requires b in agents && Eligible(b, r, schedulable)
    ensures var asked := Asked(agents, r, schedulable); j < i < |asked| && asked[j] == b && !grants(j)
  {
    var asked := Asked(agents, r, schedulable);
    AskedCorrect(agents, r, schedulable);
    BetterIsTotalPreorder(r);
    j :| 0 <= j < |asked| && asked[j] == b;
  }

  /** When the free machines do not change during the scan, the one reserved is the best of them. */
  lemma FirstGrantIsBest(i: nat, agents: seq<Snapshot>, r: Request, schedulable: set<nat>, grants: nat -> bool, free: set<nat>)
    requires var asked := Asked(agents, r, schedulable);
             && FirstGrant(i, asked, grants)
             && forall j :: 0 <= j < |asked| ==> (grants(j) <==> asked[j].machineId in free)
    ensures IsBest(Asked(agents, r, schedulable)[i], agents, r, schedulable, free)
  {
    var asked := Asked(agents, r, schedulable);
    AskedCorrect(agents, r, schedulable);
    forall b | b in agents && Eligible(b, r, schedulable) && b.machineId in free ensures Better(asked[i], b, r) {
      if !Better(asked[i], b, r) {
        var j := BetterOnesRefused(i, b, agents, r, schedulable, grants);
      }
    }
  }

  // ---- order of the snapshot ----

  lemma EligibleHead(xs: seq<Snapshot>, r: Request, schedulable: set<nat>)
    requires xs != []
    ensures multiset(EligibleOf(xs, r, schedulable)) ==
            (if Eligible(xs[0], r, schedulable) then multiset{xs[0]} else multiset{}) + multiset(EligibleOf(xs[1..], r, schedulable))
  {
  }

  lemma {:induction false} EligibleRemove(xs: seq<Snapshot>, j: nat, r: Request, schedulable: set<nat>)
    requires j < |xs|
    ensures multiset(EligibleOf(xs, r, schedulable)) ==
            (if Eligible(xs[j], r, schedulable) then multiset{xs[j]} else multiset{}) + multiset(EligibleOf(RemoveAt(xs, j), r, schedulable))
  {
    EligibleHead(xs, r, schedulable);
    if j == 0 {
      assert RemoveAt(xs, 0) == xs[1..];
    } else {
      EligibleRemove(xs[1..], j - 1, r, schedulable);
      RemoveAtTail(xs, j);
      EligibleHead(RemoveAt(xs, j), r, schedulable);
    }
  }

  lemma {:induction false} EligiblePermutes(xs: seq<Snapshot>, ys: seq<Snapshot>, r: Request, schedulable: set<nat>)
    requires multiset(xs) == multiset(ys)
    ensures multiset(EligibleOf(xs, r, schedulable)) == multiset(EligibleOf(ys, r, schedulable))
    decreases |xs|
  {
    if xs == [] {
      assert |multiset(ys)| == 0;
    } else {
      var j := HeadIn(xs, ys);
      EligiblePermutes(xs[1..], RemoveAt(ys, j), r, schedulable);
      EligibleHead(xs, r, schedulable);
      EligibleRemove(ys, j, r, schedulable);
    }
  }

  /** Agents are asked in the same order, whatever order the snapshot lists them in. */
  lemma AskedForgetsOrder(xs: seq<Snapshot>, ys: seq<Snapshot>, r: Request, schedulable: set<nat>)
    requires multiset(xs) == multiset(ys) && DistinctIds(xs)
    ensures Asked(xs, r, schedulable) == Asked(ys, r, schedulable)
  {
    var order, es := (a, b) => Better(a, b, r), EligibleOf(xs, r, schedulable);
    EligiblePermutes(xs, ys, r, schedulable);
    EligibleOfExact(xs, r, schedulable);
    BetterIsTotalPreorder(r);
    forall a, b | a in es && b in es && order(a, b) && order(b, a) ensures a == b {
      assert a.machineId == b.machineId;
    }
    SortForgetsOrder(es, EligibleOf(ys, r, schedulable), order);
  }

  /** So the reserved agent is the same one, however slots come and go while the agents are asked. */
  lemma ChoiceForgetsOrder(i: nat, j: nat, xs: seq<Snapshot>, ys: seq<Snapshot>, r: Request, schedulable: set<nat>, grants: nat -> bool)
    requires multiset(xs) == multiset(ys) && DistinctIds(xs)
    requires FirstGrant(i, Asked(xs, r, schedulable), grants) && FirstGrant(j, Asked(ys, r, schedulable), grants)
    ensures Asked(xs, r, schedulable)[i] == Asked(ys, r, schedulable)[j]
  {
    AskedForgetsOrder(xs, ys, r, schedulable);
  }

  /** At most one agent is best, whatever order the snapshot lists them in. */
  lemma BestIsUnique(a: Snapshot, b: Snapshot, xs: seq<Snapshot>, ys: seq<Snapshot>, r: Request, schedulable: set<nat>, free: set<nat>)
    requires multiset(xs) == multiset(ys) && DistinctIds(xs)
    requires IsBest(a, xs, r, schedulable, free) && IsBest(b, ys, r, schedulable, free)
    ensures a == b
  {
    assert a in multiset(ys) && b in multiset(xs);
    assert a in ys && b in xs;
    assert Better(a, b, r) && Better(b, a, r);
  }
}
