/** The GitHub Actions autoscaler: launches kept in flight for a TTL, with a cooldown between scale-ups. */
module Autoscaler {
  import opened Counting
  import opened Options

  datatype Demand = Demand(eligiblePending: nat, liveCapacity: nat, liveAgents: nat)

  datatype TickResult = Cooling | DemandFailed | DispatchFailed | Done

  /** One call to the dispatch endpoint: the tick it belongs to, when it began and when it was recorded. */
  datatype Attempt = Attempt(tick: nat, began: nat, ended: nat)

  function SatSub(a: nat, b: nat): nat {
    if a <= b then 0 else a - b
  }

  function Min(a: nat, b: nat): nat {
    if a <= b then a else b
  }

  /** How many workflows one tick tries to launch. */
  function LaunchCount(d: Demand, inflight: nat, maxInflight: nat): nat {
    var pendingInflight := SatSub(inflight, d.liveAgents);
    var available := Min(d.liveCapacity + pendingInflight, U32_MAX);
    Min(SatSub(d.eligiblePending % U32, available), SatSub(maxInflight, inflight))
  }

  /** `n` launches for this demand: never too many, and when `all` went out, too few only at the limit. */
  ghost predicate MeetsDeficit(d: Demand, inflight: nat, n: int, maxInflight: nat, all: bool) {
    var p, w := d.eligiblePending % U32, if inflight > d.liveAgents then inflight - d.liveAgents else 0;
    && (n > 0 ==> d.liveCapacity + w + n <= p)
    && (all ==> p <= d.liveCapacity + w + n || inflight + n >= maxInflight)
  }

  /**
   Launches never outrun the builds that neither live agents nor launches still without an
   agent will serve, and fall short of them only at the limit. The pending count is cut to 32 bits.
   */
  lemma LaunchesMeetDeficit(d: Demand, inflight: nat, maxInflight: nat)
    ensures var n := LaunchCount(d, inflight, maxInflight);
            MeetsDeficit(d, inflight, n, maxInflight, true) && (n == 0 || inflight + n <= maxInflight)
  {
  }

  // ---- time-ordered launches ----

  ghost predicate Ordered(s: seq<nat>) {
    forall i, j :: 0 <= i < j < |s| ==> s[i] <= s[j]
  }

  /** The launches that have not reached their time to live at time `t`. */
  function Unexpired(s: seq<nat>, ttl: nat, t: nat): seq<nat> {
    if s == [] then []
    else if s[0] + ttl <= t then Unexpired(s[1..], ttl, t)
    else [s[0]] + Unexpired(s[1..], ttl, t)
  }

  /** A launch is kept, as often as it was there, exactly while it is younger than its time to live. */
  lemma {:induction false} UnexpiredExactly(s: seq<nat>, ttl: nat, t: nat, x: nat)
    ensures multiset(Unexpired(s, ttl, t))[x] == if x + ttl > t then multiset(s)[x] else 0
  {
    if s == [] {
    } else {
      UnexpiredExactly(s[1..], ttl, t, x);
      assert s == [s[0]] + s[1..];
    }
  }

  /** In time order, nothing has expired when the front has not. */
  lemma {:induction false} NoneExpired(s: seq<nat>, ttl: nat, t: nat)
    requires Ordered(s) && (s != [] ==> s[0] + ttl > t)
    ensures Unexpired(s, ttl, t) == s
  {
    if s == [] {
    } else {
      NoneExpired(s[1..], ttl, t);
      assert s == [s[0]] + s[1..];
    }
  }

  /** Any launch and the one `max` launches later are at least a TTL apart. */
  ghost predicate Spaced(s: seq<nat>, max: nat, ttl: nat) {
    forall j :: max <= j < |s| ==> s[j] - s[j - max] >= ttl
  }

  lemma SpacedApart(s: seq<nat>, max: nat, ttl: nat, i: nat, j: nat)
    requires Ordered(s) && Spaced(s, max, ttl) && i + max <= j < |s|
    ensures s[j] - s[i] >= ttl
  {
    assert s[j] - s[j - max] >= ttl;
    assert i == j - max || s[i] <= s[j - max];
  }

  /** So a window shorter than the TTL that ends at a launch holds at most `max` launches. */
  lemma WindowHoldsAtMostMax(s: seq<nat>, max: nat, ttl: nat, i: nat, j: nat)
    requires Ordered(s) && Spaced(s, max, ttl)
    requires i <= j < |s| && s[j] - s[i] < ttl
    ensures j - i + 1 <= max
  {
    if i + max <= j { SpacedApart(s, max, ttl, i, j); }
  }

  /** Attempts follow each other, and those of different ticks keep the cooldown. */
  ghost predicate CooledDown(a: seq<Attempt>, cooldown: nat) {
    forall i, j :: 0 <= i < j < |a| ==>
      && a[i].tick <= a[j].tick
      && a[i].ended <= a[j].began
      && (a[i].tick < a[j].tick ==> a[i].ended + cooldown <= a[j].began)
  }

  /**
   What the in-flight queue knows at time `now` about all launches so far: it is their tail,
   the ones dropped from it have expired, and no TTL-window was overfilled.
   */
  ghost predicate LaunchesOk(launches: seq<nat>, inflight: seq<nat>, max: nat, ttl: nat, now: nat) {
    var dropped := |launches| - |inflight|;
    && |inflight| <= max
    && 0 <= dropped && inflight == launches[dropped..]
    && (forall i :: 0 <= i < dropped ==> launches[i] + ttl <= now)
    && (forall i :: 0 <= i < |launches| ==> launches[i] <= now)
    && Ordered(launches)
    && Spaced(launches, max, ttl)
  }

  lemma LaterKeepsLaunches(launches: seq<nat>, inflight: seq<nat>, max: nat, ttl: nat, now: nat, later: nat)
    requires LaunchesOk(launches, inflight, max, ttl, now) && now <= later
    ensures LaunchesOk(launches, inflight, max, ttl, later)
  {
  }

  lemma PopKeepsLaunches(launches: seq<nat>, inflight: seq<nat>, max: nat, ttl: nat, now: nat)
    requires LaunchesOk(launches, inflight, max, ttl, now)
    requires inflight != [] && inflight[0] + ttl <= now
    ensures LaunchesOk(launches, inflight[1..], max, ttl, now)
  {
  }

  lemma TailIsOrdered(launches: seq<nat>, inflight: seq<nat>, max: nat, ttl: nat, now: nat)
    requires LaunchesOk(launches, inflight, max, ttl, now)
    ensures Ordered(inflight)
  {
  }

  lemma PushKeepsLaunches(launches: seq<nat>, inflight: seq<nat>, max: nat, ttl: nat, now: nat, t: nat)
    requires LaunchesOk(launches, inflight, max, ttl, now)
    requires |inflight| < max && now <= t
    ensures LaunchesOk(launches + [t], inflight + [t], max, ttl, t)
  {
    var more := launches + [t];
    forall j | max <= j < |more| ensures more[j] - more[j - max] >= ttl {
      if j == |launches| {
        assert j - max < |launches| - |inflight|;
        assert launches[j - max] + ttl <= now;
      }
    }
  }

  /** What the cooldown knows at time `now` about all attempts so far, during tick number `ticks`. */
  ghost predicate AttemptsOk(a: seq<Attempt>, last: Option<nat>, ticks: nat, cooldown: nat, now: nat) {
    && CooledDown(a, cooldown)
    && (forall i :: 0 <= i < |a| ==> a[i].tick <= ticks && a[i].began <= a[i].ended <= now)
    && last == if a == [] then None else Some(a[|a| - 1].ended)
  }

  /** Every earlier tick's attempts ended a cooldown before `now`. */
  ghost predicate MayAttempt(a: seq<Attempt>, ticks: nat, cooldown: nat, now: nat) {
    forall i :: 0 <= i < |a| && a[i].tick < ticks ==> a[i].ended + cooldown <= now
  }

  lemma CooldownOver(a: seq<Attempt>, last: Option<nat>, ticks: nat, cooldown: nat, now: nat)
    requires AttemptsOk(a, last, ticks, cooldown, now)
    requires last.Some? ==> last.value + cooldown <= now
    ensures MayAttempt(a, ticks, cooldown, now)
  {
    forall i | 0 <= i < |a| ensures a[i].ended + cooldown <= now {
      if i < |a| - 1 {
        assert a[i].ended <= a[|a| - 1].began <= a[|a| - 1].ended;
      }
    }
  }

  lemma AttemptKeeps(a: seq<Attempt>, last: Option<nat>, ticks: nat, cooldown: nat, began: nat, ended: nat)
    requires AttemptsOk(a, last, ticks, cooldown, began)
    requires MayAttempt(a, ticks, cooldown, began) && began <= ended
    ensures AttemptsOk(a + [Attempt(ticks, began, ended)], Some(ended), ticks, cooldown, ended)
    ensures MayAttempt(a + [Attempt(ticks, began, ended)], ticks, cooldown, ended)
  {
  }

  /** No window shorter than the TTL holds more than `max` launches. */
  ghost predicate WindowsHold(launches: seq<nat>, max: nat, ttl: nat) {
    forall i, j :: 0 <= i <= j < |launches| && launches[j] - launches[i] < ttl ==> j - i + 1 <= max
  }

  /** Attempts of different ticks are at least a cooldown apart. */
  ghost predicate TicksApart(attempts: seq<Attempt>, cooldown: nat) {
    forall i, j :: 0 <= i < j < |attempts| && attempts[i].tick != attempts[j].tick ==>
      attempts[i].ended + cooldown <= attempts[j].began
  }

  /** What holds of everything launched and attempted so far. */
  ghost predicate GoodHistory(inflight: seq<nat>, launches: seq<nat>, attempts: seq<Attempt>, max: nat, ttl: nat, cooldown: nat) {
    && |inflight| <= max && |inflight| <= |launches| && inflight == launches[|launches| - |inflight|..]
    && WindowsHold(launches, max, ttl) && TicksApart(attempts, cooldown)
  }

  /** What one poll meets: the demand, if it can be read, and the endpoint's answers. */
  datatype Poll = Poll(demand: Option<Demand>, accepts: nat -> bool)

  /** A monotone clock: each reading is at or after the previous one. */
  class Clock {
    var now: nat

    method Read() returns (t: nat)
      modifies this
      ensures t == now >= old(now)
    {
      t :| t >= now;
      now := t;
    }
  }

  class Autoscaler {
    const clock: Clock
    const maxInflight: nat
    const ttl: nat
    const cooldown: nat

    var inflight: seq<nat>
    var lastScaleUp: Option<nat>

    /** Everything launched and attempted since start, as the remote endpoint has seen it. */
    var launches: seq<nat>
    var attempts: seq<Attempt>
    var ticks: nat

    ghost predicate Valid()
      reads this, clock
    {
      && maxInflight < U32
      && LaunchesOk(launches, inflight, maxInflight, ttl, clock.now)
      && AttemptsOk(attempts, lastScaleUp, ticks, cooldown, clock.now)
    }

    constructor (clock: Clock, maxInflight: nat, ttl: nat, cooldown: nat)
      requires maxInflight < U32
      ensures Valid() && this.clock == clock && launches == [] && attempts == []
      ensures this.maxInflight == maxInflight && this.ttl == ttl && this.cooldown == cooldown
    {
      this.clock, this.maxInflight, this.ttl, this.cooldown := clock, maxInflight, ttl, cooldown;
      inflight, lastScaleUp := [], None;
      launches, attempts, ticks := [], [], 0;
    }

    /** Reading the clock keeps what is known about the past. */
    method Now() returns (t: nat)
      requires Valid()
      modifies clock
      ensures Valid() && t == clock.now >= old(clock.now)
    {
      ghost var before := clock.now;
      t := clock.Read();
      LaterKeepsLaunches(launches, inflight, maxInflight, ttl, before, t);
    }

    /** Popping from the front removes exactly the launches that have expired. */
    method PruneInflight()
      requires Valid()
      modifies this`inflight, clock
      ensures Valid()
      ensures clock.now >= old(clock.now)
      ensures inflight == Unexpired(old(inflight), ttl, clock.now)
    {
      while inflight != []
        invariant forall t: nat :: t >= clock.now ==> Unexpired(inflight, ttl, t) == Unexpired(old(inflight), ttl, t)
        invariant clock.now >= old(clock.now)
        invariant Valid()
        decreases |inflight|
      {
        var t := Now();
        if inflight[0] + ttl > t { break; }
        PopKeepsLaunches(launches, inflight, maxInflight, ttl, t);
        inflight := inflight[1..];
      }
      TailIsOrdered(launches, inflight, maxInflight, ttl, clock.now);
      NoneExpired(inflight, ttl, clock.now);
    }

    method InCooldown() returns (cooling: bool)
      requires Valid()
      modifies clock
      ensures Valid() && clock.now >= old(clock.now)
      ensures cooling <==> lastScaleUp.Some? && clock.now < lastScaleUp.value + cooldown
    {
      if lastScaleUp.None? {
        return false;
      }
      var t := Now();
      cooling := t < lastScaleUp.value + cooldown;
    }

    /** The endpoint accepted: remember when. */
    method Enqueue()
      requires Valid() && |inflight| < maxInflight
      modifies this`inflight, this`launches, clock
      ensures Valid() && clock.now >= old(clock.now)
      ensures launches == old(launches) + [clock.now] && inflight == old(inflight) + [clock.now]
    {
      ghost var before := clock.now;
      var t := clock.Read();
      PushKeepsLaunches(launches, inflight, maxInflight, ttl, before, t);
      inflight, launches := inflight + [t], launches + [t];
    }

    /** Start the cooldown after an attempt that began at `began`. */
    method RecordAttempt(began: nat)
      requires Valid() && AttemptsOk(attempts, lastScaleUp, ticks, cooldown, began) && began <= clock.now
      requires MayAttempt(attempts, ticks, cooldown, began)
      modifies this`lastScaleUp, this`attempts, clock
      ensures Valid() && MayAttempt(attempts, ticks, cooldown, clock.now) && clock.now >= old(clock.now)
      ensures attempts == old(attempts) + [Attempt(ticks, began, clock.now)] && lastScaleUp == Some(clock.now)
    {
      var t := Now();
      AttemptKeeps(attempts, lastScaleUp, ticks, cooldown, began, t);
      lastScaleUp := Some(t);
      attempts := attempts + [Attempt(ticks, began, t)];
    }

    /** Dispatch one workflow and record the attempt; `ok` is what the remote endpoint answers. */
    method Launch(ok: bool)
      requires Valid() && |inflight| < maxInflight && MayAttempt(attempts, ticks, cooldown, clock.now)
      modifies this`inflight, this`lastScaleUp, this`launches, this`attempts, clock
      ensures Valid() && MayAttempt(attempts, ticks, cooldown, clock.now) && clock.now >= old(clock.now)
      ensures |launches| == |old(launches)| + (if ok then 1 else 0) && old(launches) <= launches
      ensures inflight == old(inflight) + launches[|old(launches)|..]
      ensures |attempts| == |old(attempts)| + 1 && old(attempts) <= attempts
    {
      var began := clock.now;
      if ok { Enqueue(); }
      RecordAttempt(began);
    }

    /** Launch `count` runners, stopping at the first the remote endpoint refuses. */
    method LaunchAll(count: nat, accepts: nat -> bool) returns (launched: nat)
      requires Valid() && |inflight| + count <= maxInflight && MayAttempt(attempts, ticks, cooldown, clock.now)
      modifies this`inflight, this`lastScaleUp, this`launches, this`attempts, clock
      ensures Valid() && old(launches) <= launches && old(attempts) <= attempts && clock.now >= old(clock.now)
      ensures IsRun(launched, count, accepts)
      ensures |launches| == |old(launches)| + launched && inflight == old(inflight) + launches[|old(launches)|..]
      ensures |attempts| == |old(attempts)| + launched + (if launched < count then 1 else 0)
    {
      for n := 0 to count
        invariant Valid() && MayAttempt(attempts, ticks, cooldown, clock.now) && clock.now >= old(clock.now)
        invariant forall k :: 0 <= k < n ==> accepts(k)
        invariant |launches| == |old(launches)| + n && old(launches) <= launches
        invariant inflight == old(inflight) + launches[|old(launches)|..]
        invariant |attempts| == |old(attempts)| + n && old(attempts) <= attempts
      {
        ghost var before := launches;
        Launch(accepts(n));
        assert launches[|old(launches)|..] == before[|old(launches)|..] + launches[|before|..];
        if !accepts(n) { return n; }
      }
      launched := count;
    }

    /** The start of a tick; a tick that is not cooling may attempt launches. */
    method Prepare() returns (cooling: bool, ghost prunedAt: nat, ghost checkedAt: nat)
      requires Valid()
      modifies this`inflight, this`ticks, clock
      ensures Valid() && ticks == old(ticks) + 1
      ensures old(clock.now) <= prunedAt <= checkedAt == clock.now
      ensures inflight == Unexpired(old(inflight), ttl, prunedAt)
      ensures cooling <==> lastScaleUp.Some? && checkedAt < lastScaleUp.value + cooldown
      ensures !cooling ==> MayAttempt(attempts, ticks, cooldown, clock.now)
    {
      ticks := ticks + 1;
      PruneInflight();
      prunedAt := clock.now;
      cooling := InCooldown();
      checkedAt := clock.now;
      if !cooling { CooldownOver(attempts, lastScaleUp, ticks, cooldown, clock.now); }
    }

    /**
     One poll: prune, respect the cooldown, then launch up to the deficit. `prunedAt` and
     `checkedAt` are the clock readings that ended the pruning and decided the cooldown.
     */
    method Tick(demand: Option<Demand>, accepts: nat -> bool)
        returns (r: TickResult, ghost target: nat, ghost prunedAt: nat, ghost checkedAt: nat)
      requires Valid()
      modifies this, clock
      ensures Valid()
      ensures ticks == old(ticks) + 1
      ensures old(clock.now) <= prunedAt <= checkedAt <= clock.now
      ensures old(launches) <= launches && old(attempts) <= attempts
      ensures inflight == Unexpired(old(inflight), ttl, prunedAt) + launches[|old(launches)|..]
      ensures r.Cooling? <==> old(lastScaleUp).Some? && checkedAt < old(lastScaleUp).value + cooldown
      ensures r.DemandFailed? <==> !r.Cooling? && demand.None?
      ensures r.Cooling? || r.DemandFailed? ==>
                launches == old(launches) && attempts == old(attempts) && lastScaleUp == old(lastScaleUp)
      ensures r.Done? || r.DispatchFailed? ==>
                && target == LaunchCount(demand.value, |Unexpired(old(inflight), ttl, prunedAt)|, maxInflight)
                && IsRun(|launches| - |old(launches)|, target, accepts)
                && (r.Done? <==> |launches| == |old(launches)| + target)
                && MeetsDeficit(demand.value, |Unexpired(old(inflight), ttl, prunedAt)|, |launches| - |old(launches)|, maxInflight, r.Done?)
                && |attempts| - |old(attempts)| == |launches| - |old(launches)| + (if r.Done? then 0 else 1)
    {
      var cooling;
      target := 0;
      cooling, prunedAt, checkedAt := Prepare();
      assert launches[|launches|..] == [];
      if cooling { return Cooling, target, prunedAt, checkedAt; }
      if demand.None? { return DemandFailed, target, prunedAt, checkedAt; }
      var count := LaunchCount(demand.value, |inflight|, maxInflight);
      target := count;
      var launched := LaunchAll(count, accepts);
      r := if launched == count then Done else DispatchFailed;
      LaunchesMeetDeficit(demand.value, |inflight| - launched, maxInflight);
    }

    /** Any number of polls. */
    method RunAll(polls: seq<Poll>)
      requires Valid()
      modifies this, clock
      ensures Valid() && ticks == old(ticks) + |polls|
      ensures GoodHistory(inflight, launches, attempts, maxInflight, ttl, cooldown)
    {
      for i := 0 to |polls|
        invariant Valid() && ticks == old(ticks) + i
      {
        PollOnce(polls[i]);
      }
      History(this);
    }

    method PollOnce(p: Poll)
      requires Valid()
      modifies this, clock
      ensures Valid() && ticks == old(ticks) + 1
    {
      ghost var target, prunedAt, checkedAt;
      var r;
      r, target, prunedAt, checkedAt := Tick(p.demand, p.accepts);
    }
  }

  /** `n` of `count` dispatches succeeded, up to the first refusal. */
  ghost predicate IsRun(n: int, count: nat, accepts: nat -> bool) {
    0 <= n <= count && (forall k :: 0 <= k < n ==> accepts(k)) && (n < count ==> !accepts(n))
  }

  /** Over the autoscaler's whole history, no window shorter than the TTL holds more than max_inflight launches. */
  lemma LaunchWindow(a: Autoscaler, i: nat, j: nat)
    requires a.Valid() && i <= j < |a.launches| && a.launches[j] - a.launches[i] < a.ttl
    ensures j - i + 1 <= a.maxInflight
  {
    WindowHoldsAtMostMax(a.launches, a.maxInflight, a.ttl, i, j);
  }

  /** Over its whole history, attempts of different ticks are at least a cooldown apart. */
  lemma AttemptsCoolDown(a: Autoscaler, i: nat, j: nat)
    requires a.Valid() && i < j < |a.attempts| && a.attempts[i].tick != a.attempts[j].tick
    ensures a.attempts[i].ended + a.cooldown <= a.attempts[j].began
  {
    assert CooledDown(a.attempts, a.cooldown);
  }

  /** An autoscaler's whole life: any number of polls, from the start, under a clock that never goes back. */
  method RunPolls(maxInflight: nat, ttl: nat, cooldown: nat, polls: seq<Poll>)
      returns (inflight: seq<nat>, launches: seq<nat>, attempts: seq<Attempt>)
    requires maxInflight < U32
    ensures GoodHistory(inflight, launches, attempts, maxInflight, ttl, cooldown)
  {
    var clock := new Clock;
    var a := new Autoscaler(clock, maxInflight, ttl, cooldown);
    a.RunAll(polls);
    inflight, launches, attempts := a.inflight, a.launches, a.attempts;
  }

  lemma History(a: Autoscaler)
    requires a.Valid()
    ensures GoodHistory(a.inflight, a.launches, a.attempts, a.maxInflight, a.ttl, a.cooldown)
  {
    forall i, j | 0 <= i <= j < |a.launches| && a.launches[j] - a.launches[i] < a.ttl ensures j - i + 1 <= a.maxInflight {
      LaunchWindow(a, i, j);
    }
    forall i, j | 0 <= i < j < |a.attempts| && a.attempts[i].tick != a.attempts[j].tick
      ensures a.attempts[i].ended + a.cooldown <= a.attempts[j].began
    {
      AttemptsCoolDown(a, i, j);
    }
  }
}
