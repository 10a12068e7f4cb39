/**
 The agent's session with the runner: assignments, completions, aborts, shutdowns and the
 exit monitor. Handlers run on one thread and do not yield between the operations modelled
 as one step. Task identities, the set of live tasks and the cancelled tokens are kept
 across connections, because the job counter is global to the process.
 */
module Session {
  import opened Counting
  import opened Options

  type BuildId = nat

  /** One spawned build task: its connection, its build id and a serial number. */
  datatype Task = Task(conn: nat, build: BuildId, serial: nat)

  datatype Config = Config(maxJobs: nat, maxBuilds: Option<nat>, maxLifetime: Option<nat>, maxIdle: nat)

  /** Shared counters of an ephemeral session; persistent agents have none. */
  datatype Lifecycle = Lifecycle(accepted: nat, completed: nat, draining: bool, lastActive: nat, started: nat)

  datatype Quit = Running | LifetimeReached | BuildsReached | IdleReached

  datatype State = State(
    conn: nat,
    running: map<BuildId, Task>,
    shutDown: bool,
    jobCounter: nat,
    lifecycle: Option<Lifecycle>,
    quit: Quit,
    live: set<Task>,
    cancelled: set<Task>,
    nextSerial: nat)

  datatype Action =
    | Assign(build: BuildId, now: nat)
    | Complete(task: Task, now: nat)
    | Abort(build: BuildId)
    | Shutdown
    | MonitorTick(now: nat)
    | Reconnect

  datatype Refusal = Draining | AtMaxJobs | AlreadyRunning | AtMaxBuilds

  function Init(ephemeral: bool, now: nat): State {
    State(0, map[], false, 0, if ephemeral then Some(Lifecycle(0, 0, false, now, now)) else None, Running, {}, {}, 0)
  }

  // ---- the steps ----

  /** `reserve_build` run without interleaving: the new lifecycle and whether a build was reserved. */
  function ReserveBuild(l: Lifecycle, max: Option<nat>): (Lifecycle, bool) {
    if l.draining then (l, false)
    else if max.None? then (l, true)
    else if l.accepted >= max.value then (l.(draining := true), false)
    else (l.(accepted := l.accepted + 1, draining := l.accepted + 1 >= max.value), true)
  }

  /** Why an assignment is refused, in the order the checks are made. */
  function RefusalOf(s: State, b: BuildId, cfg: Config): Option<Refusal> {
    if s.lifecycle.Some? && s.lifecycle.value.draining then Some(Draining)
    else if |s.running| >= cfg.maxJobs then Some(AtMaxJobs)
    else if b in s.running then Some(AlreadyRunning)
    else if s.lifecycle.Some? && !ReserveBuild(s.lifecycle.value, cfg.maxBuilds).1 then Some(AtMaxBuilds)
    else None
  }

  /** Insert the token, bump the counter, spawn a build task. */
  function Spawned(s: State, b: BuildId): State {
    var task := Task(s.conn, b, s.nextSerial);
    s.(running := s.running[b := task],
       jobCounter := (s.jobCounter + 1) % U32,
       live := s.live + {task},
       nextSerial := s.nextSerial + 1)
  }

  function AfterAssign(s: State, b: BuildId, now: nat, cfg: Config): State {
    var why := RefusalOf(s, b, cfg);
    if why.Some? && why.value != AtMaxBuilds then s
    else if s.lifecycle.None? then Spawned(s, b)
    else
      var l := ReserveBuild(s.lifecycle.value, cfg.maxBuilds).0;
      if why.Some? then s.(lifecycle := Some(l)) else Spawned(s, b).(lifecycle := Some(l.(lastActive := now)))
  }

  /** A finished build's epilogue. It removes its build id from its own connection's map, whoever holds it now. */
  function AfterComplete(s: State, t: Task, now: nat): State {
    if t !in s.live then s
    else s.(running := if t.conn == s.conn then s.running - {t.build} else s.running,
            jobCounter := (s.jobCounter + U32 - 1) % U32,
            lifecycle := if s.lifecycle.None? || t.conn != s.conn then s.lifecycle
                         else Some(s.lifecycle.value.(completed := s.lifecycle.value.completed + 1, lastActive := now)),
            live := s.live - {t})
  }

  function AfterAbort(s: State, b: BuildId): State {
    if b in s.running then s.(cancelled := s.cancelled + {s.running[b]}) else s
  }

  function AfterShutdown(s: State): State {
    s.(running := map[], shutDown := true, cancelled := s.cancelled + s.running.Values)
  }

  /** Which limit, if any, a tick of the exit monitor finds reached. */
  function LimitReached(s: State, now: nat, cfg: Config): Quit {
    if s.lifecycle.None? then Running
    else if cfg.maxLifetime.Some? && now >= s.lifecycle.value.started + cfg.maxLifetime.value then LifetimeReached
    else if s.jobCounter > 0 then Running
    else if cfg.maxBuilds.Some? && s.lifecycle.value.completed >= cfg.maxBuilds.value then BuildsReached
    else if now >= s.lifecycle.value.lastActive + cfg.maxIdle then IdleReached
    else Running
  }

  function AfterMonitor(s: State, now: nat, cfg: Config): State {
    var q := LimitReached(s, now, cfg);
    if s.quit != Running || q == Running then s
    else s.(quit := q, lifecycle := Some(s.lifecycle.value.(draining := true)))
  }

  /** A persistent agent reconnects with a fresh builder; its old tasks run on. */
  function AfterReconnect(s: State): State {
    if s.lifecycle.Some? then s else s.(conn := s.conn + 1, running := map[], shutDown := false)
  }

  function Step(s: State, a: Action, cfg: Config): State {
    match a
    case Assign(b, now) => AfterAssign(s, b, now, cfg)
    case Complete(t, now) => AfterComplete(s, t, now)
    case Abort(b) => AfterAbort(s, b)
    case Shutdown => AfterShutdown(s)
    case MonitorTick(now) => AfterMonitor(s, now, cfg)
    case Reconnect => AfterReconnect(s)
  }

  function Exec(s: State, run: seq<Action>, cfg: Config): State
    decreases run
  {
    if run == [] then s else Exec(Step(s, run[0], cfg), run[1..], cfg)
  }

  // ---- what every step keeps ----

  ghost predicate TasksInv(s: State, cfg: Config) {
    s.jobCounter == |s.live| % U32 && NamesInv(s, cfg)
  }

  /** The running map names this task. */
  ghost predicate Registered(s: State, t: Task) {
    t.build in s.running && s.running[t.build] == t
  }

  ghost predicate NamesInv(s: State, cfg: Config) {
    && |s.running| <= cfg.maxJobs
    && (forall b :: b in s.running ==> s.running[b] in s.live && s.running[b].build == b && s.running[b].conn == s.conn)
    && (forall t :: t in s.live ==> t.serial < s.nextSerial && t.conn <= s.conn)
    && (!s.shutDown ==> forall t :: t in s.live && t.conn == s.conn ==> Registered(s, t))
  }

  ghost predicate LifecycleInv(s: State, cfg: Config) {
    s.lifecycle.Some? ==>
      var l := s.lifecycle.value;
      && s.conn == 0
      && l.completed + |s.live| == s.nextSerial
      && (cfg.maxBuilds.Some? ==> l.accepted == s.nextSerial <= cfg.maxBuilds.value)
      && (s.quit != Running ==> l.draining)
  }

  ghost predicate Inv(s: State, cfg: Config) {
    TasksInv(s, cfg) && LifecycleInv(s, cfg) && (s.lifecycle.None? ==> s.quit == Running)
  }

  lemma SpawnKeepsNames(s: State, b: BuildId, cfg: Config)
    requires NamesInv(s, cfg) && b !in s.running && |s.running| < cfg.maxJobs
    ensures NamesInv(Spawned(s, b), cfg)
  {
    var t, task := Spawned(s, b), Task(s.conn, b, s.nextSerial);
    assert t.running.Keys == s.running.Keys + {b};
    forall u | u in t.live && u.conn == t.conn && !t.shutDown ensures Registered(t, u) {
      if u != task { assert Registered(s, u); }
    }
  }

  lemma SpawnKeepsTasks(s: State, b: BuildId, cfg: Config)
    requires TasksInv(s, cfg) && b !in s.running && |s.running| < cfg.maxJobs
    ensures TasksInv(Spawned(s, b), cfg)
    ensures |Spawned(s, b).live| == |s.live| + 1
  {
    SpawnCounts(s, b);
    SpawnKeepsNames(s, b, cfg);
  }

  lemma SpawnCounts(s: State, b: BuildId)
    requires s.jobCounter == |s.live| % U32 && forall t :: t in s.live ==> t.serial < s.nextSerial
    ensures |Spawned(s, b).live| == |s.live| + 1
    ensures Spawned(s, b).jobCounter == |Spawned(s, b).live| % U32
  {
    assert Task(s.conn, b, s.nextSerial) !in s.live;
    WrapUp(|s.live|);
  }

  lemma AssignKeeps(s: State, b: BuildId, now: nat, cfg: Config)
    requires Inv(s, cfg)
    ensures Inv(AfterAssign(s, b, now, cfg), cfg)
  {
    if RefusalOf(s, b, cfg).None? {
      SpawnKeepsTasks(s, b, cfg);
      AcceptedKeepsLifecycle(s, b, now, cfg);
    }
  }

  lemma AcceptedKeepsLifecycle(s: State, b: BuildId, now: nat, cfg: Config)
    requires LifecycleInv(s, cfg) && RefusalOf(s, b, cfg).None? && |Spawned(s, b).live| == |s.live| + 1
    ensures LifecycleInv(AfterAssign(s, b, now, cfg), cfg)
  {
  }

  lemma CompleteKeeps(s: State, task: Task, now: nat, cfg: Config)
    requires Inv(s, cfg)
    ensures Inv(AfterComplete(s, task, now), cfg)
  {
    if task in s.live {
      CompleteCounts(s, task, now);
      CompleteKeepsNames(s, task, now, cfg);
    }
  }

  lemma CompleteCounts(s: State, task: Task, now: nat)
    requires task in s.live && s.jobCounter == |s.live| % U32
    ensures var t := AfterComplete(s, task, now); |t.live| == |s.live| - 1 && t.jobCounter == |t.live| % U32
  {
    assert |s.live - {task}| == |s.live| - 1;
    WrapDown(|s.live|);
  }

  lemma CompleteKeepsNames(s: State, task: Task, now: nat, cfg: Config)
    requires NamesInv(s, cfg) && task in s.live
    ensures NamesInv(AfterComplete(s, task, now), cfg)
  {
    var t := AfterComplete(s, task, now);
    if task.conn == s.conn && task.build in s.running {
      assert t.running.Keys == s.running.Keys - {task.build};
    }
    forall u | u in t.live && u.conn == t.conn && !t.shutDown ensures Registered(t, u) {
      assert Registered(s, u);
      assert task.conn == s.conn ==> Registered(s, task);
    }
  }

  lemma StepKeeps(s: State, a: Action, cfg: Config)
    requires Inv(s, cfg)
    ensures Inv(Step(s, a, cfg), cfg)
  {
    match a
    case Assign(b, now) => AssignKeeps(s, b, now, cfg);
    case Complete(t, now) => CompleteKeeps(s, t, now, cfg);
    case _ =>
  }

  /** Every run of every session keeps the invariant. */
  lemma {:induction false} RunKeeps(s: State, run: seq<Action>, cfg: Config)
    requires Inv(s, cfg)
    ensures Inv(Exec(s, run, cfg), cfg)
    decreases run
  {
    if run == [] {
    } else {
      StepKeeps(s, run[0], cfg);
      RunKeeps(Step(s, run[0], cfg), run[1..], cfg);
    }
  }

  // ---- facts about whole runs ----

  ghost function Reached(ephemeral: bool, start: nat, run: seq<Action>, cfg: Config): State {
    Exec(Init(ephemeral, start), run, cfg)
  }

  lemma ReachedInv(ephemeral: bool, start: nat, run: seq<Action>, cfg: Config)
    ensures Inv(Reached(ephemeral, start, run, cfg), cfg)
  {
    RunKeeps(Init(ephemeral, start), run, cfg);
  }

  lemma CounterOf(s: State, cfg: Config, t: Task, now: nat)
    requires Inv(s, cfg)
    ensures s.jobCounter == |s.live| <==> |s.live| < U32
    ensures t in s.live && |s.live| < U32 ==>
              s.jobCounter > 0 && AfterComplete(s, t, now).jobCounter == s.jobCounter - 1
  {
    if t in s.live { CompleteCounts(s, t, now); }
  }

  /**
   The 32-bit counter is the number of live tasks exactly while that number fits, and then
   completing a live task never underflows it.
   */
  lemma CounterCountsLiveTasks(ephemeral: bool, start: nat, run: seq<Action>, cfg: Config, t: Task, now: nat)
    ensures var s := Reached(ephemeral, start, run, cfg);
            && (s.jobCounter == |s.live| <==> |s.live| < U32)
            && (t in s.live && |s.live| < U32 ==>
                  s.jobCounter > 0 && AfterComplete(s, t, now).jobCounter == s.jobCounter - 1)
  {
    ReachedInv(ephemeral, start, run, cfg);
    CounterOf(Reached(ephemeral, start, run, cfg), cfg, t, now);
  }

  /** The running map is bounded, names live tasks only, and without shutdown names them all. */
  lemma RunningMapIsSound(ephemeral: bool, start: nat, run: seq<Action>, cfg: Config)
    ensures var s := Reached(ephemeral, start, run, cfg);
            && |s.running| <= cfg.maxJobs
            && s.running.Values <= s.live
            && (!s.shutDown ==> s.running.Values == set t | t in s.live && t.conn == s.conn)
  {
    ReachedInv(ephemeral, start, run, cfg);
    var s := Reached(ephemeral, start, run, cfg);
    if !s.shutDown {
      forall t | t in s.live && t.conn == s.conn ensures t in s.running.Values {
        assert Registered(s, t);
      }
    }
  }

  /** The map may miss live tasks exactly from a shutdown until a persistent agent's next connection. */
  lemma ShutDownIff(s: State, a: Action, cfg: Config)
    ensures Step(s, a, cfg).shutDown <==> a == Shutdown || (s.shutDown && !(a == Reconnect && s.lifecycle.None?))
  {
  }

  lemma QuitFinds(s: State, now: nat, cfg: Config)
    requires Inv(s, cfg)
    ensures var q := LimitReached(s, now, cfg);
            && (q.BuildsReached? ==> s.live == {} && s.lifecycle.value.completed == cfg.maxBuilds.value)
            && (q.IdleReached? ==> (s.live == {} <==> |s.live| < U32))
  {
    var q := LimitReached(s, now, cfg);
    if q.BuildsReached? { assert |s.live| == 0; }
    if q.IdleReached? && |s.live| < U32 { assert |s.live| == 0; }
  }

  /**
   A session that stops on the build-count limit has completed exactly that many builds and
   has none live; one that stops idle has none live either, unless 2^32 of them fooled the counter.
   */
  lemma QuitOnlyWhenIdle(start: nat, run: seq<Action>, now: nat, cfg: Config)
    ensures var s := Reached(true, start, run, cfg);
            var q := LimitReached(s, now, cfg);
            && (q.BuildsReached? ==> s.live == {} && s.lifecycle.value.completed == cfg.maxBuilds.value)
            && (q.IdleReached? ==> (s.live == {} <==> |s.live| < U32))
  {
    ReachedInv(true, start, run, cfg);
    QuitFinds(Reached(true, start, run, cfg), now, cfg);
  }

  /** Once draining, an ephemeral session's live tasks only go away. */
  lemma {:induction false} DrainedTakesNoWork(s: State, run: seq<Action>, cfg: Config)
    requires s.lifecycle.Some? && s.lifecycle.value.draining
    ensures Exec(s, run, cfg).live <= s.live
    decreases run
  {
    if run == [] {
    } else {
      var t := Step(s, run[0], cfg);
      assert t.lifecycle.Some? && t.lifecycle.value.draining && t.live <= s.live;
      DrainedTakesNoWork(t, run[1..], cfg);
    }
  }

  /** After any quit, whatever happens next, the live count never increases. */
  lemma AfterQuitNoNewWork(start: nat, run: seq<Action>, more: seq<Action>, cfg: Config)
    requires Reached(true, start, run, cfg).quit != Running
    ensures Exec(Reached(true, start, run, cfg), more, cfg).live <= Reached(true, start, run, cfg).live
  {
    var s := Reached(true, start, run, cfg);
    ReachedInv(true, start, run, cfg);
    EphemeralStays(Init(true, start), run, cfg);
    DrainedTakesNoWork(s, more, cfg);
  }

  lemma {:induction false} EphemeralStays(s: State, run: seq<Action>, cfg: Config)
    requires s.lifecycle.Some?
    ensures Exec(s, run, cfg).lifecycle.Some?
    decreases run
  {
    if run == [] {
    } else {
      EphemeralStays(Step(s, run[0], cfg), run[1..], cfg);
    }
  }

  // ---- which assignments are taken ----

  /** Fewer live builds in the map than jobs, the id is free, and an ephemeral session may take one more. */
  predicate Takes(s: State, b: BuildId, cfg: Config) {
    && |s.running| < cfg.maxJobs && b !in s.running
    && (s.lifecycle.Some? ==>
          !s.lifecycle.value.draining && (cfg.maxBuilds.Some? ==> s.lifecycle.value.accepted < cfg.maxBuilds.value))
  }

  /** An assignment is taken exactly when the session is not draining and has room for this build. */
  lemma AcceptedIff(s: State, b: BuildId, now: nat, cfg: Config)
    requires Inv(s, cfg)
    ensures var t := AfterAssign(s, b, now, cfg);
            var task := Task(s.conn, b, s.nextSerial);
            && (t.live != s.live <==> Takes(s, b, cfg))
            && (Takes(s, b, cfg) ==> t.live == s.live + {task} && t.running == s.running[b := task] && task !in s.live)
            && (!Takes(s, b, cfg) ==> t.running == s.running && t.live == s.live)
  {
    var task := Task(s.conn, b, s.nextSerial);
    assert task !in s.live;
    if Takes(s, b, cfg) {
      TakenSpawns(s, b, now, cfg);
      assert task in s.live + {task};
    } else {
      NotTakenKeeps(s, b, now, cfg);
    }
  }

  lemma TakenSpawns(s: State, b: BuildId, now: nat, cfg: Config)
    requires Takes(s, b, cfg)
    ensures var t := AfterAssign(s, b, now, cfg); t.live == Spawned(s, b).live && t.running == Spawned(s, b).running
  {
  }

  lemma NotTakenKeeps(s: State, b: BuildId, now: nat, cfg: Config)
    requires !Takes(s, b, cfg)
    ensures var t := AfterAssign(s, b, now, cfg); t.live == s.live && t.running == s.running
  {
  }

  /** The answer names the first obstacle. */
  lemma RefusalIff(s: State, b: BuildId, cfg: Config)
    ensures var why := RefusalOf(s, b, cfg);
            var draining := s.lifecycle.Some? && s.lifecycle.value.draining;
            && (why == None <==> Takes(s, b, cfg))
            && (why == Some(Draining) <==> draining)
            && (why == Some(AtMaxJobs) <==> !draining && |s.running| >= cfg.maxJobs)
            && (why == Some(AlreadyRunning) <==> !draining && |s.running| < cfg.maxJobs && b in s.running)
  {
  }

  /** Taking the last build the cap allows starts the drain, and nothing earlier does. */
  lemma DrainsAtCapIff(s: State, b: BuildId, now: nat, cfg: Config)
    requires Inv(s, cfg) && s.lifecycle.Some? && Takes(s, b, cfg)
    ensures var l := AfterAssign(s, b, now, cfg).lifecycle.value;
            l.draining <==> cfg.maxBuilds.Some? && s.nextSerial + 1 == cfg.maxBuilds.value
  {
  }

  // ---- when an ephemeral session is idle ----

  /** A build is taken, or a live one completes. */
  ghost predicate Active(s: State, a: Action, cfg: Config) {
    (a.Assign? && Takes(s, a.build, cfg)) || (a.Complete? && a.task in s.live)
  }

  /** Time of the last activity of a run, or `last` without any. */
  ghost function LastActivity(s: State, run: seq<Action>, cfg: Config, last: nat): nat
    decreases run
  {
    if run == [] then last
    else LastActivity(Step(s, run[0], cfg), run[1..], cfg, if Active(s, run[0], cfg) then run[0].now else last)
  }

  lemma StepTracksActivity(s: State, a: Action, cfg: Config)
    requires Inv(s, cfg) && s.lifecycle.Some?
    ensures var t := Step(s, a, cfg);
            && t.lifecycle.Some? && t.lifecycle.value.started == s.lifecycle.value.started
            && t.lifecycle.value.lastActive == if Active(s, a, cfg) then a.now else s.lifecycle.value.lastActive
  {
  }

  lemma {:induction false} RunTracksActivity(s: State, run: seq<Action>, cfg: Config)
    requires Inv(s, cfg) && s.lifecycle.Some?
    ensures var t := Exec(s, run, cfg);
            && t.lifecycle.Some? && t.lifecycle.value.started == s.lifecycle.value.started
            && t.lifecycle.value.lastActive == LastActivity(s, run, cfg, s.lifecycle.value.lastActive)
    decreases run
  {
    if run == [] {
    } else {
      StepTracksActivity(s, run[0], cfg);
      StepKeeps(s, run[0], cfg);
      RunTracksActivity(Step(s, run[0], cfg), run[1..], cfg);
    }
  }

  /**
   Over every run of an ephemeral session, what the monitor finds: the lifetime is measured
   from the start, and the other limits apply only while nothing runs.
   */
  lemma QuitIff(start: nat, run: seq<Action>, now: nat, cfg: Config)
    ensures var s := Reached(true, start, run, cfg);
            var q := LimitReached(s, now, cfg);
            var aged := cfg.maxLifetime.Some? && now >= start + cfg.maxLifetime.value;
            var done := cfg.maxBuilds.Some? && s.lifecycle.Some? && s.lifecycle.value.completed >= cfg.maxBuilds.value;
            var last := LastActivity(Init(true, start), run, cfg, start);
            && (q == LifetimeReached <==> aged)
            && (q == BuildsReached <==> !aged && s.jobCounter == 0 && done)
            && (q == IdleReached <==> !aged && s.jobCounter == 0 && !done && now >= last + cfg.maxIdle)
  {
    RunTracksActivity(Init(true, start), run, cfg);
  }

  // ---- which builds are cancelled ----

  /** The step is an abort of this task's id, or a shutdown, and the map names this very task. */
  ghost predicate Cancels(s: State, a: Action, t: Task) {
    Registered(s, t) && (a == Abort(t.build) || a == Shutdown)
  }

  ghost predicate EverCancels(s: State, run: seq<Action>, cfg: Config, t: Task)
    decreases run
  {
    run != [] && (Cancels(s, run[0], t) || EverCancels(Step(s, run[0], cfg), run[1..], cfg, t))
  }

  lemma StepCancelsIff(s: State, a: Action, cfg: Config, t: Task)
    requires Inv(s, cfg)
    ensures t in Step(s, a, cfg).cancelled <==> t in s.cancelled || Cancels(s, a, t)
  {
    if a.Shutdown? { assert t in s.running.Values <==> Registered(s, t) by { ValuesAreRegistered(s, cfg, t); } }
  }

  lemma ValuesAreRegistered(s: State, cfg: Config, t: Task)
    requires Inv(s, cfg)
    ensures t in s.running.Values <==> Registered(s, t)
  {
    if t in s.running.Values {
      var b :| b in s.running && s.running[b] == t;
    }
  }

  lemma {:induction false} CancelledFrom(s: State, run: seq<Action>, cfg: Config, t: Task)
    requires Inv(s, cfg)
    ensures t in Exec(s, run, cfg).cancelled <==> t in s.cancelled || EverCancels(s, run, cfg, t)
    decreases run
  {
    if run == [] {
    } else {
      StepKeeps(s, run[0], cfg);
      StepCancelsIff(s, run[0], cfg, t);
      CancelledFrom(Step(s, run[0], cfg), run[1..], cfg, t);
    }
  }

  /** Over every run, a task is cancelled exactly when it was aborted by its own id, or shut down, while the map named it. */
  lemma CancelledIff(ephemeral: bool, start: nat, run: seq<Action>, cfg: Config, t: Task)
    ensures t in Reached(ephemeral, start, run, cfg).cancelled <==> EverCancels(Init(ephemeral, start), run, cfg, t)
  {
    CancelledFrom(Init(ephemeral, start), run, cfg, t);
  }

  // ---- which builds can still be aborted ----

  /** Every live task can be aborted by its id or has been cancelled already. */
  ghost predicate AllAbortable(s: State) {
    forall t :: t in s.live ==> Abortable(s, t)
  }

  ghost predicate Abortable(s: State, t: Task) {
    Registered(s, t) || t in s.cancelled
  }

  /** Exactly then does an abort by id reach a live build. */
  lemma AbortReachesIff(s: State, t: Task)
    requires t !in s.cancelled
    ensures t in AfterAbort(s, t.build).cancelled <==> Registered(s, t)
  {
  }

  /** A task completes while the map's entry under its build id belongs to a newer, uncancelled task. */
  ghost predicate CompletesOverNewer(s: State, a: Action) {
    && a.Complete? && a.task in s.live && a.task.conn == s.conn && a.task.build in s.running
    && s.running[a.task.build] != a.task && s.running[a.task.build] !in s.cancelled
  }

  /** A persistent agent reconnects, with an empty map, while a build is live and uncancelled. */
  ghost predicate ReconnectsOverLive(s: State, a: Action) {
    a.Reconnect? && s.lifecycle.None? && exists t :: t in s.live && t !in s.cancelled
  }

  ghost predicate Orphans(s: State, a: Action) {
    CompletesOverNewer(s, a) || ReconnectsOverLive(s, a)
  }

  /** Exactly these two steps make a live build impossible to abort. */
  lemma StaysAbortableIff(s: State, a: Action, cfg: Config)
    requires Inv(s, cfg) && AllAbortable(s)
    ensures AllAbortable(Step(s, a, cfg)) <==> !Orphans(s, a)
  {
    match a
    case Assign(b, now) => if RefusalOf(s, b, cfg).None? { SpawnStaysAbortable(s, b, cfg); }
    case Complete(task, now) => if task in s.live { CompleteStaysAbortableIff(s, task, now, cfg); }
    case Shutdown => ShutdownStaysAbortable(s);
    case Reconnect => ReconnectStaysAbortableIff(s);
    case Abort(b) => assert forall t :: Abortable(s, t) ==> Abortable(AfterAbort(s, b), t);
    case MonitorTick(now) => assert forall t :: Abortable(s, t) ==> Abortable(AfterMonitor(s, now, cfg), t);
  }

  lemma SpawnStaysAbortable(s: State, b: BuildId, cfg: Config)
    requires Inv(s, cfg) && AllAbortable(s) && b !in s.running
    ensures AllAbortable(Spawned(s, b))
  {
    var t, task := Spawned(s, b), Task(s.conn, b, s.nextSerial);
    forall u | u in t.live ensures Abortable(t, u) {
      if u != task { assert Abortable(s, u); }
    }
  }

  lemma CompleteStaysAbortableIff(s: State, task: Task, now: nat, cfg: Config)
    requires Inv(s, cfg) && AllAbortable(s) && task in s.live
    ensures AllAbortable(AfterComplete(s, task, now)) <==> !CompletesOverNewer(s, Complete(task, now))
  {
    var t := AfterComplete(s, task, now);
    if CompletesOverNewer(s, Complete(task, now)) {
      var newer := s.running[task.build];
      assert newer in t.live && !Abortable(t, newer);
    } else {
      forall u | u in t.live ensures Abortable(t, u) {
        assert Abortable(s, u);
      }
    }
  }

  lemma ShutdownStaysAbortable(s: State)
    requires AllAbortable(s)
    ensures AllAbortable(AfterShutdown(s))
  {
    var t := AfterShutdown(s);
    forall u | u in t.live ensures Abortable(t, u) {
      assert Abortable(s, u);
      assert Registered(s, u) ==> u in s.running.Values;
    }
  }

  lemma ReconnectStaysAbortableIff(s: State)
    requires AllAbortable(s)
    ensures AllAbortable(AfterReconnect(s)) <==> !ReconnectsOverLive(s, Reconnect)
  {
    var t := AfterReconnect(s);
    if s.lifecycle.None? {
      assert forall u :: Abortable(t, u) <==> u in s.cancelled;
    } else {
      assert t == s;
    }
  }

  /** Every state along the run, its end included, keeps all live builds abortable. */
  ghost predicate AlwaysAbortable(s: State, run: seq<Action>, cfg: Config)
    decreases run
  {
    AllAbortable(s) && (run == [] || AlwaysAbortable(Step(s, run[0], cfg), run[1..], cfg))
  }

  ghost predicate NeverOrphans(s: State, run: seq<Action>, cfg: Config)
    decreases run
  {
    run == [] || (!Orphans(s, run[0]) && NeverOrphans(Step(s, run[0], cfg), run[1..], cfg))
  }

  lemma {:induction false} AlwaysAbortableFrom(s: State, run: seq<Action>, cfg: Config)
    requires Inv(s, cfg) && AllAbortable(s)
    ensures AlwaysAbortable(s, run, cfg) <==> NeverOrphans(s, run, cfg)
    decreases run
  {
    if run == [] {
    } else {
      var t := Step(s, run[0], cfg);
      StepKeeps(s, run[0], cfg);
      StaysAbortableIff(s, run[0], cfg);
      if AllAbortable(t) {
        AlwaysAbortableFrom(t, run[1..], cfg);
      } else {
        assert !AlwaysAbortable(t, run[1..], cfg);
      }
    }
  }

  /** Over every run of every agent: each live build stays abortable exactly as long as no step orphans one. */
  lemma AlwaysAbortableIff(ephemeral: bool, start: nat, run: seq<Action>, cfg: Config)
    ensures AlwaysAbortable(Init(ephemeral, start), run, cfg) <==> NeverOrphans(Init(ephemeral, start), run, cfg)
  {
    AlwaysAbortableFrom(Init(ephemeral, start), run, cfg);
  }

  lemma {:induction false} ExecOneMore(s: State, run: seq<Action>, a: Action, cfg: Config)
    ensures Exec(s, run + [a], cfg) == Step(Exec(s, run, cfg), a, cfg)
    decreases run
  {
    if run == [] {
      assert [a][1..] == [] && [] + [a] == [a];
    } else {
      ExecOneMore(Step(s, run[0], cfg), run[1..], a, cfg);
      assert (run + [a])[1..] == run[1..] + [a];
    }
  }

  /** Assign build 7, shut down, assign build 7 again. */
  ghost function Reassigned(cfg: Config): State {
    AfterAssign(AfterShutdown(AfterAssign(Init(false, 0), 7, 0, cfg)), 7, 0, cfg)
  }

  lemma ReassignedHolds(cfg: Config)
    requires cfg == Config(1, None, None, 0)
    ensures var s := Reassigned(cfg);
            && s.conn == 0 && s.running == map[7 := Task(0, 7, 1)]
            && s.live == {Task(0, 7, 0), Task(0, 7, 1)} && s.cancelled == {Task(0, 7, 0)}
  {
    var s := AfterAssign(Init(false, 0), 7, 0, cfg);
    assert s.running == map[7 := Task(0, 7, 0)];
    assert s.running.Values == {Task(0, 7, 0)};
  }

  lemma ReassignedRuns(cfg: Config, task: Task) returns (run: seq<Action>)
    ensures Reached(false, 0, run, cfg) == AfterComplete(Reassigned(cfg), task, 0)
  {
    var s, assign := Init(false, 0), [Assign(7, 0)];
    ExecOneMore(s, [], Assign(7, 0), cfg);
    assert [] + assign == assign;
    ExecOneMore(s, assign, Shutdown, cfg);
    ExecOneMore(s, assign + [Shutdown], Assign(7, 0), cfg);
    run := assign + [Shutdown] + assign + [Complete(task, 0)];
    ExecOneMore(s, assign + [Shutdown] + assign, Complete(task, 0), cfg);
  }

  /** It happens: shut down, reassign the same id, and let the first attempt finish first. */
  lemma OrphanedBuild() returns (run: seq<Action>, cfg: Config)
    ensures !AllAbortable(Reached(false, 0, run, cfg))
  {
    cfg := Config(1, None, None, 0);
    ReassignedHolds(cfg);
    var first, second := Task(0, 7, 0), Task(0, 7, 1);
    var s := AfterComplete(Reassigned(cfg), first, 0);
    assert second in s.live && !Abortable(s, second);
    run := ReassignedRuns(cfg, first);
  }

  /** It also happens by reconnecting: the old build runs on, and an abort of its id changes nothing. */
  lemma OrphanedByReconnect(b: BuildId, cfg: Config) returns (run: seq<Action>)
    requires cfg.maxJobs > 0
    ensures var s := Reached(false, 0, run, cfg);
            && s.live == {Task(0, b, 0)} && s.cancelled == {} && !AllAbortable(s)
            && AfterAbort(s, b) == s
  {
    var init, s := Init(false, 0), AfterAssign(Init(false, 0), b, 0, cfg);
    assert s.live == {Task(0, b, 0)};
    ExecOneMore(init, [], Assign(b, 0), cfg);
    assert [] + [Assign(b, 0)] == [Assign(b, 0)];
    run := [Assign(b, 0)] + [Reconnect];
    ExecOneMore(init, [Assign(b, 0)], Reconnect, cfg);
    assert !Abortable(AfterReconnect(s), Task(0, b, 0));
  }

  // ---- the handlers ----

  /** The builder capability and the counters its handlers share. */
  class Builder {
    const cfg: Config
    var conn: nat
    var running: map<BuildId, Task>
    var jobCounter: nat
    var lifecycle: Option<Lifecycle>
    var quit: Quit
    ghost var shutDown: bool
    /** The spawned tasks that have not finished, of all connections. */
    var live: set<Task>
    ghost var cancelled: set<Task>
    var nextSerial: nat

    ghost function View(): State
      reads this
    {
      State(conn, running, shutDown, jobCounter, lifecycle, quit, live, cancelled, nextSerial)
    }

    constructor (cfg: Config, ephemeral: bool, now: nat)
      ensures this.cfg == cfg && View() == Init(ephemeral, now)
    {
      this.cfg := cfg;
      conn, running, jobCounter, quit, nextSerial := 0, map[], 0, Running, 0;
      lifecycle := if ephemeral then Some(Lifecycle(0, 0, false, now, now)) else None;
      shutDown, live, cancelled := false, {}, {};
    }

    /** Reserve one build against the cap, draining at the cap. */
    method Reserve() returns (ok: bool)
      requires lifecycle.Some?
      modifies this`lifecycle
      ensures lifecycle == Some(ReserveBuild(old(lifecycle.value), cfg.maxBuilds).0)
      ensures ok == ReserveBuild(old(lifecycle.value), cfg.maxBuilds).1
    {
      var l := lifecycle.value;
      if l.draining { return false; }
      if cfg.maxBuilds.None? { return true; }
      var prev := l.accepted;
      l := l.(accepted := prev + 1);
      if prev >= cfg.maxBuilds.value {
        l := l.(accepted := l.accepted - 1, draining := true);
        lifecycle := Some(l);
        return false;
      }
      if prev + 1 >= cfg.maxBuilds.value {
        l := l.(draining := true);
      }
      lifecycle := Some(l);
      ok := true;
    }

    method AssignBuild(b: BuildId, now: nat) returns (refused: Option<Refusal>)
      modifies this
      ensures View() == AfterAssign(old(View()), b, now, cfg)
      ensures refused == RefusalOf(old(View()), b, cfg)
    {
      if lifecycle.Some? && lifecycle.value.draining { return Some(Draining); }
      if |running| >= cfg.maxJobs { return Some(AtMaxJobs); }
      if b in running { return Some(AlreadyRunning); }
      if lifecycle.Some? {
        var ok := Reserve();
        if !ok { return Some(AtMaxBuilds); }
      }
      running := running[b := Task(conn, b, nextSerial)];
      jobCounter := (jobCounter + 1) % U32;
      if lifecycle.Some? {
        lifecycle := Some(lifecycle.value.(lastActive := now));
      }
      live := live + {Task(conn, b, nextSerial)};
      nextSerial := nextSerial + 1;
      refused := None;
    }

    /** The epilogue of a spawned build task of any connection. */
    method FinishTask(t: Task, now: nat)
      requires t in live
      modifies this
      ensures View() == AfterComplete(old(View()), t, now)
    {
      jobCounter := (jobCounter + U32 - 1) % U32;
      live := live - {t};
      if t.conn == conn {
        running := running - {t.build};
        if lifecycle.Some? {
          lifecycle := Some(lifecycle.value.(completed := lifecycle.value.completed + 1, lastActive := now));
        }
      }
    }

    method AbortBuild(b: BuildId)
      modifies this`cancelled
      ensures View() == AfterAbort(old(View()), b)
      ensures forall t :: t in cancelled && t !in old(cancelled) ==> b in running && t == running[b]
      ensures Inv(old(View()), cfg) ==> forall t :: t in cancelled && t !in old(cancelled) ==> t.build == b
    {
      if b in running {
        cancelled := cancelled + {running[b]};
      }
    }

    method ShutdownAll()
      modifies this
      ensures View() == AfterShutdown(old(View()))
    {
      cancelled := cancelled + running.Values;
      running := map[];
      shutDown := true;
    }

    /** One tick of the exit monitor. */
    method Monitor(now: nat)
      requires lifecycle.Some? && quit == Running
      modifies this
      ensures View() == AfterMonitor(old(View()), now, cfg)
      ensures quit != Running <==> LimitReached(old(View()), now, cfg) != Running
    {
      if cfg.maxLifetime.Some? && now >= lifecycle.value.started + cfg.maxLifetime.value {
        quit := LifetimeReached;
      } else if jobCounter > 0 {
        return;
      } else if cfg.maxBuilds.Some? && lifecycle.value.completed >= cfg.maxBuilds.value {
        quit := BuildsReached;
      } else if now >= lifecycle.value.lastActive + cfg.maxIdle {
        quit := IdleReached;
      } else {
        return;
      }
      lifecycle := Some(lifecycle.value.(draining := true));
    }

    /** A persistent agent connects again and starts with an empty map. */
    method Reconnect()
      modifies this
      ensures View() == AfterReconnect(old(View()))
    {
      if lifecycle.None? {
        conn, running, shutDown := conn + 1, map[], false;
      }
    }

    /** One thing that happens to the agent; only live tasks complete, and a monitor that has quit is gone. */
    method Handle(a: Action)
      modifies this
      ensures View() == Step(old(View()), a, cfg)
    {
      match a
      case Assign(b, now) => var _ := AssignBuild(b, now);
      case Complete(t, now) => if t in live { FinishTask(t, now); }
      case Abort(b) => AbortBuild(b);
      case Shutdown => ShutdownAll();
      case MonitorTick(now) => if lifecycle.Some? && quit == Running { Monitor(now); }
      case Reconnect => Reconnect();
    }
  }

  /** An agent's whole life: its handlers in any order, from the start. */
  method Serve(cfg: Config, ephemeral: bool, start: nat, run: seq<Action>)
      returns (running: map<BuildId, Task>, live: set<Task>, jobCounter: nat, quit: Quit)
    ensures var s := Reached(ephemeral, start, run, cfg);
            (running, live, jobCounter, quit) == (s.running, s.live, s.jobCounter, s.quit)
    ensures |running| <= cfg.maxJobs && running.Values <= live
    ensures jobCounter == |live| <==> |live| < U32
    ensures forall t :: t in Reached(ephemeral, start, run, cfg).cancelled <==> EverCancels(Init(ephemeral, start), run, cfg, t)
    ensures NeverOrphans(Init(ephemeral, start), run, cfg) ==> AllAbortable(Reached(ephemeral, start, run, cfg))
  {
    var b := new Builder(cfg, ephemeral, start);
    for i := 0 to |run|
      invariant b.cfg == cfg && Exec(b.View(), run[i..], cfg) == Reached(ephemeral, start, run, cfg)
    {
      b.Handle(run[i]);
      assert run[i..][1..] == run[i + 1..];
    }
    running, live, jobCounter, quit := b.running, b.live, b.jobCounter, b.quit;
    RunningMapIsSound(ephemeral, start, run, cfg);
    CounterCountsLiveTasks(ephemeral, start, run, cfg, Task(0, 0, 0), 0);
    AlwaysAbortableIff(ephemeral, start, run, cfg);
    AbortableAtEnd(Init(ephemeral, start), run, cfg);
    forall t ensures t in Reached(ephemeral, start, run, cfg).cancelled <==> EverCancels(Init(ephemeral, start), run, cfg, t) {
      CancelledIff(ephemeral, start, run, cfg, t);
    }
  }

  lemma {:induction false} AbortableAtEnd(s: State, run: seq<Action>, cfg: Config)
    ensures AlwaysAbortable(s, run, cfg) ==> AllAbortable(Exec(s, run, cfg))
    decreases run
  {
    if run == [] {
    } else {
      AbortableAtEnd(Step(s, run[0], cfg), run[1..], cfg);
    }
  }
}
