# Circus, verified models

Circus is a distributed Nix CI: a server evaluates jobsets into builds, a queue runner hands
builds to agents, and agents run them under supervision. This project models the state machines
and algorithms underneath that, in Dafny, and proves what holds over every run, graph, string or
byte array. `dafny verify dfyconfig.toml` checks all of it.

| file | what it models |
|---|---|
| `Supervisor.dfy`, `SupervisorLoop.dfy`, `Verdicts.dfy`, `LogLines.dfy` | the agent's event loop around one build: child exit, log lines, silence, deadline, cancellation and sink failure racing each other; log batching; the verdict |
| `Session.dfy`, `Reservation.dfy` | the agent's session with the runner: assignment, completion, abort, shutdown, reconnection, the exit monitor; `reserve_build` at single atomic operations |
| `Matching.dfy`, `Autoscaler.dfy` | the GitHub Actions autoscaler: greedy matching of builds to slots, launches in flight, cooldown |
| `Dispatch.dfy`, `SlotCounter.dfy` | choosing and reserving an agent; the compare-and-swap slot counter |
| `Expansion.dfy`, `Dependencies.dfy`, `Evaluation.dfy` | the evaluator: graph expansion, dependency edges, the claim protocol on an evaluation row |
| `Base32.dfy`, `Bits.dfy` | Nix base32 at bit level |
| `Glob.dfy`, `GlobUtf8.dfy` | ref patterns on bytes, and when that means characters |
| `Toml.dfy`, `EnvOverlay.dfy`, `Redaction.dfy` | configuration merge, environment overlay, secret redaction |
| `Handshake.dfy` | the sandbox's two-pipe handshake |
| `Orders.dfy`, `Counting.dfy`, `Options.dfy` | sorting, total orders, 32-bit counters, `Option` |

Concurrent code is a transition system: a state, an action per atomic step, and `Exec` over a
sequence of actions chosen by an adversary. Sequential code that updates things in place is a
class or a method with loops, proved equal to the specification function that the run-wide
lemmas are about.

## Findings

Properties that the code meets only under a condition are stated with that condition, both ways.

- A live build can become impossible to abort, in exactly two ways. After `shutdown` empties the
  running map, a reassigned build id is removed from the map when the first task with that id
  finishes. And a persistent agent that reconnects starts with an empty map while its builds run
  on (`Session.AlwaysAbortableIff`, `Session.OrphanedBuild`, `Session.OrphanedByReconnect`).
- A completed evaluation can lose its builds. A worker that counted zero builds re-claims the row
  after another has committed some; its own commit then conflicts with the unique job names, the
  row ends failed, and the restart deletes the good builds
  (`Evaluation.StaysCompletedIff`, `Evaluation.StaleReclaimLosesBuilds`). No job name is ever attached twice; a second set of
  builds appears only if the stale worker found entirely different jobs (`Evaluation.SecondSetIff`).
- A running evaluation can be left without a worker. A polling worker only logs its errors, so
  exactly when it is the row's only worker and its evaluation fails or its commit conflicts, the
  row stays running until it is swept or cancelled or a worker acts on an outdated view
  (`Evaluation.AlwaysOwnedIff`, `Evaluation.AlwaysAbandonedIff`, `Evaluation.AbandonedByError`,
  `Evaluation.AbandonedByConflict`).
- Redaction shows a database URL that is an item of an array
  (`Redaction.RedactSafeIff`, `Redaction.UrlInArraySurvives`).
- A cancelled evaluation can be revived by a worker acting on an older snapshot, because
  `restart` accepts cancelled rows and two status updates are unconditional
  (`Evaluation.StaysCancelledIff`, `Evaluation.StaleClaimRevivesCancelled`).
- A child killed for silence is still a success if it exits with 0; no other kill is
  (`Supervisor.KilledSucceedsIffSilenced`).
- `reserve_build` keeps its cap exactly as long as there are too few callers to wrap the 32-bit
  counter past it (`Reservation.CapHoldsIff`).
- Configuration merge is not associative where a table is hidden by a non-table and shows
  through again (`Toml.MergeAssociativeIff`).
- Base32 decoding drops the four bits above the 256th, so encoding inverts it only on strings
  that start with 0 or 1 (`Base32.EncodeInvertsDecodeIff`).
- Aggregates can deadlock each other (`Dependencies.ConstituentsCanDeadlock`), and a build above a
  failed one is never scheduled; without cycles nothing else keeps unfinished builds from running
  (`Dependencies.StalledIff`).
- Environment overlays commute for any two different paths, not only when neither path is a
  prefix of the other, because parsed values are never tables (`EnvOverlay.WritesCommute`).

- The order of environment variables matters exactly where two of them give one writable path
  two values, as keys that differ only in case do (`EnvOverlay.OneByOneCommuteIff`,
  `EnvOverlay.CaseDecidesOrder`).
- `?` in a ref pattern matches one byte, while its comment says one character. Patterns without
  `?` match characters all the same, and a value is matched as the comment says under every
  pattern exactly when its characters are one byte each (`GlobUtf8.QuestionMarkIsAByte`,
  `GlobUtf8.NoQuestionAgrees`, `GlobUtf8.AgreesUnderAllPatternsIff`).

Where code and documentation disagree, the model follows the code.

## Model

| member | source | states |
|---|---|---|
| `Supervisor.RecordedExitDecides` | crates/agent/src/build.rs:245-666 | over every run: once an exit is recorded without a kill, no later cancel, deadline, overflow, read error or sink failure changes outcome or exit code; both are functions of that status |
| `Supervisor.ExitRecordedOnce` | crates/agent/src/build.rs:245-259 | over every run: exit status and drain deadline are recorded together and never change afterwards |
| `Supervisor.VerdictIsConsistent` | crates/agent/src/build.rs:580-666 | over every run: never timed out and aborted at once, a killed child is never OomKilled, Aborted and TimedOut are reported exactly when flagged, with their own messages, and a truncated log implies a recorded exit |
| `Supervisor.KilledSucceedsIffSilenced` | crates/agent/src/build.rs:385-398 | over every run: a child the loop killed is Success if and only if silence was the only reason and it still exits with 0 |
| `Supervisor.SilencedChildCanSucceed` | crates/agent/src/build.rs:644-666 | a run in which that happens |
| `Supervisor.RunKeepsFlags` | crates/agent/src/build.rs:339-578 | every run keeps the relations between the ten flags |
| `Supervisor.RunKeepsVerdict` | crates/agent/src/build.rs:352-578 | after a recorded exit every run keeps all verdict flags and never ends in an I/O error |
| `Supervisor.LogIsFaithful` | crates/agent/src/build.rs:445-542 | over every run: accepted lines are a prefix of received lines; acknowledged chunks are those of a prefix of the batches and read back as exactly their non-empty lines in order; their bytes stay within max_log_size |
| `Supervisor.ChunksFitTheWire` | crates/agent/src/build.rs:445-493 | over every run in which no line exceeds 768 KiB, every acknowledged chunk fits the 1 MiB limit of crates/proto/src/lib.rs |
| `Verdicts.ReapedExitDecides` | crates/agent/src/build.rs:580-666 | over every run that leaves the loop without a kill and without an exit: the exit waited for decides, Success for 0, OomKilled for signal 9, BuildFailure otherwise, with its code or -1 |
| `Verdicts.FoundExitDecides` | crates/agent/src/build.rs:377-442 | over every run without a kill so far: an exit that is announced, or found by a silence, deadline or cancellation it races, is the verdict, whatever follows |
| `Verdicts.FoundExitKeepsLog` | crates/agent/src/build.rs:377-442 | such an exit leaves the log running, and only a cancellation ends it |
| `Verdicts.ExitRecordedAsReported` | crates/agent/src/build.rs:245-259 | whichever event records an exit records the status it reports, and a drain period of the configured length from that moment |
| `Verdicts.CancelDecides` | crates/agent/src/build.rs:420-435 | over every run: cancelled while the child runs means Aborted, with its message and the reaped code, whatever else happens, unless waiting for the killed child fails |
| `Verdicts.DeadlineDecides` | crates/agent/src/build.rs:399-419 | over every run: the deadline passing while the child runs means TimedOut, whatever else happens, unless waiting for the killed child fails |
| `Verdicts.LateCheckDecides` | crates/agent/src/build.rs:548-577 | so it does when the check after an acknowledged batch without a read error finds it passed |
| `Verdicts.TimelyCheckGoesOn` | crates/agent/src/build.rs:548-577 | before the exit, a check in time changes nothing, and one that finds a fresh exit starts the drain instead |
| `Verdicts.SilenceDecides` | crates/agent/src/build.rs:385-398 | over every run: silence while the child runs kills it, and then the build is a Success exactly when the killed child still exits with 0 and its log is intact |
| `Verdicts.LostLogFails` | crates/agent/src/build.rs:647-653 | over every run: once the log went over its limit, or the sink failed, before the exit, the build is never a Success |
| `Verdicts.LostWriteFails` | crates/agent/src/build.rs:527-541 | over every run: a failed write of a non-empty batch kills a live child, and the build is no Success |
| `Verdicts.LostWriteAfterExit` | crates/agent/src/build.rs:510-541 | a lost write after the exit, or one that finds it, truncates the log and kills nobody |
| `Verdicts.CancelledWriteAborts` | crates/agent/src/build.rs:510-525 | a cancellation during a write ends the build just as one between events does |
| `Verdicts.EndlessChildTimesOut` | crates/agent/src/build.rs:589-611 | over every run that leaves the loop without a kill and without an exit: the build deadline bounds the wait, and there is no verdict exactly when waiting fails |
| `Verdicts.FailedWaitDecides` | crates/agent/src/build.rs:377-384 | over every run: when the wait for a running child fails in the loop there is no verdict |
| `Verdicts.DrainEnds` | crates/agent/src/build.rs:399-435 | over every run: after the exit, the drain deadline or a cancellation truncates the log and changes nothing else |
| `Verdicts.LogEndLeaves` | crates/agent/src/build.rs:436-440 | over every run: the end of the log leaves the loop, and a read error becomes the message |
| `Verdicts.ReadErrorLeaves` | crates/agent/src/build.rs:544-547 | a read error met in a batch leaves the loop once the batch is written, with the error as the message |
| `Verdicts.BatchReportsFirstError` | crates/agent/src/build.rs:485-492 | the error a batch reports is the first in the queue, after nothing but lines |
| `Verdicts.UnsetTimersDoNothing` | crates/agent/src/build.rs:353-374 | silence is not watched after the exit or when unset, nor a deadline that is unset, nor a second exit |
| `Verdicts.DrainCheckIff` | crates/agent/src/build.rs:548-577 | after the exit, the check ends the log if and only if the drain period is over |
| `Verdicts.LimitIsExact` | crates/agent/src/build.rs:459-478 | over every run stopped for the size of its log, with a limit below 2^64-1: exactly the longest part of the lines within the limit was accepted |
| `Verdicts.OverflowKills` | crates/agent/src/build.rs:459-466 | before the exit, a line over a limit below 2^64-1 is dropped and the build killed with its message |
| `Verdicts.OverflowAfterExitTruncates` | crates/agent/src/build.rs:467-469 | after the exit it is dropped and the log truncated, without a kill |
| `Verdicts.BatchTakesWhatItCan` | crates/agent/src/build.rs:449-493 | a batch takes everything queued unless it reaches 256 KiB or 4096 lines or meets a read error |
| `Verdicts.BatchHoldsFewLines` | crates/agent/src/build.rs:480-484 | a batch never holds more than 4096 lines |
| `LogLines.ChunkReadsBack` | crates/agent/src/build.rs:471-477 | splitting a chunk at line breaks gives back exactly the non-empty lines of its batch |
| `LogLines.ChunkIsJoined` | crates/agent/src/build.rs:471-477 | a chunk is its lines with one line break between neighbours, empty lines at the front leaving no trace |
| `LogLines.ChunksReadBack` | crates/agent/src/build.rs:471-495 | the same for a sequence of batches, empty ones not being sent |
| `LogLines.ChunksWithinCost` | crates/agent/src/build.rs:459-476 | what is written never exceeds what was counted against the limit |
| `SupervisorLoop.RunCommand.ObserveExit` | crates/agent/src/build.rs:245-259 | records an exit and its drain deadline if none is recorded; the answer says whether one is |
| `SupervisorLoop.RunCommand.Cancel` | crates/agent/src/build.rs:420-435 | cancellation truncates the log of a finished build and aborts a live one |
| `SupervisorLoop.RunCommand.Expire` | crates/agent/src/build.rs:410-419 | an expired deadline kills a live child and truncates the log of a finished one |
| `SupervisorLoop.RunCommand.HandleDeadline` | crates/agent/src/build.rs:399-419 | a deadline that races an exit yields to it |
| `SupervisorLoop.RunCommand.TakeInto` | crates/agent/src/build.rs:449-478 | one line is counted and appended, dropped, or ends logging; the buffer stays the chunk of the accepted lines |
| `SupervisorLoop.RunCommand.Collect` | crates/agent/src/build.rs:445-493 | the inner loop fills the buffer with exactly the batch that was available |
| `SupervisorLoop.RunCommand.FailWrite` | crates/agent/src/build.rs:510-541 | a lost write aborts, truncates or marks the sink failed, looking for an exit first |
| `SupervisorLoop.RunCommand.Send` | crates/agent/src/build.rs:495-542 | an acknowledged batch is appended to what the sink holds; any other is recorded as lost |
| `SupervisorLoop.RunCommand.CheckTime` | crates/agent/src/build.rs:548-577 | the check at the end of an iteration, with its three clock readings |
| `SupervisorLoop.RunCommand.Handle` | crates/agent/src/build.rs:352-578 | one iteration is one step of the transition system |
| `SupervisorLoop.RunCommand.Run` | crates/agent/src/build.rs:352-578 | the loop is the run of its events |
| `SupervisorLoop.RunCommand.Finish` | crates/agent/src/build.rs:580-666 | waiting for an unrecorded exit and deriving outcome, exit code and error gives the verdict the run-wide lemmas pin down |
| `SupervisorLoop.Supervise` | crates/agent/src/build.rs:330-666 | a whole run: the verdict is that of an exit recorded unharmed at any point, or of the exit waited for after the log ended, spelled out in the status; and the sink's bytes respect the limit |
| `Session.RunKeeps` | crates/agent/src/session.rs:602-813 | every run of assign, completion, abort, shutdown, monitor and reconnection keeps the session invariant |
| `Session.CounterCountsLiveTasks` | crates/agent/src/session.rs:631-761 | over every run: the job counter is the number of live tasks exactly while that fits 32 bits, and completing then never underflows |
| `Session.RunningMapIsSound` | crates/agent/src/session.rs:602-634 | over every run: at most max_jobs keys, all naming live tasks, and without shutdown naming every live task of the connection |
| `Session.QuitOnlyWhenIdle` | crates/agent/src/session.rs:440-489 | over every run: a build-count exit has exactly max_builds completed and none live; an idle exit has none live |
| `Session.DrainedTakesNoWork` | crates/agent/src/session.rs:602-634 | once draining, whatever happens, live tasks only go away |
| `Session.AfterQuitNoNewWork` | crates/agent/src/session.rs:169-189 | after any quit, whatever happens, live tasks only go away |
| `Session.StaysAbortableIff` | crates/agent/src/session.rs:757-813 | a step leaves every live task of the process abortable or cancelled if and only if it is neither a completion over a newer task of the same id nor a reconnection over a live, uncancelled task |
| `Session.AlwaysAbortableIff` | crates/agent/src/session.rs:602-813 | over every run of every agent: all live tasks are abortable at every point if and only if no step of the run is one of those two |
| `Session.AbortReachesIff` | crates/agent/src/session.rs:771-791 | an abort of its id reaches an uncancelled task if and only if the map names that very task |
| `Session.CancelledIff` | crates/agent/src/session.rs:771-813 | over every run: a task is cancelled if and only if it was aborted by its own id, or shut down, while the map named that very task |
| `Session.ShutDownIff` | crates/agent/src/session.rs:793-813 | a session is shut down by the runner and stays so, until a persistent agent connects again |
| `Session.AcceptedIff` | crates/agent/src/session.rs:602-634 | an assignment is taken, and its task spawned and registered, if and only if the session is not draining, has a free job, does not run that id and is below its build cap |
| `Session.RefusalIff` | crates/agent/src/session.rs:602-630 | the answer names the first obstacle |
| `Session.DrainsAtCapIff` | crates/agent/src/session.rs:416-436 | taking a build starts the drain if and only if it is the last the cap allows |
| `Session.QuitIff` | crates/agent/src/session.rs:440-489 | over every run: what the monitor finds, if and only if; lifetime from the start, the other limits only with nothing running, idleness since the last build taken or completed |
| `Session.OrphanedBuild` | crates/agent/src/session.rs:793-813 | a run by which a completion over a newer task leaves a live build that can no longer be aborted |
| `Session.OrphanedByReconnect` | crates/agent/src/cli.rs:250-269 | for any build: after assignment and reconnection it is live and uncancelled, and an abort of its id changes nothing |
| `Session.Builder.Reserve` | crates/agent/src/session.rs:416-436 | run without interleaving: true if and only if not draining and below the cap, draining from the last accepted build on |
| `Session.Builder.AssignBuild` | crates/agent/src/session.rs:602-634 | the handler is the assignment step, and answers with the first failing check |
| `Session.Builder.FinishTask` | crates/agent/src/session.rs:757-765 | the epilogue removes its id from its own connection's map, whoever holds it, counts down once and counts the completion |
| `Session.Builder.AbortBuild` | crates/agent/src/session.rs:771-791 | cancels the build registered under the id, if any, and nobody else |
| `Session.Builder.ShutdownAll` | crates/agent/src/session.rs:793-813 | cancels every registered task and empties the map, leaving live tasks and the counter alone |
| `Session.Builder.Monitor` | crates/agent/src/session.rs:440-489 | a poll of the exit monitor is the monitor step |
| `Session.Serve` | crates/agent/src/session.rs:440-813 | an agent's whole life, its handlers called in any order from the start: the map is bounded and names live tasks, the counter is their number while it fits, and all are abortable unless a step orphaned one |
| `Reservation.CapHoldsIff` | crates/agent/src/session.rs:416-436 | for any set of callers: in every interleaving at most max_builds reservations succeed, if and only if the callers are too few to wrap the counter past the cap |
| `Reservation.CapBreaks` | crates/agent/src/session.rs:416-436 | otherwise a run that grants one too many |
| `Reservation.RefusedOnlyWhenFullOrDrained` | crates/agent/src/session.rs:416-436 | in every interleaving, for any number of callers, nobody is refused while fewer than max_builds have succeeded unless the monitor drained |
| `Reservation.DrainingIsForever` | crates/agent/src/session.rs:416-436 | draining never reverts, and afterwards only callers already past the check can succeed |
| `Reservation.FullAndQuietDrains` | crates/agent/src/session.rs:416-436 | over every run in which the counter cannot wrap: once the cap is reached and no caller is inside, the session is draining |
| `Reservation.LeavingDrains` | crates/agent/src/session.rs:426-433 | a caller that was refused for the cap, or took its last build, leaves the session draining |
| `Reservation.UncappedRefusal` | crates/agent/src/session.rs:416-422 | without a cap, a caller is refused if and only if the monitor drained |
| `Matching.GreedyIsMatching` | crates/queue-runner/src/gha.rs:253-265 | the greedy loop's assignment is injective and only pairs builds with slots that support them |
| `Matching.GreedyAtLeastHalf` | crates/queue-runner/src/gha.rs:253-265 | it has at least half the size of any valid assignment, whatever the order |
| `Matching.CapacityBounds` | crates/queue-runner/src/gha.rs:233-265 | the capacity is the size of a valid assignment of the given builds to the free slots, and at least half of any |
| `Matching.Transport` | crates/queue-runner/src/gha.rs:241-252 | any reordering of builds and slots carries a valid assignment to one of the same size |
| `Matching.CapacityMaximumWhenNested` | crates/queue-runner/src/gha.rs:241-265 | it is the maximum over all valid assignments when slot feature sets are duplicate-free, nested and without mandatory features |
| `Matching.GreedyMaximum` | crates/queue-runner/src/gha.rs:253-265 | the exchange argument behind it: maximum whenever later slots fit whatever earlier slots fit |
| `Matching.HalfIsTight` | crates/queue-runner/src/gha.rs:241-265 | sorted inputs on which exactly half is reached |
| `Matching.FitsIff` | crates/queue-runner/src/dispatch.rs:77-88 | a slot serves a build if and only if the build needs no feature it lacks and every feature it insists on |
| `Matching.ConstrainedFirst` | crates/queue-runner/src/gha.rs:241-251 | builds with more required features choose first, among slots with fewer features first |
| `Matching.SlotsOfAgent` | crates/queue-runner/src/gha.rs:233-239 | among agents with different ids, each contributes as many slots as jobs it can still take |
| `Matching.CapacityForgetsOrder` | crates/queue-runner/src/gha.rs:241-252 | the capacity does not depend on the order of builds or agents |
| `Matching.ExpandSlots` | crates/queue-runner/src/gha.rs:233-239 | one slot per free job of each agent |
| `Matching.FindSlot` | crates/queue-runner/src/gha.rs:255-261 | the first slot that supports the build, or none does |
| `Matching.TakeSlots` | crates/queue-runner/src/gha.rs:253-265 | the loop that removes slots counts the greedy assignment, saturating at 32 bits |
| `Matching.LiveCapacity` | crates/queue-runner/src/gha.rs:233-265 | expansion, sorting and taking together compute the capacity |
| `Autoscaler.LaunchWindow` | crates/queue-runner/src/gha.rs:120-155 | over an autoscaler's whole history, a window shorter than the TTL that ends at a launch holds at most max_inflight launches |
| `Autoscaler.AttemptsCoolDown` | crates/queue-runner/src/gha.rs:120-172 | over an autoscaler's whole history, attempts of different ticks are at least a cooldown apart |
| `Autoscaler.PushKeepsLaunches` | crates/queue-runner/src/gha.rs:142-153 | a launch below the limit keeps launches ordered, spaced and covered by the queue |
| `Autoscaler.AttemptKeeps` | crates/queue-runner/src/gha.rs:142-172 | attempts of different ticks stay a cooldown apart |
| `Autoscaler.LaunchesMeetDeficit` | crates/queue-runner/src/gha.rs:126-140 | the launches of a tick never outrun the builds that live agents and launches without an agent leave unserved, and fall short only at the limit |
| `Autoscaler.UnexpiredExactly` | crates/queue-runner/src/gha.rs:157-166 | a launch is kept if and only if it is younger than the TTL |
| `Autoscaler.Autoscaler.PruneInflight` | crates/queue-runner/src/gha.rs:157-166 | popping from the front removes exactly the expired launches |
| `Autoscaler.Autoscaler.InCooldown` | crates/queue-runner/src/gha.rs:168-172 | cooling if and only if the last scale-up is less than a cooldown ago |
| `Autoscaler.Autoscaler.Launch` | crates/queue-runner/src/gha.rs:143-152 | one dispatch: recorded as an attempt always and as a launch if accepted, keeping the invariant |
| `Autoscaler.Autoscaler.LaunchAll` | crates/queue-runner/src/gha.rs:142-154 | launches the deficit or exactly up to the first refusal, which is still recorded as an attempt |
| `Autoscaler.Autoscaler.Prepare` | crates/queue-runner/src/gha.rs:121-124 | prunes, then is cooling if and only if the last scale-up is less than a cooldown before that reading |
| `Autoscaler.Autoscaler.Tick` | crates/queue-runner/src/gha.rs:120-155 | one poll: cooling if and only if the last scale-up is less than a cooldown before a reading of this tick; otherwise it launches, up to the first refusal, as many workflows as there are pending builds that live capacity and waiting launches leave unserved, or as the limit allows; the queue is then the unexpired launches and the new ones, and the invariant over the whole history is kept |
| `Autoscaler.RunPolls` | crates/queue-runner/src/gha.rs:120-172 | any number of polls from the start: the queue is the tail of all launches, no window shorter than the TTL holds more than max_inflight of them, and attempts of different ticks are a cooldown apart |
| `Dispatch.FilterEligible` | crates/queue-runner/src/dispatch.rs:171-186 | keeps exactly the eligible agents in order |
| `Dispatch.EligibleOfExact` | crates/queue-runner/src/dispatch.rs:346-438 | an agent passes the filter if and only if it is eligible |
| `Dispatch.EligibleIff` | crates/queue-runner/src/dispatch.rs:77-186 | eligible means schedulable, with all required features, required by all mandatory ones, not under known pressure, and trusted if it comes from a repository |
| `Dispatch.PreferenceIs` | crates/queue-runner/src/dispatch.rs:218-241 | less surplus first, then the higher score, then the lower machine id |
| `Dispatch.ScoreIs` | crates/queue-runner/src/dispatch.rs:218-241 | the score is the speed alone, the speed times the cores, or the speed times the free jobs, of which there are never fewer than none |
| `Dispatch.SurplusCounts` | crates/queue-runner/src/rpc/pool.rs:260-273 | for features without repetition, the surplus is the number of features in demand elsewhere that this build would not use |
| `Dispatch.LeastWastefulFirst` | crates/queue-runner/src/dispatch.rs:439-449 | agents that waste less are asked first |
| `Dispatch.RankedCorrect` | crates/queue-runner/src/dispatch.rs:439-449 | the sort is a permutation, in order of surplus, strategy, machine id |
| `Dispatch.AskedCorrect` | crates/queue-runner/src/dispatch.rs:346-449 | exactly the eligible agents are asked for a slot, each better one before each worse one |
| `Dispatch.SelectAndReserve` | crates/queue-runner/src/dispatch.rs:346-450 | reserves the first agent asked that grants a slot at that moment, and none if and only if all refuse |
| `Dispatch.BetterOnesRefused` | crates/queue-runner/src/dispatch.rs:439-450 | every eligible agent preferred to the reserved one was asked before it and refused |
| `Dispatch.FirstGrantIsBest` | crates/queue-runner/src/dispatch.rs:439-450 | if free slots do not change during the scan, the reserved agent is a minimum among eligible agents with a free slot |
| `Dispatch.AskedForgetsOrder` | crates/queue-runner/src/dispatch.rs:218-241 | the order in which agents are asked does not depend on the order of the snapshots |
| `Dispatch.ChoiceForgetsOrder` | crates/queue-runner/src/dispatch.rs:218-241 | so neither does the reserved agent, however slots come and go during the scan |
| `Dispatch.BestIsUnique` | crates/queue-runner/src/dispatch.rs:218-241 | the minimum among eligible agents with a free slot is unique and does not depend on the order of the snapshots |
| `SlotCounter.InvStep` | crates/queue-runner/src/rpc/pool.rs:161-181 | every atomic step keeps the counter equal to the guards held and within max_jobs |
| `SlotCounter.NeverOversubscribed` | crates/queue-runner/src/rpc/pool.rs:161-214 | so does every interleaving |
| `SlotCounter.AllDroppedMeansZero` | crates/queue-runner/src/rpc/pool.rs:210-214 | with all guards dropped the counter is zero |
| `SlotCounter.AcquiresIff` | crates/queue-runner/src/rpc/pool.rs:161-181 | asked without interference, an agent grants a slot, and counts it, if and only if it has one |
| `SlotCounter.DropReleases` | crates/queue-runner/src/rpc/pool.rs:210-214 | dropping a guard frees exactly that slot |
| `SlotCounter.RefusedOnlyWhenFull` | crates/queue-runner/src/rpc/pool.rs:161-166 | under any interference a caller gives up only on a count that was at the maximum when read |
| `Expansion.QueueInputs` | crates/evaluator/src/builds.rs:197-251 | the worklist starts as exactly the jobs' inputs |
| `Expansion.Expand` | crates/evaluator/src/builds.rs:197-251 | terminates on any finite graph, cyclic ones included; keeps the jobs as a prefix and appends, once each, exactly the least closed set of admissible derivations, each with all that is known about it |
| `Expansion.AdmissibleIff` | crates/evaluator/src/builds.rs:176-186 | a derivation is added only if it is known, no job builds it, and an output of it is missing or unknown |
| `Expansion.LeastClosedUnique` | crates/evaluator/src/builds.rs:197-251 | there is only one such set |
| `Expansion.LeastClosedIsNeeded` | crates/evaluator/src/builds.rs:176-251 | it is the set of derivations reached by a chain of admissible inputs from a job |
| `Dependencies.AddEdges` | crates/evaluator/src/builds.rs:284-316 | adds exactly the missing non-self edges, without duplicates |
| `Dependencies.ResolveDependencyPairs` | crates/evaluator/src/builds.rs:284-316 | duplicate-free, no self-edges, and exactly the edges implied by each job's inputs and constituents |
| `Dependencies.CreateBuilds` | crates/evaluator/src/builds.rs:391-411 | two different builds are joined if and only if one job lists the derivation of the other among its inputs, or its name among its constituents, and no later job has that derivation or name |
| `Dependencies.IndexFinds` | crates/evaluator/src/builds.rs:391-405 | under aliasing a derivation or job name resolves to the last build created for it |
| `Dependencies.EdgeIffNeeds` | crates/evaluator/src/builds.rs:284-405 | two builds are joined by an edge if and only if one job names the other, before any build exists, among its inputs or constituents |
| `Dependencies.ProgressIffAcyclic` | crates/queue-runner/src/runner_loop.rs:483-502 | whatever has succeeded or failed so far, some unfinished build has only succeeded dependencies or a failed build below it, if and only if the edges have no cycle |
| `Dependencies.StalledIff` | queries/build_dependencies.sql:51-59 | without cycles, no unfinished build can run if and only if each has a failed build below it |
| `Dependencies.ProgressIffNoJobCycle` | crates/queue-runner/src/runner_loop.rs:483-502 | the same progress holds of an evaluation's builds if and only if its jobs do not need each other in a circle |
| `Dependencies.AcyclicInputsMakeProgress` | crates/queue-runner/src/runner_loop.rs:483-502 | so it holds with acyclic derivation inputs and no aggregates |
| `Dependencies.ConstituentsCanDeadlock` | crates/evaluator/src/builds.rs:284-316 | two aggregates that name each other wait forever, whatever their build ids, although no derivation depends on itself |
| `Evaluation.InsertAllIff` | crates/common/src/repo/builds.rs:90-125 | inserting builds one by one goes through if and only if no job name repeats, within the set or among the builds already attached |
| `Evaluation.BuildsAppearIff` | crates/evaluator/src/builds.rs:385-426 | builds appear if and only if a claim on a running row commits new, distinct names; then all of them at once, and the row is completed; any other step keeps the builds or deletes them all |
| `Evaluation.NamesStayUnique` | crates/migrations/migrations/0001_tables.sql:116-158 | over every run, with any number of workers, no job name is attached twice |
| `Evaluation.SameNamesNeverTwice` | crates/evaluator/src/builds.rs:385-426 | over every run in which repeated evaluations find the same jobs, the row holds no builds or exactly one set |
| `Evaluation.PollClaimsIff` | crates/evaluator/src/evaluation_state.rs:15-64 | an uninterrupted poll claims exactly the pending rows, the failed and timed-out ones that may be restarted, and the completed ones without builds, and leaves any other row alone |
| `Evaluation.DrainClaimsIff` | crates/evaluator/src/eval_loop.rs:301-311 | uninterrupted, a draining worker claims the row if and only if it is pending |
| `Evaluation.RejectFailsIff` | crates/evaluator/src/eval_loop.rs:140-153 | uninterrupted, a rejecting worker fails the row if and only if it is pending |
| `Evaluation.FinishRecordsIff` | crates/common/src/repo/evaluations.rs:547-560 | a worker's result stands if and only if the row is still running; its builds stay |
| `Evaluation.SweepIs` | queries/evaluations.sql:118-128 | the sweeper gives up or requeues a running row and touches no other |
| `Evaluation.SecondSetIff` | crates/evaluator/src/evaluation_state.rs:15-64 | over every run: a second set appears in exactly the steps that commit entirely new names to a row with one set, and only after a stale re-claim since which that set was kept |
| `Evaluation.LeavesCompletedIff` | crates/evaluator/src/evaluation_state.rs:44-60 | a completed row with builds leaves that status if and only if a worker acts on an outdated count or rejects it from an outdated listing |
| `Evaluation.StaysCompletedIff` | crates/evaluator/src/evaluation_state.rs:44-60 | over every run: a row completed with builds is completed with the same builds at every point if and only if no step is such an act |
| `Evaluation.StaleReclaimLosesBuilds` | crates/evaluator/src/eval_loop.rs:162-200 | from creation: a run of two workers that completes a row with a build, fails it although every commit carries the same names, and by the next poll deletes the build |
| `Evaluation.StaleReclaimCanAddSet` | crates/evaluator/src/evaluation_state.rs:44-60 | a run in which the stale worker finds other jobs and attaches a second set |
| `Evaluation.LeavesCancelledIff` | queries/evaluations.sql:44-183 | a cancelled row leaves that status if and only if an administrator restarts it or a stale worker acts; no step commits builds to it |
| `Evaluation.StaysCancelledIff` | queries/evaluations.sql:44-183 | over every run: a cancelled row is cancelled at every point if and only if no step is one of those |
| `Evaluation.StaysOwnedIff` | crates/evaluator/src/eval_loop.rs:162-243 | a step keeps some worker on a running row if and only if it is not an error of its only worker that is merely logged |
| `Evaluation.AlwaysOwnedIff` | crates/evaluator/src/eval_loop.rs:162-243 | over every run from creation, with any number of workers: a running row has a worker at every point if and only if no step is such an error |
| `Evaluation.AlwaysAbandonedIff` | crates/evaluator/src/eval_loop.rs:76-98 | over every run: an abandoned row stays running without a worker at every point if and only if nobody sweeps or cancels it or acts on an outdated view |
| `Evaluation.AbandonedByError` | crates/evaluator/src/eval_loop.rs:225-243 | from creation: a poll whose evaluation fails abandons the row |
| `Evaluation.AbandonedByConflict` | crates/evaluator/src/eval_loop.rs:225-243 | from creation: a stale re-claim whose commit conflicts abandons the row with builds attached |
| `Evaluation.StaleClaimRevivesCancelled` | crates/evaluator/src/evaluation_state.rs:29-43 | from creation: a run that cancels the row under a worker that saw it failed, whose claim then takes it to running |
| `Evaluation.Row.TryClaimPending` | queries/evaluations.sql:44-47 | claims if and only if the row is pending |
| `Evaluation.Row.Restart` | crates/common/src/repo/evaluations.rs:584-604 | restarts failed, timed-out and cancelled rows and deletes their builds |
| `Evaluation.Row.ClaimExisting` | crates/evaluator/src/evaluation_state.rs:15-64 | uninterrupted, the claim is the worker's next two statements of the protocol, and succeeds exactly on the statuses spelled out |
| `Evaluation.Row.CommitBuilds` | crates/evaluator/src/builds.rs:385-426 | the insert loop commits all builds and completes the row, or on the first repeated name changes nothing |
| `Base32.EncodeSha256` | crates/nix/src/base32.rs:40-55 | the 52 digits carry exactly the digest's bits |
| `Base32.DecodeSha256` | crates/nix/src/base32.rs:62-86 | accepts exactly 52 alphabet characters, returns their low 256 bits, and otherwise reports the length or the first bad character |
| `Base32.PlaceInArray` | crates/nix/src/base32.rs:76-83 | the two in-place or-assignments add one digit to what the buffer holds |
| `Base32.DecodeInvertsEncode` | crates/nix/src/base32.rs:40-86 | decoding inverts encoding for every digest |
| `Base32.EncodeInvertsDecodeIff` | crates/nix/src/base32.rs:40-86 | encoding inverts decoding if and only if the first character is 0 or 1 |
| `Base32.EncodesIffSameInteger` | crates/nix/src/base32.rs:40-55 | a text encodes a digest if and only if it is the base-32 numeral of the little-endian integer |
| `Base32.IsBase32ByteIffInAlphabet` | crates/nix/src/base32.rs:4-36 | the hand-written character test agrees with the alphabet |
| `Base32.PositionSearchesAlphabet` | crates/nix/src/base32.rs:71-75 | the position of a character is the result of searching the alphabet |
| `Glob.MatchesIffInLanguage` | crates/common/src/glob.rs:5-19 | the matcher accepts a value if and only if it can be cut into one part per pattern character |
| `Glob.ConcatenationSplits` | crates/common/src/glob.rs:5-19 | a concatenated pattern matches if and only if the value splits between its parts |
| `GlobUtf8.QuestionMarkIsAByte` | crates/common/src/glob.rs:3-12 | a character of two bytes that `?` does not match |
| `GlobUtf8.NoQuestionAgrees` | crates/common/src/glob.rs:3-19 | for patterns without `?` and any UTF-8 value, matching bytes is matching characters |
| `GlobUtf8.AgreesUnderAllPatternsIff` | crates/common/src/glob.rs:3-19 | a value is matched as the comment says under every pattern if and only if all its characters are one byte |
| `Toml.DeepMerge` | crates/config/src/load.rs:169-185 | the recursive in-order merge computes the merge of the trees |
| `Toml.MergeIdempotent` | crates/config/src/load.rs:169-185 | merging an overlay twice is merging it once |
| `Toml.MergeSelf` | crates/config/src/load.rs:169-185 | merging a value into itself changes nothing |
| `Toml.MergeAbsorbedIffCovered` | crates/config/src/load.rs:169-185 | an overlay hides the base entirely if and only if it covers its keys at every table level |
| `Toml.OverlayWins` | crates/config/src/load.rs:169-185 | a value the overlay sets, other than a table, is what is read from the merge |
| `Toml.BaseShowsThrough` | crates/config/src/load.rs:169-185 | where the overlay is silent about a path, the base is what is read |
| `Toml.MergeAssociativeIff` | crates/config/src/load.rs:169-185 | merge is associative on three layers if and only if no table hidden by a non-table shows through again |
| `Toml.MergeNotAssociative` | crates/config/src/load.rs:169-185 | three layers on which it is not |
| `EnvOverlay.ApplyEnvVars` | crates/config/src/env.rs:1-19 | the loop applies exactly the prefixed, non-empty variables other than the config file, in order |
| `EnvOverlay.PathSpellsKey` | crates/config/src/env.rs:15-17 | the segments of a variable's path, joined again, spell its key without the prefix in lower case |
| `EnvOverlay.AppliesIff` | crates/config/src/env.rs:5-13 | a variable counts if and only if it has the prefix, is not the one naming the configuration file, and is not empty |
| `EnvOverlay.SplitJoins` | crates/config/src/env.rs:15-16 | splitting at the separator loses nothing and leaves no separator inside a segment |
| `EnvOverlay.WriteReadsBack` | crates/config/src/env.rs:48-63 | a write that is not blocked is read back |
| `EnvOverlay.BlockedWriteKeeps` | crates/config/src/env.rs:48-63 | a blocked write changes nothing |
| `EnvOverlay.VariableSets` | crates/config/src/env.rs:1-63 | a variable that counts sets its value at that path, or changes nothing if something other than a table is in the way |
| `EnvOverlay.OtherPathsKept` | crates/config/src/env.rs:48-63 | a write leaves every path alone that parts ways with its own |
| `EnvOverlay.WritesCommute` | crates/config/src/env.rs:48-63 | writes to different paths commute |
| `EnvOverlay.LastWriteWins` | crates/config/src/env.rs:48-63 | of two writes to one path the last remains |
| `EnvOverlay.WritesCommuteIff` | crates/config/src/env.rs:48-63 | two writes commute if and only if their paths differ, their values agree or the path cannot be written |
| `EnvOverlay.OneByOneCommuteIff` | crates/config/src/env.rs:1-19 | the order of two variables is irrelevant if and only if one is skipped, their paths differ, their parsed values agree or the path cannot be written |
| `EnvOverlay.CaseDecidesOrder` | crates/config/src/env.rs:15-17 | two keys that differ only in case and whose order matters |
| `EnvOverlay.EnvOrderIrrelevant` | crates/config/src/env.rs:1-19 | the overlay does not depend on the order of the variables when no two give one path different values |
| `Redaction.RedactSecrets` | crates/config/src/redact.rs:124-146 | the in-order rewrite computes the redacted tree |
| `Redaction.RedactSafeIff` | crates/config/src/redact.rs:109-146 | redaction leaves no database URL at any depth and no unmasked secret key if and only if, outside secret keys, no array directly holds a database URL and the value is not one itself |
| `Redaction.UrlInArraySurvives` | crates/config/src/redact.rs:139-144 | a tree that redaction leaves unchanged although it shows a database URL |
| `Redaction.RedactedEntryIs` | crates/config/src/redact.rs:109-137 | secret keys and database URLs are starred out, and every other plain entry is kept |
| `Redaction.RedactFixesIff` | crates/config/src/redact.rs:109-146 | redaction leaves a tree unchanged if and only if its secret keys are masked and no table entry is a database URL, array items not being looked at |
| `Redaction.SafeIffMaskedAndNoBareUrl` | crates/config/src/redact.rs:109-146 | a tree is safe to show if and only if redaction would leave it unchanged and no array directly holds a database URL |
| `Redaction.RedactIdempotent` | crates/config/src/redact.rs:124-146 | redacting twice is redacting once |
| `Redaction.RedactDistributesOverMerge` | crates/config/src/redact.rs:124-146 | redacting a merge is merging the redacted layers |
| `Handshake.InvRun` | crates/agent/src/sandbox.rs:357-482 | every interleaving and failure keeps the pipe and progress invariant |
| `Handshake.PivotOnlyAfterMaps` | crates/agent/src/sandbox.rs:382-482 | in every interleaving and failure the child pivots and execs only after the id maps are written |
| `Handshake.CleanRunsRunTheProgram` | crates/agent/src/sandbox.rs:357-482 | every run without failing calls and signals that can go no further has run the program, and both sides have exited |
| `Handshake.EarlyExitHasCause` | crates/agent/src/sandbox.rs:382-434 | a child that exits without having run its program had a failing call or a signal in its run |
| `Handshake.DeadPeerUnblocks` | crates/agent/src/sandbox.rs:357-379 | a side waiting on a peer that has exited can always go on |
| `Handshake.KeptEndBlocks` | crates/agent/src/sandbox.rs:265-283 | in every run and failure from a state where a side reads on a pipe whose write end it kept and the peer is gone, that side stays there until it is killed; for the parent and for the child |
| `Handshake.KeptEndHangs` | crates/agent/src/sandbox.rs:357-379 | omitting either drop makes such a state reachable |
| `Handshake.NoDeadlock` | crates/agent/src/sandbox.rs:265-482 | in every reachable state somebody can move or both have exited |
| `Handshake.RunsAreShort` | crates/agent/src/sandbox.rs:265-482 | every run is finite, bounded by the steps both sides have left |

## Left out

- Base32.EncodeSha256: requires exactly 32 bytes; a shorter slice panics in the source and a longer one is not a sha256 digest. Text is one character per byte.
- Supervisor.LogIsFaithful: the notice written after truncation comes on top of the counted bytes, and the size bound is stated for limits below u64::MAX because the counter saturates.
- Supervisor.VerdictIsConsistent: the failure summary built from recent log messages, and the sentence appended to the error after truncation, are not modelled; an error that would be filled from the summary stays empty.
- SupervisorLoop.RunCommand.Run: when a timer fires is not tied to the clock; the events of a run come in any order an adversary picks, which covers every timing.
- Toml.DeepMerge: the source updates the base tree in place; the model builds the merged tree, so aliasing does not arise.
- Redaction.RedactSecrets: modelled on values for the same reason.
- EnvOverlay.ApplyEnvVars: parsing a value is a parameter that never yields a table; a TOML array of inline tables is a non-table value here.
- Expansion.Expand: the name given to a dependency job is a parameter; fixed-output detection and required features of derivations are not modelled.
- Dispatch.SelectAndReserve: speed factors and pressure are reals, so rounding and NaN do not occur; whether an agent grants a slot when asked is an input.
- Autoscaler.Autoscaler.Tick: the demand and the remote endpoint's answers are inputs; times are whole units of a monotone clock.
- Handshake.InvRun: tokens are read and written whole; partial reads, interrupts and the real system calls are not modelled.
- Evaluation.NamesStayUnique: each SQL statement is one atomic step, and a transaction is one step that commits or rolls back; how often a row was orphaned is not counted, so the sweeper may requeue or give up at any time.
- Evaluation.AlwaysOwnedIff: database errors are not modelled; in the source an error while claiming makes a draining worker record a failure on a row it never claimed.
- S3 presigning, paths and prefixes; upload accounting.
- PostgreSQL, Cap'n Proto, TLS, HTTP and process plumbing; cryptography; parsing of JSON and TOML.
- The heartbeat, pressure readings and the trusted-repository lookup behind eligibility.
- The web interface, CLI, permissions, notifications and configuration validation: branch-by-branch facts.
