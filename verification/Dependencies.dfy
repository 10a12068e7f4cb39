/** Dependency edges between the builds of one evaluation, and why they let the queue make progress. */
module Dependencies {
  import opened Options
  import opened Expansion

  type BuildId = nat

  type Edge = (BuildId, BuildId)

  ghost predicate NoDuplicates(pairs: seq<Edge>) {
    forall i, j :: 0 <= i < j < |pairs| ==> pairs[i] != pairs[j]
  }

  /** Some key leads, through the index, to `dep`. */
  ghost predicate Leads(keys: seq<string>, index: map<string, BuildId>, dep: BuildId) {
    exists k :: k in keys && k in index && index[k] == dep
  }

  function Constituents(j: Job): seq<string> {
    if j.constituents.None? then [] else j.constituents.value
  }

  /** The edges that build `id` of job `j` must have. */
  ghost predicate Implied(e: Edge, j: Job, id: BuildId, drvToBuild: map<string, BuildId>, nameToBuild: map<string, BuildId>) {
    && e.0 == id && e.1 != id
    && (Leads(Inputs(j.inputDrvs), drvToBuild, e.1) || Leads(Constituents(j), nameToBuild, e.1))
  }

  /** Append the edges from `id` to whatever the keys lead to, skipping itself and edges already seen. */
  method AddEdges(id: BuildId, keys: seq<string>, index: map<string, BuildId>, pairs0: seq<Edge>, seen0: set<Edge>)
      returns (pairs: seq<Edge>, seen: set<Edge>)
    requires NoDuplicates(pairs0) && (forall e :: e in seen0 <==> e in pairs0)
    ensures NoDuplicates(pairs) && (forall e :: e in seen <==> e in pairs)
    ensures pairs0 <= pairs
    ensures forall e :: e in pairs <==> e in pairs0 || (e.0 == id && e.1 != id && Leads(keys, index, e.1))
  {
    pairs, seen := pairs0, seen0;
    for i := 0 to |keys|
      invariant NoDuplicates(pairs) && (forall e :: e in seen <==> e in pairs) && pairs0 <= pairs
      invariant forall e :: e in pairs <==> e in pairs0 || (e.0 == id && e.1 != id && Leads(keys[..i], index, e.1))
    {
      LeadsOneMore(keys, i, index);
      var k := keys[i];
      if k in index && index[k] != id && (id, index[k]) !in seen {
        seen := seen + {(id, index[k])};
        pairs := pairs + [(id, index[k])];
      }
    }
    assert keys[..|keys|] == keys;
  }

  lemma LeadsOneMore(keys: seq<string>, i: nat, index: map<string, BuildId>)
    requires i < |keys|
    ensures forall dep :: Leads(keys[..i + 1], index, dep) <==> Leads(keys[..i], index, dep) || (keys[i] in index && index[keys[i]] == dep)
  {
    assert forall k :: k in keys[..i + 1] <==> k in keys[..i] || k == keys[i];
    forall dep | Leads(keys[..i], index, dep) || (keys[i] in index && index[keys[i]] == dep)
      ensures Leads(keys[..i + 1], index, dep)
    {
      if Leads(keys[..i], index, dep) {
        var k :| k in keys[..i] && k in index && index[k] == dep;
        assert k in keys[..i + 1];
      } else {
        assert keys[i] in keys[..i + 1];
      }
    }
  }

  /** Duplicate-free, and exactly the edges implied by each job's own inputs and constituents. */
  method ResolveDependencyPairs(jobs: seq<Job>, ids: seq<BuildId>, drvToBuild: map<string, BuildId>, nameToBuild: map<string, BuildId>)
      returns (pairs: seq<Edge>)
    ensures NoDuplicates(pairs)
    ensures forall e :: e in pairs <==>
              exists i :: 0 <= i < |jobs| && i < |ids| && Implied(e, jobs[i], ids[i], drvToBuild, nameToBuild)
  {
    pairs := [];
    var seen: set<Edge> := {};
    var n := if |jobs| < |ids| then |jobs| else |ids|;
    for i := 0 to n
      invariant NoDuplicates(pairs) && (forall e :: e in seen <==> e in pairs)
      invariant forall e :: e in pairs <==> exists k :: 0 <= k < i && Implied(e, jobs[k], ids[k], drvToBuild, nameToBuild)
    {
      ghost var before := pairs;
      pairs, seen := AddEdges(ids[i], Inputs(jobs[i].inputDrvs), drvToBuild, pairs, seen);
      pairs, seen := AddEdges(ids[i], Constituents(jobs[i]), nameToBuild, pairs, seen);
      assert forall e :: e in pairs <==> e in before || Implied(e, jobs[i], ids[i], drvToBuild, nameToBuild);
    }
  }

  // ---- progress ----

  /** Each consecutive pair of `walk` is an edge. */
  ghost predicate Walk(walk: seq<BuildId>, edges: set<Edge>) {
    forall i :: 0 < i < |walk| ==> (walk[i - 1], walk[i]) in edges
  }

  ghost predicate Cyclic(edges: set<Edge>) {
    exists walk: seq<BuildId> :: |walk| > 1 && Walk(walk, edges) && walk[0] == walk[|walk| - 1]
  }

  /** All of `b`'s dependencies lie outside `u`. */
  ghost predicate Ready(b: BuildId, u: set<BuildId>, edges: set<Edge>) {
    forall e :: e in edges && e.0 == b ==> e.1 !in u
  }

  ghost predicate HasReady(u: set<BuildId>, edges: set<Edge>) {
    exists b :: b in u && Ready(b, u, edges)
  }

  /** What the scheduler asks for: every dependency has succeeded, so none is unfinished or failed. */
  ghost predicate Runnable(b: BuildId, unfinished: set<BuildId>, failed: set<BuildId>, edges: set<Edge>) {
    Ready(b, unfinished, edges) && Ready(b, failed, edges)
  }

  /** Going down from `b` through unfinished builds, `walk` ends at a failed one. */
  ghost predicate EndsInFailure(walk: seq<BuildId>, b: BuildId, unfinished: set<BuildId>, failed: set<BuildId>, edges: set<Edge>) {
    && |walk| > 1 && Walk(walk, edges) && walk[0] == b && walk[|walk| - 1] in failed
    && forall i :: 0 <= i < |walk| - 1 ==> walk[i] in unfinished
  }

  ghost predicate FailedBelow(b: BuildId, unfinished: set<BuildId>, failed: set<BuildId>, edges: set<Edge>) {
    exists walk :: EndsInFailure(walk, b, unfinished, failed, edges)
  }

  /** Some unfinished build can run, or has a failed one below it. */
  ghost predicate GoesOn(unfinished: set<BuildId>, failed: set<BuildId>, edges: set<Edge>) {
    exists b :: b in unfinished &&
      (Runnable(b, unfinished, failed, edges) || FailedBelow(b, unfinished, failed, edges))
  }

  /** Whatever has succeeded or failed so far, no unfinished build waits without a failed one to blame. */
  ghost predicate Progress(edges: set<Edge>) {
    forall unfinished, failed :: unfinished != {} ==> GoesOn(unfinished, failed, edges)
  }

  /** If nothing in `u` is ready, walks of any length stay inside it. */
  lemma {:induction false} StuckWalk(u: set<BuildId>, edges: set<Edge>, n: nat) returns (walk: seq<BuildId>)
    requires u != {} && forall b :: b in u ==> !Ready(b, u, edges)
    ensures |walk| == n + 1 && Walk(walk, edges) && forall i :: 0 <= i < |walk| ==> walk[i] in u
  {
    if n == 0 {
      var b :| b in u;
      walk := [b];
    } else {
      var w := StuckWalk(u, edges, n - 1);
      assert !Ready(w[n - 1], u, edges);
      var e :| e in edges && e.0 == w[n - 1] && e.1 in u;
      walk := w + [e.1];
    }
  }

  /** A walk longer than the set it stays in visits something twice. */
  lemma {:induction false} Pigeonhole(walk: seq<BuildId>, u: set<BuildId>) returns (i: nat, j: nat)
    requires |walk| > |u| && forall k :: 0 <= k < |walk| ==> walk[k] in u
    ensures i < j < |walk| && walk[i] == walk[j]
    decreases |u|
  {
    var last := |walk| - 1;
    if k :| 0 <= k < last && walk[k] == walk[last] {
      i, j := k, last;
    } else {
      i, j := Pigeonhole(walk[..last], u - {walk[last]});
    }
  }

  /** Unfinished builds that all wait on one another run in a circle. */
  lemma StuckMeansCycle(u: set<BuildId>, edges: set<Edge>)
    requires u != {} && !HasReady(u, edges)
    ensures Cyclic(edges)
  {
    var walk := StuckWalk(u, edges, |u|);
    var i, j := Pigeonhole(walk, u);
    var loop := walk[i..j + 1];
    assert |loop| > 1 && Walk(loop, edges) && loop[0] == loop[|loop| - 1];
  }

  /** Without cycles, no unfinished build can run exactly when each of them has a failed one below it. */
  lemma StalledIff(unfinished: set<BuildId>, failed: set<BuildId>, edges: set<Edge>)
    requires !Cyclic(edges)
    ensures (forall b :: b in unfinished ==> !Runnable(b, unfinished, failed, edges)) <==>
            (forall b :: b in unfinished ==> FailedBelow(b, unfinished, failed, edges))
  {
    if forall b :: b in unfinished ==> FailedBelow(b, unfinished, failed, edges) {
      forall b | b in unfinished ensures !Runnable(b, unfinished, failed, edges) {
        NotRunnableAboveFailure(b, unfinished, failed, edges);
      }
    } else {
      var b := RunnableExists(unfinished, failed, edges);
    }
  }

  lemma NotRunnableAboveFailure(b: BuildId, unfinished: set<BuildId>, failed: set<BuildId>, edges: set<Edge>)
    requires FailedBelow(b, unfinished, failed, edges)
    ensures !Runnable(b, unfinished, failed, edges)
  {
    var walk :| EndsInFailure(walk, b, unfinished, failed, edges);
    var e := (walk[0], walk[1]);
    assert e in edges && (e.1 in unfinished || e.1 in failed);
  }

  lemma FailureSpreadsUp(e: Edge, unfinished: set<BuildId>, failed: set<BuildId>, edges: set<Edge>)
    requires e in edges && e.0 in unfinished
    requires e.1 in failed || (e.1 in unfinished && FailedBelow(e.1, unfinished, failed, edges))
    ensures FailedBelow(e.0, unfinished, failed, edges)
  {
    if e.1 in failed {
      assert EndsInFailure([e.0, e.1], e.0, unfinished, failed, edges);
    } else {
      var walk :| EndsInFailure(walk, e.1, unfinished, failed, edges);
      assert EndsInFailure([e.0] + walk, e.0, unfinished, failed, edges);
    }
  }

  /** Among builds with nothing failed below them, one can run. */
  lemma RunnableExists(unfinished: set<BuildId>, failed: set<BuildId>, edges: set<Edge>) returns (b: BuildId)
    requires !Cyclic(edges)
    requires exists c :: c in unfinished && !FailedBelow(c, unfinished, failed, edges)
    ensures b in unfinished && Runnable(b, unfinished, failed, edges)
  {
    var clear := set c | c in unfinished && !FailedBelow(c, unfinished, failed, edges);
    assert clear != {} by {
      var c :| c in unfinished && !FailedBelow(c, unfinished, failed, edges);
      assert c in clear;
    }
    if !HasReady(clear, edges) { StuckMeansCycle(clear, edges); }
    b :| b in clear && Ready(b, clear, edges);
    forall e | e in edges && e.0 == b ensures e.1 !in unfinished && e.1 !in failed {
      if e.1 in failed || (e.1 in unfinished && e.1 !in clear) { FailureSpreadsUp(e, unfinished, failed, edges); }
    }
  }

  /** No unfinished build waits for nothing, whatever has succeeded or failed, exactly when the edges have no cycle. */
  lemma ProgressIffAcyclic(edges: set<Edge>)
    ensures Progress(edges) <==> !Cyclic(edges)
  {
    if Cyclic(edges) {
      var walk: seq<BuildId> :| |walk| > 1 && Walk(walk, edges) && walk[0] == walk[|walk| - 1];
      CycleIsStuck(walk, edges);
    } else {
      forall unfinished: set<BuildId>, failed: set<BuildId> | unfinished != {} ensures GoesOn(unfinished, failed, edges) {
        var b :| b in unfinished;
        if !FailedBelow(b, unfinished, failed, edges) { b := RunnableExists(unfinished, failed, edges); }
      }
    }
  }

  lemma CycleIsStuck(walk: seq<BuildId>, edges: set<Edge>)
    requires |walk| > 1 && Walk(walk, edges) && walk[0] == walk[|walk| - 1]
    ensures !Progress(edges)
  {
    var u := set b | b in walk;
    assert walk[0] in u;
    forall b | b in u ensures !Ready(b, u, edges) {
      var i :| 0 <= i < |walk| && walk[i] == b;
      var k := if i == |walk| - 1 then 0 else i;
      var e := (walk[k], walk[k + 1]);
      assert e in edges && e.0 == b && walk[k + 1] in u;
    }
    assert !GoesOn(u, {}, edges);
  }

  // ---- jobs without cycles ----

  /** The index the transaction builds: each key maps to the last build created for it. */
  function IndexBy(keys: seq<string>, ids: seq<BuildId>): map<string, BuildId>
    requires |keys| == |ids|
  {
    if keys == [] then map[]
    else
      var n := |keys| - 1;
      IndexBy(keys[..n], ids[..n])[keys[n] := ids[n]]
  }

  function DrvPaths(jobs: seq<Job>): (keys: seq<string>)
    ensures |keys| == |jobs|
  {
    seq(|jobs|, i requires 0 <= i < |jobs| => jobs[i].drvPath)
  }

  function Names(jobs: seq<Job>): (keys: seq<string>)
    ensures |keys| == |jobs|
  {
    seq(|jobs|, i requires 0 <= i < |jobs| => jobs[i].name)
  }

  lemma IndexOneMore(keys: seq<string>, ids: seq<BuildId>, i: nat)
    requires |keys| == |ids| && i < |keys|
    ensures IndexBy(keys[..i + 1], ids[..i + 1]) == IndexBy(keys[..i], ids[..i])[keys[i] := ids[i]]
  {
    assert keys[..i + 1][..i] == keys[..i] && ids[..i + 1][..i] == ids[..i];
  }

  /** Create one build per job, in order, and resolve the edges between them. */
  method CreateBuilds(jobs: seq<Job>, ids: seq<BuildId>) returns (pairs: seq<Edge>)
    requires |jobs| == |ids|
    ensures NoDuplicates(pairs)
    ensures forall e :: e in pairs <==> EvaluationEdge(e, jobs, ids)
    ensures DistinctIds(ids) ==> forall i, k :: 0 <= i < |jobs| && 0 <= k < |jobs| ==>
              ((ids[i], ids[k]) in pairs <==> i != k && (ListsInput(jobs, i, k) || ListsConstituent(jobs, i, k)))
    ensures forall e :: e in pairs ==> e.0 in ids && e.1 in ids
  {
    ghost var drvs, names := DrvPaths(jobs), Names(jobs);
    var drvToBuild: map<string, BuildId>, nameToBuild: map<string, BuildId> := map[], map[];
    for i := 0 to |jobs|
      invariant drvToBuild == IndexBy(drvs[..i], ids[..i])
      invariant nameToBuild == IndexBy(names[..i], ids[..i])
    {
      IndexOneMore(drvs, ids, i);
      IndexOneMore(names, ids, i);
      drvToBuild := drvToBuild[jobs[i].drvPath := ids[i]];
      nameToBuild := nameToBuild[jobs[i].name := ids[i]];
    }
    assert drvs[..|jobs|] == drvs && names[..|jobs|] == names && ids[..|ids|] == ids;
    pairs := ResolveDependencyPairs(jobs, ids, drvToBuild, nameToBuild);
    if DistinctIds(ids) {
      forall i, k | 0 <= i < |jobs| && 0 <= k < |jobs|
        ensures (ids[i], ids[k]) in pairs <==> i != k && (ListsInput(jobs, i, k) || ListsConstituent(jobs, i, k))
      {
        EdgeIffNeeds(i, k, jobs, ids);
        NeedsIffLists(i, k, jobs);
      }
    }
    forall e | e in pairs ensures e.0 in ids && e.1 in ids { var i, k := EdgeEnds(e, jobs, ids); }
  }

  /** Job `i` has the derivation of job `k` among its inputs, and no later job builds that derivation. */
  ghost predicate ListsInput(jobs: seq<Job>, i: int, k: int)
    requires 0 <= i < |jobs| && 0 <= k < |jobs|
  {
    && jobs[i].inputDrvs.Some? && jobs[k].drvPath in jobs[i].inputDrvs.value
    && forall m :: k < m < |jobs| ==> jobs[m].drvPath != jobs[k].drvPath
  }

  /** Job `i` names job `k` as a constituent, and no later job has that name. */
  ghost predicate ListsConstituent(jobs: seq<Job>, i: int, k: int)
    requires 0 <= i < |jobs| && 0 <= k < |jobs|
  {
    && jobs[i].constituents.Some? && jobs[k].name in jobs[i].constituents.value
    && forall m :: k < m < |jobs| ==> jobs[m].name != jobs[k].name
  }

  lemma NeedsIffLists(i: nat, k: nat, jobs: seq<Job>)
    requires i < |jobs| && k < |jobs|
    ensures JobNeeds(i, k, jobs) <==> i != k && (ListsInput(jobs, i, k) || ListsConstituent(jobs, i, k))
  {
    var drvs, names := DrvPaths(jobs), Names(jobs);
    WantsIff(Inputs(jobs[i].inputDrvs), k, drvs);
    WantsIff(Constituents(jobs[i]), k, names);
    assert forall m {:trigger jobs[m]} {:trigger drvs[m]} {:trigger names[m]} ::
      0 <= m < |jobs| ==> drvs[m] == jobs[m].drvPath && names[m] == jobs[m].name;
  }

  lemma WantsIff(wanted: seq<string>, k: nat, keys: seq<string>)
    requires k < |keys|
    ensures Wants(wanted, k, keys) <==> keys[k] in wanted && forall m :: k < m < |keys| ==> keys[m] != keys[k]
  {
    if keys[k] in wanted && forall m :: k < m < |keys| ==> keys[m] != keys[k] {
      assert LastAt(k, keys[k], keys);
    }
  }

  /** The edges of an evaluation whose job number i became build ids[i]. */
  ghost predicate EvaluationEdge(e: Edge, jobs: seq<Job>, ids: seq<BuildId>)
    requires |jobs| == |ids|
  {
    exists i :: 0 <= i < |jobs| && Implied(e, jobs[i], ids[i], IndexBy(DrvPaths(jobs), ids), IndexBy(Names(jobs), ids))
  }

  /** Job `k` is the last one with this key. */
  ghost predicate LastAt(k: nat, key: string, keys: seq<string>) {
    k < |keys| && keys[k] == key && forall i :: k < i < |keys| ==> keys[i] != key
  }

  /** Under aliasing a key resolves to the last build created for it. */
  lemma {:induction false} IndexFinds(keys: seq<string>, ids: seq<BuildId>, key: string) returns (k: nat)
    requires |keys| == |ids| && key in IndexBy(keys, ids)
    ensures LastAt(k, key, keys) && ids[k] == IndexBy(keys, ids)[key]
  {
    var n := |keys| - 1;
    if keys[n] == key {
      k := n;
    } else {
      k := IndexFinds(keys[..n], ids[..n], key);
    }
  }

  lemma {:induction false} IndexHas(keys: seq<string>, ids: seq<BuildId>, k: nat, key: string)
    requires |keys| == |ids| && LastAt(k, key, keys)
    ensures key in IndexBy(keys, ids) && IndexBy(keys, ids)[key] == ids[k]
  {
    var n := |keys| - 1;
    if k < n { IndexHas(keys[..n], ids[..n], k, key); }
  }

  /** Build ids are fresh. */
  ghost predicate DistinctIds(ids: seq<BuildId>) {
    forall i, j :: 0 <= i < j < |ids| ==> ids[i] != ids[j]
  }

  /** One of `wanted` is last carried by job `k`. */
  ghost predicate Wants(wanted: seq<string>, k: nat, keys: seq<string>) {
    exists key :: key in wanted && LastAt(k, key, keys)
  }

  lemma LeadsIffWants(wanted: seq<string>, keys: seq<string>, ids: seq<BuildId>, k: nat)
    requires |keys| == |ids| && k < |keys| && DistinctIds(ids)
    ensures Leads(wanted, IndexBy(keys, ids), ids[k]) <==> Wants(wanted, k, keys)
  {
    var index := IndexBy(keys, ids);
    if Leads(wanted, index, ids[k]) {
      var key :| key in wanted && key in index && index[key] == ids[k];
      var found := IndexFinds(keys, ids, key);
      assert found == k;
    }
    if key :| key in wanted && LastAt(k, key, keys) {
      IndexHas(keys, ids, k, key);
    }
  }

  lemma LeadsToSome(wanted: seq<string>, keys: seq<string>, ids: seq<BuildId>, dep: BuildId) returns (k: nat)
    requires |keys| == |ids| && Leads(wanted, IndexBy(keys, ids), dep)
    ensures k < |keys| && ids[k] == dep
  {
    var key :| key in wanted && key in IndexBy(keys, ids) && IndexBy(keys, ids)[key] == dep;
    k := IndexFinds(keys, ids, key);
  }

  /** Job `i` names job `k` among its inputs or its constituents. */
  ghost predicate JobNeeds(i: nat, k: nat, jobs: seq<Job>) {
    && i < |jobs| && k < |jobs| && i != k
    && (Wants(Inputs(jobs[i].inputDrvs), k, DrvPaths(jobs)) || Wants(Constituents(jobs[i]), k, Names(jobs)))
  }

  /** What a job needs, before any build exists, is what its build depends on. */
  lemma EdgeIffNeeds(i: nat, k: nat, jobs: seq<Job>, ids: seq<BuildId>)
    requires |jobs| == |ids| && DistinctIds(ids) && i < |jobs| && k < |jobs|
    ensures EvaluationEdge((ids[i], ids[k]), jobs, ids) <==> JobNeeds(i, k, jobs)
  {
    LeadsIffWants(Inputs(jobs[i].inputDrvs), DrvPaths(jobs), ids, k);
    LeadsIffWants(Constituents(jobs[i]), Names(jobs), ids, k);
    var e, drvs, names := (ids[i], ids[k]), IndexBy(DrvPaths(jobs), ids), IndexBy(Names(jobs), ids);
    assert Implied(e, jobs[i], ids[i], drvs, names) <==> JobNeeds(i, k, jobs);
  }

  lemma EdgeEnds(e: Edge, jobs: seq<Job>, ids: seq<BuildId>) returns (i: nat, k: nat)
    requires |jobs| == |ids| && EvaluationEdge(e, jobs, ids)
    ensures i < |ids| && k < |ids| && e == (ids[i], ids[k])
  {
    var drvs, names := IndexBy(DrvPaths(jobs), ids), IndexBy(Names(jobs), ids);
    i :| 0 <= i < |jobs| && Implied(e, jobs[i], ids[i], drvs, names);
    if Leads(Inputs(jobs[i].inputDrvs), drvs, e.1) {
      k := LeadsToSome(Inputs(jobs[i].inputDrvs), DrvPaths(jobs), ids, e.1);
    } else {
      k := LeadsToSome(Constituents(jobs[i]), Names(jobs), ids, e.1);
    }
  }

  ghost predicate JobWalk(walk: seq<nat>, jobs: seq<Job>) {
    forall i :: 0 < i < |walk| ==> JobNeeds(walk[i - 1], walk[i], jobs)
  }

  ghost predicate JobCycle(jobs: seq<Job>) {
    exists walk :: |walk| > 1 && JobWalk(walk, jobs) && walk[0] == walk[|walk| - 1]
  }

  /** `edges` are the evaluation's, all of them. */
  ghost predicate EdgesOf(edges: set<Edge>, jobs: seq<Job>, ids: seq<BuildId>)
    requires |jobs| == |ids|
  {
    forall e :: e in edges <==> EvaluationEdge(e, jobs, ids)
  }

  /** Number of the job that became build `b`. */
  ghost function JobOf(b: BuildId, ids: seq<BuildId>): nat {
    if i :| 0 <= i < |ids| && ids[i] == b then i else 0
  }

  lemma EdgeBetweenJobs(e: Edge, jobs: seq<Job>, ids: seq<BuildId>)
    requires |jobs| == |ids| && DistinctIds(ids) && EvaluationEdge(e, jobs, ids)
    ensures JobNeeds(JobOf(e.0, ids), JobOf(e.1, ids), jobs)
  {
    var i, k := EdgeEnds(e, jobs, ids);
    assert JobOf(e.0, ids) == i && JobOf(e.1, ids) == k;
    EdgeIffNeeds(i, k, jobs, ids);
  }

  lemma BuildCycleIsJobCycle(walk: seq<BuildId>, jobs: seq<Job>, ids: seq<BuildId>, edges: set<Edge>)
    requires |jobs| == |ids| && DistinctIds(ids) && EdgesOf(edges, jobs, ids)
    requires |walk| > 1 && Walk(walk, edges) && walk[0] == walk[|walk| - 1]
    ensures JobCycle(jobs)
  {
    var ns := seq(|walk|, i requires 0 <= i < |walk| => JobOf(walk[i], ids));
    forall i | 0 < i < |ns| ensures JobNeeds(ns[i - 1], ns[i], jobs) {
      EdgeBetweenJobs((walk[i - 1], walk[i]), jobs, ids);
    }
    assert |ns| > 1 && JobWalk(ns, jobs) && ns[0] == ns[|ns| - 1];
  }

  lemma JobWalkInRange(ns: seq<nat>, jobs: seq<Job>)
    requires |ns| > 1 && JobWalk(ns, jobs)
    ensures forall i :: 0 <= i < |ns| ==> ns[i] < |jobs|
  {
    forall i | 0 <= i < |ns| ensures ns[i] < |jobs| {
      assert if i == 0 then JobNeeds(ns[1 - 1], ns[1], jobs) else JobNeeds(ns[i - 1], ns[i], jobs);
    }
  }

  lemma JobCycleIsBuildCycle(ns: seq<nat>, jobs: seq<Job>, ids: seq<BuildId>, edges: set<Edge>)
    requires |jobs| == |ids| && DistinctIds(ids) && EdgesOf(edges, jobs, ids)
    requires |ns| > 1 && JobWalk(ns, jobs) && ns[0] == ns[|ns| - 1]
    ensures Cyclic(edges)
  {
    JobWalkInRange(ns, jobs);
    var walk := seq(|ns|, i requires 0 <= i < |ns| => ids[ns[i]]);
    forall i | 0 < i < |walk| ensures (walk[i - 1], walk[i]) in edges {
      EdgeIffNeeds(ns[i - 1], ns[i], jobs, ids);
    }
    assert |walk| > 1 && Walk(walk, edges) && walk[0] == walk[|walk| - 1];
  }

  /** The builds of an evaluation never wait in a circle exactly when its jobs do not need each other in one. */
  lemma ProgressIffNoJobCycle(jobs: seq<Job>, ids: seq<BuildId>, edges: set<Edge>)
    requires |jobs| == |ids| && DistinctIds(ids) && EdgesOf(edges, jobs, ids)
    ensures Progress(edges) <==> !JobCycle(jobs)
  {
    ProgressIffAcyclic(edges);
    if walk: seq<BuildId> :| |walk| > 1 && Walk(walk, edges) && walk[0] == walk[|walk| - 1] {
      BuildCycleIsJobCycle(walk, jobs, ids, edges);
    }
    if ns :| |ns| > 1 && JobWalk(ns, jobs) && ns[0] == ns[|ns| - 1] {
      JobCycleIsBuildCycle(ns, jobs, ids, edges);
    }
  }

  // ---- derivation inputs ----

  /** Some job for derivation `a` lists `b` among its inputs. */
  ghost predicate NeedsInput(a: Path, b: Path, jobs: seq<Job>) {
    exists j :: j in jobs && j.drvPath == a && b in Inputs(j.inputDrvs)
  }

  ghost predicate InputWalk(walk: seq<Path>, jobs: seq<Job>) {
    forall i :: 0 < i < |walk| ==> NeedsInput(walk[i - 1], walk[i], jobs)
  }

  ghost predicate InputCycle(jobs: seq<Job>) {
    exists walk: seq<Path> :: |walk| > 1 && InputWalk(walk, jobs) && walk[0] == walk[|walk| - 1]
  }

  lemma NeedFollowsInput(i: nat, k: nat, jobs: seq<Job>)
    requires JobNeeds(i, k, jobs) && forall j :: j in jobs ==> j.constituents.None?
    ensures NeedsInput(jobs[i].drvPath, jobs[k].drvPath, jobs)
  {
    assert jobs[i] in jobs;
  }

  ghost function DrvsAlong(ns: seq<nat>, jobs: seq<Job>): (paths: seq<Path>)
    requires forall i :: 0 <= i < |ns| ==> ns[i] < |jobs|
    ensures |paths| == |ns| && forall i :: 0 <= i < |ns| ==> paths[i] == jobs[ns[i]].drvPath
  {
    seq(|ns|, i requires 0 <= i < |ns| => jobs[ns[i]].drvPath)
  }

  lemma JobCycleIsInputCycle(ns: seq<nat>, jobs: seq<Job>)
    requires forall j :: j in jobs ==> j.constituents.None?
    requires |ns| > 1 && JobWalk(ns, jobs) && ns[0] == ns[|ns| - 1]
    ensures InputCycle(jobs)
  {
    JobWalkInRange(ns, jobs);
    var paths := DrvsAlong(ns, jobs);
    forall i | 0 < i < |ns| ensures NeedsInput(paths[i - 1], paths[i], jobs) {
      NeedFollowsInput(ns[i - 1], ns[i], jobs);
    }
    assert |paths| > 1 && InputWalk(paths, jobs) && paths[0] == paths[|paths| - 1];
  }

  /** With acyclic derivation inputs and no aggregates the queue always makes progress. */
  lemma AcyclicInputsMakeProgress(jobs: seq<Job>, ids: seq<BuildId>, edges: set<Edge>)
    requires |jobs| == |ids| && DistinctIds(ids) && EdgesOf(edges, jobs, ids) && !InputCycle(jobs)
    requires forall j :: j in jobs ==> j.constituents.None?
    ensures Progress(edges)
  {
    ProgressIffNoJobCycle(jobs, ids, edges);
    if ns :| |ns| > 1 && JobWalk(ns, jobs) && ns[0] == ns[|ns| - 1] {
      JobCycleIsInputCycle(ns, jobs);
    }
  }

  /** A job that only names one constituent. */
  function Aggregate(name: string, constituent: string): Job {
    Job(name, "/nix/store/" + name + ".drv", None, None, None, Some([constituent]))
  }

  lemma MutualNeeds(jobs: seq<Job>)
    requires jobs == [Aggregate("a", "b"), Aggregate("b", "a")]
    ensures JobNeeds(0, 1, jobs) && JobNeeds(1, 0, jobs)
  {
    var names := Names(jobs);
    assert names == ["a", "b"];
    assert LastAt(1, "b", names) && LastAt(0, "a", names);
    assert "b" in Constituents(jobs[0]) && "a" in Constituents(jobs[1]);
  }

  /** Aggregates can deadlock although no derivation does: two jobs naming each other wait for each other forever. */
  lemma ConstituentsCanDeadlock() returns (jobs: seq<Job>)
    ensures !InputCycle(jobs)
    ensures forall ids: seq<BuildId>, edges :: |ids| == |jobs| && DistinctIds(ids) && EdgesOf(edges, jobs, ids) ==> !Progress(edges)
  {
    jobs := [Aggregate("a", "b"), Aggregate("b", "a")];
    NoInputsNoCycle(jobs);
    MutualNeeds(jobs);
    var walk: seq<nat> := [0, 1, 0];
    assert JobCycle(jobs) by { assert |walk| > 1 && JobWalk(walk, jobs) && walk[0] == walk[|walk| - 1]; }
    forall ids: seq<BuildId>, edges | |ids| == |jobs| && DistinctIds(ids) && EdgesOf(edges, jobs, ids) ensures !Progress(edges) {
      ProgressIffNoJobCycle(jobs, ids, edges);
    }
  }

  lemma NoInputsNoCycle(jobs: seq<Job>)
    requires forall j :: j in jobs ==> j.inputDrvs.None?
    ensures !InputCycle(jobs)
  {
    forall x, y ensures !NeedsInput(x, y, jobs) {}
    forall walk: seq<Path> | |walk| > 1 ensures !InputWalk(walk, jobs) {
      assert !NeedsInput(walk[0], walk[1], jobs);
    }
  }
}
