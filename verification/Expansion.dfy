/** Expanding an evaluation's jobs with the derivations they need but that are not built yet. */
module Expansion {
  import opened Options

  type Path = string

  /** `inputDrvs` lists the keys of the input map in its iteration order. */
  datatype Info = Info(system: Option<string>, outputs: Option<set<string>>, inputDrvs: Option<seq<Path>>)

  datatype Job = Job(
    name: string,
    drvPath: Path,
    system: Option<string>,
    outputs: Option<set<string>>,
    inputDrvs: Option<seq<Path>>,
    constituents: Option<seq<string>>)

  /** The derivation graph as queried from the store. */
  datatype Graph = Graph(derivations: map<Path, Info>, invalidOutputs: set<string>)

  predicate ShouldEnqueue(info: Info, invalid: set<string>) {
    info.outputs.None? || exists o :: o in info.outputs.value && o in invalid
  }

  function Inputs(inputDrvs: Option<seq<Path>>): seq<Path> {
    if inputDrvs.None? then [] else inputDrvs.value
  }

  function DependencyJob(d: Path, info: Info, nameOf: Path -> string): Job {
    Job(nameOf(d), d, info.system, info.outputs, info.inputDrvs, None)
  }

  function PathsOf(jobs: seq<Job>): set<Path> {
    set j | j in jobs :: j.drvPath
  }

  // ---- what must be added ----

  /** Known, not already a job, and with an output that is missing. */
  predicate Admissible(d: Path, jobs: seq<Job>, g: Graph) {
    d in g.derivations && d !in PathsOf(jobs) && ShouldEnqueue(g.derivations[d], g.invalidOutputs)
  }

  /** `s` has every admissible input of the jobs and of its own members. */
  ghost predicate Closed(s: set<Path>, jobs: seq<Job>, g: Graph) {
    && (forall j, d :: j in jobs && d in Inputs(j.inputDrvs) && Admissible(d, jobs, g) ==> d in s)
    && (forall e, d :: e in s && e in g.derivations && d in Inputs(g.derivations[e].inputDrvs) && Admissible(d, jobs, g) ==> d in s)
  }

  ghost predicate LeastClosed(s: set<Path>, jobs: seq<Job>, g: Graph) {
    && Closed(s, jobs, g)
    && (forall d :: d in s ==> Admissible(d, jobs, g))
    && (forall t :: Closed(t, jobs, g) ==> s <= t)
  }

  ghost predicate DistinctPaths(jobs: seq<Job>) {
    forall i, j :: 0 <= i < j < |jobs| ==> jobs[i].drvPath != jobs[j].drvPath
  }

  // ---- the worklist ----

  /** Everything admissible that is reachable so far is either added or still queued, and nothing else is. */
  ghost predicate Frontier(added: set<Path>, queued: seq<Path>, jobs: seq<Job>, g: Graph) {
    && (forall d :: d in added ==> Admissible(d, jobs, g))
    && (forall j, d :: j in jobs && d in Inputs(j.inputDrvs) && Admissible(d, jobs, g) ==> d in added || d in queued)
    && (forall e, d :: e in added && d in Inputs(g.derivations[e].inputDrvs) && Admissible(d, jobs, g) ==> d in added || d in queued)
    && (forall t :: Closed(t, jobs, g) ==> added <= t && forall d :: d in queued && Admissible(d, jobs, g) ==> d in t)
  }

  lemma SkipKeeps(added: set<Path>, queued: seq<Path>, jobs: seq<Job>, g: Graph)
    requires Frontier(added, queued, jobs, g) && queued != []
    requires queued[0] in added || !Admissible(queued[0], jobs, g)
    ensures Frontier(added, queued[1..], jobs, g)
  {
    assert forall d :: d in queued <==> d == queued[0] || d in queued[1..];
  }

  lemma AddKeeps(added: set<Path>, queued: seq<Path>, jobs: seq<Job>, g: Graph)
    requires Frontier(added, queued, jobs, g) && queued != [] && Admissible(queued[0], jobs, g)
    ensures Frontier(added + {queued[0]}, queued[1..] + Inputs(g.derivations[queued[0]].inputDrvs), jobs, g)
  {
    var d, inputs := queued[0], Inputs(g.derivations[queued[0]].inputDrvs);
    var rest := queued[1..] + inputs;
    assert forall x :: x in queued <==> x == d || x in queued[1..];
    assert forall x :: x in rest <==> x in queued[1..] || x in inputs;
    forall t | Closed(t, jobs, g) ensures added + {d} <= t && forall x :: x in rest && Admissible(x, jobs, g) ==> x in t {
      assert d in t;
    }
  }

  /** Inputs of the given jobs, in order. */
  method QueueInputs(jobs: seq<Job>) returns (queued: seq<Path>)
    ensures forall d :: d in queued <==> exists j :: j in jobs && d in Inputs(j.inputDrvs)
  {
    queued := [];
    for i := 0 to |jobs|
      invariant forall d :: d in queued <==> exists k :: 0 <= k < i && d in Inputs(jobs[k].inputDrvs)
    {
      if jobs[i].inputDrvs.Some? {
        queued := queued + jobs[i].inputDrvs.value;
      }
    }
  }

  /** The job carries everything known about its derivation, and is no aggregate. */
  predicate BuiltFor(j: Job, info: Info, nameOf: Path -> string) {
    && j.name == nameOf(j.drvPath) && j.constituents.None?
    && j.system == info.system && j.outputs == info.outputs && j.inputDrvs == info.inputDrvs
  }

  /** A derivation is added only if it is known, nobody builds it yet, and some output of it is missing or unknown. */
  lemma AdmissibleIff(d: Path, jobs: seq<Job>, g: Graph)
    ensures Admissible(d, jobs, g) <==>
            && d in g.derivations && (forall j :: j in jobs ==> j.drvPath != d)
            && (g.derivations[d].outputs.None? || exists o :: o in g.derivations[d].outputs.value && o in g.invalidOutputs)
  {
  }

  /** The jobs come first; then, once each, exactly the least set of derivations they still need. */
  method Expand(jobs: seq<Job>, g: Graph, nameOf: Path -> string) returns (expanded: seq<Job>)
    ensures jobs <= expanded
    ensures var extra := expanded[|jobs|..];
            && DistinctPaths(extra)
            && LeastClosed(PathsOf(extra), jobs, g)
            && forall j :: j in extra ==> j.drvPath in g.derivations && BuiltFor(j, g.derivations[j.drvPath], nameOf)
  {
    var extra: seq<Job> := [];
    var included := PathsOf(jobs);
    var queued := QueueInputs(jobs);
    ghost var added: set<Path> := {};
    while queued != []
      invariant added == PathsOf(extra) && included == PathsOf(jobs) + added
      invariant DistinctPaths(extra)
      invariant forall j :: j in extra ==> j.drvPath in g.derivations && j == DependencyJob(j.drvPath, g.derivations[j.drvPath], nameOf)
      invariant Frontier(added, queued, jobs, g)
      decreases g.derivations.Keys - included, |queued|
    {
      var d := queued[0];
      if d in included || d !in g.derivations || !ShouldEnqueue(g.derivations[d], g.invalidOutputs) {
        SkipKeeps(added, queued, jobs, g);
        queued := queued[1..];
        continue;
      }
      AddKeeps(added, queued, jobs, g);
      PathsOfAppend(extra, DependencyJob(d, g.derivations[d], nameOf));
      included := included + {d};
      added := added + {d};
      queued := queued[1..] + Inputs(g.derivations[d].inputDrvs);
      extra := extra + [DependencyJob(d, g.derivations[d], nameOf)];
    }
    expanded := jobs + extra;
    assert expanded[|jobs|..] == extra;
  }

  lemma PathsOfAppend(jobs: seq<Job>, j: Job)
    ensures PathsOf(jobs + [j]) == PathsOf(jobs) + {j.drvPath}
  {
    assert forall x :: x in jobs + [j] <==> x in jobs || x == j;
    forall p ensures p in PathsOf(jobs + [j]) <==> p in PathsOf(jobs) + {j.drvPath} {
      if p in PathsOf(jobs) {
        var x :| x in jobs && x.drvPath == p;
        assert x in jobs + [j];
      }
      if p == j.drvPath { assert j in jobs + [j]; }
    }
  }

  /** The set to add is unique, so the result does not depend on the order inputs are visited in. */
  lemma LeastClosedUnique(a: set<Path>, b: set<Path>, jobs: seq<Job>, g: Graph)
    requires LeastClosed(a, jobs, g) && LeastClosed(b, jobs, g)
    ensures a == b
  {
  }

  // ---- the same set, as reachability ----

  /** A path of admissible derivations from an input of some job, each step to an input. */
  ghost predicate Chain(c: seq<Path>, jobs: seq<Job>, g: Graph) {
    && c != []
    && (forall i :: 0 <= i < |c| ==> Admissible(c[i], jobs, g))
    && (exists j :: j in jobs && c[0] in Inputs(j.inputDrvs))
    && (forall i :: 0 < i < |c| ==> c[i] in Inputs(g.derivations[c[i - 1]].inputDrvs))
  }

  ghost predicate Needed(d: Path, jobs: seq<Job>, g: Graph) {
    exists c :: Chain(c, jobs, g) && c[|c| - 1] == d
  }

  lemma {:induction false} ChainStays(c: seq<Path>, t: set<Path>, jobs: seq<Job>, g: Graph)
    requires Chain(c, jobs, g) && Closed(t, jobs, g)
    ensures c[|c| - 1] in t
    decreases |c|
  {
    if |c| > 1 {
      var front := c[..|c| - 1];
      ChainStays(front, t, jobs, g);
      assert c[|c| - 1] in Inputs(g.derivations[front[|front| - 1]].inputDrvs);
    }
  }

  /** What is added is exactly what some job needs through a chain of derivations that must be built. */
  lemma LeastClosedIsNeeded(s: set<Path>, jobs: seq<Job>, g: Graph)
    requires LeastClosed(s, jobs, g)
    ensures forall d :: d in s <==> Needed(d, jobs, g)
  {
    var reach := set d | d in g.derivations && Needed(d, jobs, g);
    forall j, d | j in jobs && d in Inputs(j.inputDrvs) && Admissible(d, jobs, g) ensures d in reach {
      assert Chain([d], jobs, g);
    }
    forall e, d | e in reach && d in Inputs(g.derivations[e].inputDrvs) && Admissible(d, jobs, g) ensures d in reach {
      var c :| Chain(c, jobs, g) && c[|c| - 1] == e;
      assert Chain(c + [d], jobs, g) && (c + [d])[|c|] == d;
    }
    assert Closed(reach, jobs, g);
    forall d | Needed(d, jobs, g) ensures d in s {
      var c :| Chain(c, jobs, g) && c[|c| - 1] == d;
      ChainStays(c, s, jobs, g);
    }
  }
}
