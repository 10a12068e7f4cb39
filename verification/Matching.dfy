/**
 Greedy estimate of how many pending builds the live agents can absorb: requirements and
 free slots are sorted, then each build takes the first remaining slot that supports it.
 */
module Matching {
  import opened Counting
  import opened Orders

  type Features = seq<string>

  /** The part of an agent snapshot that capacity depends on. */
  datatype Agent = Agent(machineId: nat, supported: Features, mandatory: Features, maxJobs: nat, currentJobs: nat)

  datatype Slot = Slot(supported: Features, mandatory: Features, machineId: nat)

  predicate SupportsRequiredFeatures(required: Features, supported: Features, mandatory: Features) {
    && (forall f :: f in required ==> f in supported)
    && (forall f :: f in mandatory ==> f in required)
  }

  predicate Fits(required: Features, slot: Slot) {
    SupportsRequiredFeatures(required, slot.supported, slot.mandatory)
  }

  // ---- sort orders ----

  predicate RequirementLeq(a: Features, b: Features) {
    |a| > |b| || (|a| == |b| && StringsLeq(a, b))
  }

  predicate SlotLeq(a: Slot, b: Slot) {
    if |a.supported| != |b.supported| then |a.supported| < |b.supported|
    else if a.supported != b.supported then StringsLeq(a.supported, b.supported)
    else if a.mandatory != b.mandatory then StringsLeq(a.mandatory, b.mandatory)
    else a.machineId <= b.machineId
  }

  lemma OrdersAreTotal()
    ensures TotalOrder(RequirementLeq)
    ensures TotalOrder(SlotLeq)
  {
    StringsTotalOrder();
  }

  // ---- slots ----

  function Free(a: Agent): nat {
    if a.currentJobs >= a.maxJobs then 0 else a.maxJobs - a.currentJobs
  }

  function Copies(slot: Slot, n: nat): seq<Slot> {
    if n == 0 then [] else Copies(slot, n - 1) + [slot]
  }

  function SlotsOf(agents: seq<Agent>): seq<Slot> {
    if agents == [] then []
    else Copies(SlotFor(agents[0]), Free(agents[0])) + SlotsOf(agents[1..])
  }

  function SlotFor(a: Agent): Slot {
    Slot(a.supported, a.mandatory, a.machineId)
  }

  // ---- matchings ----

  /** Slot `s` supports build `b`. */
  ghost predicate Serves(reqs: seq<Features>, slots: seq<Slot>, b: nat, s: nat) {
    b < |reqs| && s < |slots| && Fits(reqs[b], slots[s])
  }

  /** `m` sends builds numbered `from` and up to distinct slots in `live` that support them. */
  ghost predicate IsMatching(m: map<nat, nat>, reqs: seq<Features>, slots: seq<Slot>, from: nat, live: seq<nat>) {
    && (forall b :: b in m ==> from <= b && m[b] in live && Serves(reqs, slots, b, m[b]))
    && (forall b, c :: b in m && c in m && m[b] == m[c] ==> b == c)
  }

  predicate AllBelow(live: seq<nat>, n: nat) {
    forall i :: 0 <= i < |live| ==> live[i] < n
  }

  /** First position in `live` whose slot supports the requirement, or |live|. */
  function FirstFit(req: Features, slots: seq<Slot>, live: seq<nat>): (pos: nat)
    requires AllBelow(live, |slots|)
    ensures pos <= |live|
    ensures pos < |live| ==> Fits(req, slots[live[pos]])
    ensures forall i :: 0 <= i < pos ==> !Fits(req, slots[live[i]])
  {
    if live == [] || Fits(req, slots[live[0]]) then 0 else 1 + FirstFit(req, slots, live[1..])
  }

  /** The assignment the greedy loop makes for builds `from` and up. */
  function Greedy(reqs: seq<Features>, slots: seq<Slot>, from: nat, live: seq<nat>): map<nat, nat>
    requires from <= |reqs| && AllBelow(live, |slots|)
    decreases |reqs| - from
  {
    if from == |reqs| then map[]
    else
      var pos := FirstFit(reqs[from], slots, live);
      if pos == |live| then Greedy(reqs, slots, from + 1, live)
      else Greedy(reqs, slots, from + 1, RemoveAt(live, pos))[from := live[pos]]
  }

  ghost predicate Distinct(live: seq<nat>) {
    forall i, j :: 0 <= i < j < |live| ==> live[i] != live[j]
  }

  lemma RemoveAtDistinct(live: seq<nat>, pos: nat)
    requires Distinct(live) && pos < |live|
    ensures Distinct(RemoveAt(live, pos))
    ensures forall s :: s in RemoveAt(live, pos) <==> s in live && s != live[pos]
  {
    var r := RemoveAt(live, pos);
    forall s ensures s in r <==> s in live && s != live[pos] {
      if s in live && s != live[pos] {
        var i :| 0 <= i < |live| && live[i] == s;
        assert r[if i < pos then i else i - 1] == s;
      }
    }
  }

  /** The greedy assignment is valid. */
  lemma {:induction false} GreedyIsMatching(reqs: seq<Features>, slots: seq<Slot>, from: nat, live: seq<nat>)
    requires from <= |reqs| && AllBelow(live, |slots|) && Distinct(live)
    ensures IsMatching(Greedy(reqs, slots, from, live), reqs, slots, from, live)
    decreases |reqs| - from
  {
    if from < |reqs| {
      var pos := FirstFit(reqs[from], slots, live);
      if pos == |live| {
        GreedyIsMatching(reqs, slots, from + 1, live);
      } else {
        RemoveAtDistinct(live, pos);
        GreedyIsMatching(reqs, slots, from + 1, RemoveAt(live, pos));
      }
    }
  }

  /** Dropping build `from`, and whichever build holds slot `s`, leaves a matching without them. */
  lemma Without(m: map<nat, nat>, reqs: seq<Features>, slots: seq<Slot>, from: nat, live: seq<nat>, pos: nat)
      returns (rest: map<nat, nat>)
    requires IsMatching(m, reqs, slots, from, live) && Distinct(live) && pos < |live|
    ensures IsMatching(rest, reqs, slots, from + 1, RemoveAt(live, pos))
    ensures rest.Keys <= m.Keys && |m| <= |rest| + 2
  {
    RemoveAtDistinct(live, pos);
    var gone := Holders(m, live[pos]) + {from};
    AtMostOneHolder(m, live[pos]);
    rest := m - gone;
    DropSize(m, gone);
  }

  ghost function Holders(m: map<nat, nat>, s: nat): set<nat> {
    set b | b in m && m[b] == s
  }

  lemma AtMostOneHolder(m: map<nat, nat>, s: nat)
    requires forall b, c :: b in m && c in m && m[b] == m[c] ==> b == c
    ensures |Holders(m, s)| <= 1
  {
    if b :| b in Holders(m, s) { assert Holders(m, s) == {b}; }
  }

  lemma DropSize(m: map<nat, nat>, gone: set<nat>)
    ensures |m| <= |m - gone| + |gone|
  {
    var rest := m - gone;
    assert rest.Keys == m.Keys - gone;
    SubsetSize(m.Keys, rest.Keys + gone);
    assert |rest.Keys + gone| <= |rest.Keys| + |gone|;
    assert |m| == |m.Keys| && |rest| == |rest.Keys|;
  }

  lemma NoneFits(req: Features, slots: seq<Slot>, live: seq<nat>, s: nat)
    requires AllBelow(live, |slots|) && FirstFit(req, slots, live) == |live| && s in live
    ensures !Fits(req, slots[s])
  {
    var i :| 0 <= i < |live| && live[i] == s;
  }

  /** A build no live slot supports is in no matching. */
  lemma UnservableSkipped(m: map<nat, nat>, reqs: seq<Features>, slots: seq<Slot>, from: nat, live: seq<nat>)
    requires from < |reqs| && AllBelow(live, |slots|)
    requires IsMatching(m, reqs, slots, from, live)
    requires FirstFit(reqs[from], slots, live) == |live|
    ensures IsMatching(m, reqs, slots, from + 1, live)
  {
    if from in m { NoneFits(reqs[from], slots, live, m[from]); }
  }

  /** The greedy assignment has at least half the size of any valid assignment. */
  lemma {:induction false} GreedyAtLeastHalf(m: map<nat, nat>, reqs: seq<Features>, slots: seq<Slot>, from: nat, live: seq<nat>)
    requires from <= |reqs| && AllBelow(live, |slots|) && Distinct(live)
    requires IsMatching(m, reqs, slots, from, live)
    ensures |m| <= 2 * |Greedy(reqs, slots, from, live)|
    decreases |reqs| - from
  {
    if from == |reqs| {
      assert m == map[];
    } else {
      var pos := FirstFit(reqs[from], slots, live);
      if pos == |live| {
        UnservableSkipped(m, reqs, slots, from, live);
        GreedyAtLeastHalf(m, reqs, slots, from + 1, live);
      } else {
        var rest := Without(m, reqs, slots, from, live, pos);
        RemoveAtDistinct(live, pos);
        GreedyAtLeastHalf(rest, reqs, slots, from + 1, RemoveAt(live, pos));
        GreedyGains(reqs, slots, from, live);
      }
    }
  }

  lemma GreedyGains(reqs: seq<Features>, slots: seq<Slot>, from: nat, live: seq<nat>)
    requires from < |reqs| && AllBelow(live, |slots|) && Distinct(live)
    requires FirstFit(reqs[from], slots, live) < |live|
    ensures var pos := FirstFit(reqs[from], slots, live);
            |Greedy(reqs, slots, from, live)| == |Greedy(reqs, slots, from + 1, RemoveAt(live, pos))| + 1
  {
    var pos := FirstFit(reqs[from], slots, live);
    var g := Greedy(reqs, slots, from + 1, RemoveAt(live, pos));
    RemoveAtDistinct(live, pos);
    GreedyIsMatching(reqs, slots, from + 1, RemoveAt(live, pos));
    assert from !in g;
    assert g[from := live[pos]].Keys == g.Keys + {from};
  }

  /** Slots later in `live` support whatever an earlier one supports. */
  ghost predicate LaterFitsMore(reqs: seq<Features>, slots: seq<Slot>, live: seq<nat>) {
    forall b: nat, i, j :: 0 <= i < j < |live| && Serves(reqs, slots, b, live[i]) ==> Serves(reqs, slots, b, live[j])
  }

  /**
   Exchange step: when later slots fit more, any matching can be rebuilt, losing at most one
   build, to leave build `from` and the slot greedy gives it to each other.
   */
  lemma Exchange(m: map<nat, nat>, reqs: seq<Features>, slots: seq<Slot>, from: nat, live: seq<nat>, pos: nat)
      returns (rest: map<nat, nat>)
    requires Distinct(live) && LaterFitsMore(reqs, slots, live)
    requires IsMatching(m, reqs, slots, from, live)
    requires pos < |live| && Serves(reqs, slots, from, live[pos])
    requires forall i :: 0 <= i < pos ==> !Serves(reqs, slots, from, live[i])
    ensures IsMatching(rest, reqs, slots, from + 1, RemoveAt(live, pos))
    ensures |m| <= |rest| + 1
  {
    var s := live[pos];
    RemoveAtDistinct(live, pos);
    if q :| q in m && m[q] == s && q != from && from in m {
      rest := Swap(m, reqs, slots, from, live, pos, q);
    } else {
      var gone := if q :| q in m && m[q] == s then q else from;
      rest := m - {gone};
      assert rest.Keys == m.Keys - {gone};
    }
  }

  /** Build q gives up slot `live[pos]` and takes over the slot of build `from`. */
  lemma Swap(m: map<nat, nat>, reqs: seq<Features>, slots: seq<Slot>, from: nat, live: seq<nat>, pos: nat, q: nat)
      returns (rest: map<nat, nat>)
    requires Distinct(live) && LaterFitsMore(reqs, slots, live)
    requires IsMatching(m, reqs, slots, from, live)
    requires pos < |live| && from in m && q in m && q != from && m[q] == live[pos]
    requires forall i :: 0 <= i < pos ==> !Serves(reqs, slots, from, live[i])
    ensures IsMatching(rest, reqs, slots, from + 1, RemoveAt(live, pos))
    ensures |m| <= |rest| + 1
  {
    var i :| 0 <= i < |live| && live[i] == m[from];
    assert i > pos;
    assert Serves(reqs, slots, q, live[pos]) && Serves(reqs, slots, q, live[i]);
    rest := map b | b in m && b != from :: if b == q then m[from] else m[b];
    assert rest.Keys == m.Keys - {from};
    forall b | b in rest ensures rest[b] in RemoveAt(live, pos) {
      RemoveAtDistinct(live, pos);
      assert rest[b] in live && rest[b] != live[pos];
    }
  }

  lemma RemoveAtKeepsOrder(reqs: seq<Features>, slots: seq<Slot>, live: seq<nat>, pos: nat)
    requires pos < |live| && LaterFitsMore(reqs, slots, live)
    ensures LaterFitsMore(reqs, slots, RemoveAt(live, pos))
  {
    var r := RemoveAt(live, pos);
    forall b: nat, i, j | 0 <= i < j < |r| && Serves(reqs, slots, b, r[i]) ensures Serves(reqs, slots, b, r[j]) {
      var i', j' := if i < pos then i else i + 1, if j < pos then j else j + 1;
      assert r[i] == live[i'] && r[j] == live[j'];
    }
  }

  /** With such slots the greedy assignment is maximum. */
  lemma {:induction false} GreedyMaximum(m: map<nat, nat>, reqs: seq<Features>, slots: seq<Slot>, from: nat, live: seq<nat>)
    requires from <= |reqs| && AllBelow(live, |slots|) && Distinct(live) && LaterFitsMore(reqs, slots, live)
    requires IsMatching(m, reqs, slots, from, live)
    ensures |m| <= |Greedy(reqs, slots, from, live)|
    decreases |reqs| - from
  {
    if from == |reqs| {
      assert m == map[];
    } else {
      var pos := FirstFit(reqs[from], slots, live);
      if pos == |live| {
        UnservableSkipped(m, reqs, slots, from, live);
        GreedyMaximum(m, reqs, slots, from + 1, live);
      } else {
        var rest := Exchange(m, reqs, slots, from, live, pos);
        RemoveAtDistinct(live, pos);
        RemoveAtKeepsOrder(reqs, slots, live, pos);
        GreedyMaximum(rest, reqs, slots, from + 1, RemoveAt(live, pos));
        GreedyGains(reqs, slots, from, live);
      }
    }
  }

  // ---- capacity of a snapshot ----

  function AllIndices(n: nat): seq<nat> {
    seq(n, i => i)
  }

  function SortedRequirements(reqs: seq<Features>): seq<Features> {
    Sort(reqs, RequirementLeq)
  }

  function SortedSlots(agents: seq<Agent>): seq<Slot> {
    Sort(SlotsOf(agents), SlotLeq)
  }

  /** The whole estimate, before it is clamped to 32 bits. */
  function Capacity(reqs: seq<Features>, agents: seq<Agent>): nat {
    var slots := SortedSlots(agents);
    |Greedy(SortedRequirements(reqs), slots, 0, AllIndices(|slots|))|
  }

  /** A valid assignment of the given builds to the agents' free slots. */
  ghost predicate IsAssignment(m: map<nat, nat>, reqs: seq<Features>, agents: seq<Agent>) {
    FullMatching(m, reqs, SlotsOf(agents))
  }

  ghost predicate FullMatching(m: map<nat, nat>, reqs: seq<Features>, slots: seq<Slot>) {
    IsMatching(m, reqs, slots, 0, AllIndices(|slots|))
  }

  // ---- matchings under permutation ----

  /** `p` tells where each element of `xs` sits in `ys`. */
  ghost predicate Sends<T>(p: seq<nat>, xs: seq<T>, ys: seq<T>) {
    |p| == |xs| && Distinct(p) && forall i :: 0 <= i < |p| ==> p[i] < |ys| && ys[p[i]] == xs[i]
  }

  lemma {:induction false} PermutationSends<T>(xs: seq<T>, ys: seq<T>) returns (p: seq<nat>)
    requires multiset(xs) == multiset(ys)
    ensures Sends(p, xs, ys)
  {
    if xs == [] {
      p := [];
    } else {
      var j := HeadIn(xs, ys);
      var q := PermutationSends(xs[1..], RemoveAt(ys, j));
      p := [j] + seq(|q|, i requires 0 <= i < |q| => if q[i] < j then q[i] else q[i] + 1);
      forall i | 0 < i < |p| ensures p[i] < |ys| && ys[p[i]] == xs[i] && p[i] != j {
        assert RemoveAt(ys, j)[q[i - 1]] == xs[1..][i - 1];
      }
    }
  }

  /** Rename builds by `p` and slots by `q`. */
  lemma {:induction false} Relabel(m: map<nat, nat>, p: seq<nat>, q: seq<nat>) returns (r: map<nat, nat>)
    requires Distinct(p) && forall b :: b in m ==> b < |p| && m[b] < |q|
    ensures |r| == |m|
    ensures forall c :: c in r ==> exists b :: b in m && c == p[b] && r[c] == q[m[b]]
    decreases |m|
  {
    if m == map[] {
      r := map[];
    } else {
      var b :| b in m;
      var rest := m - {b};
      assert m.Keys == rest.Keys + {b};
      r := Relabel(rest, p, q);
      assert p[b] !in r;
      r := r[p[b] := q[m[b]]];
    }
  }

  /** A matching survives any reordering of builds and slots. */
  lemma Transport(m: map<nat, nat>, xs: seq<Features>, slots: seq<Slot>, ys: seq<Features>, tslots: seq<Slot>)
      returns (r: map<nat, nat>)
    requires multiset(xs) == multiset(ys) && multiset(slots) == multiset(tslots) && FullMatching(m, xs, slots)
    ensures FullMatching(r, ys, tslots) && |r| == |m|
  {
    var p := PermutationSends(xs, ys);
    var q := PermutationSends(slots, tslots);
    assert forall b :: b in m ==> Serves(xs, slots, b, m[b]);
    r := Relabel(m, p, q);
    forall c | c in r ensures r[c] in AllIndices(|tslots|) && Serves(ys, tslots, c, r[c]) {
      var b :| b in m && c == p[b] && r[c] == q[m[b]];
      assert AllIndices(|tslots|)[r[c]] == r[c];
    }
    forall c, d | c in r && d in r && r[c] == r[d] ensures c == d {
      var b :| b in m && c == p[b] && r[c] == q[m[b]];
      var e :| e in m && d == p[e] && r[d] == q[m[e]];
      assert m[b] == m[e];
    }
  }

  lemma SortedPermutes(reqs: seq<Features>, agents: seq<Agent>)
    ensures multiset(SortedRequirements(reqs)) == multiset(reqs)
    ensures multiset(SortedSlots(agents)) == multiset(SlotsOf(agents))
    ensures Sorted(SortedSlots(agents), SlotLeq)
  {
    OrdersAreTotal();
    SortCorrect(reqs, RequirementLeq);
    SortCorrect(SlotsOf(agents), SlotLeq);
  }

  /** Capacity is the size of some valid assignment and at least half the size of every one. */
  lemma CapacityBounds(reqs: seq<Features>, agents: seq<Agent>)
    ensures exists m :: IsAssignment(m, reqs, agents) && |m| == Capacity(reqs, agents)
    ensures forall m :: IsAssignment(m, reqs, agents) ==> |m| <= 2 * Capacity(reqs, agents)
  {
    var rs, slots := SortedRequirements(reqs), SortedSlots(agents);
    var ids := AllIndices(|slots|);
    SortedPermutes(reqs, agents);
    GreedyIsMatching(rs, slots, 0, ids);
    var best := Transport(Greedy(rs, slots, 0, ids), rs, slots, reqs, SlotsOf(agents));
    assert IsAssignment(best, reqs, agents);
    forall m | IsAssignment(m, reqs, agents) ensures |m| <= 2 * Capacity(reqs, agents) {
      var r := Transport(m, reqs, SlotsOf(agents), rs, slots);
      GreedyAtLeastHalf(r, rs, slots, 0, ids);
    }
  }

  ghost function ToSet(fs: Features): set<string> {
    set f | f in fs
  }

  /** Feature lists without duplicates, nested by inclusion, and no mandatory features. */
  ghost predicate Nested(slots: seq<Slot>) {
    && (forall i :: 0 <= i < |slots| ==> slots[i].mandatory == [] && |ToSet(slots[i].supported)| == |slots[i].supported|)
    && (forall i, j :: 0 <= i < |slots| && 0 <= j < |slots| ==>
          ToSet(slots[i].supported) <= ToSet(slots[j].supported) || ToSet(slots[j].supported) <= ToSet(slots[i].supported))
  }

  lemma NestedSortedFitsMore(reqs: seq<Features>, slots: seq<Slot>)
    requires Nested(slots) && Sorted(slots, SlotLeq)
    ensures LaterFitsMore(reqs, slots, AllIndices(|slots|))
  {
    var ids := AllIndices(|slots|);
    forall b: nat, i, j | 0 <= i < j < |ids| && Serves(reqs, slots, b, ids[i]) ensures Serves(reqs, slots, b, ids[j]) {
      var x, y := ToSet(slots[i].supported), ToSet(slots[j].supported);
      assert SlotLeq(slots[i], slots[j]) && |x| <= |y|;
      assert x <= y by {
        if y <= x { SubsetEqual(y, x); }
      }
      forall f | f in reqs[b] ensures f in slots[j].supported { assert f in x; }
    }
  }

  lemma SubsetEqual<T>(a: set<T>, b: set<T>)
    requires a <= b && |b| <= |a|
    ensures a == b
  {
    assert b == a + (b - a);
  }

  lemma NestedPermutation(a: seq<Slot>, b: seq<Slot>)
    requires multiset(a) == multiset(b) && Nested(a)
    ensures Nested(b)
  {
    forall i | 0 <= i < |b| ensures exists k :: 0 <= k < |a| && a[k] == b[i] {
      assert b[i] in multiset(a);
    }
  }

  /** For agents whose feature lists are nested that way, capacity is the best possible. */
  lemma CapacityMaximumWhenNested(reqs: seq<Features>, agents: seq<Agent>)
    requires Nested(SlotsOf(agents))
    ensures forall m :: IsAssignment(m, reqs, agents) ==> |m| <= Capacity(reqs, agents)
  {
    var rs, slots := SortedRequirements(reqs), SortedSlots(agents);
    SortedPermutes(reqs, agents);
    NestedPermutation(SlotsOf(agents), slots);
    NestedSortedFitsMore(rs, slots);
    forall m | IsAssignment(m, reqs, agents) ensures |m| <= Capacity(reqs, agents) {
      var r := Transport(m, reqs, SlotsOf(agents), rs, slots);
      GreedyMaximum(r, rs, slots, 0, AllIndices(|slots|));
    }
  }

  /** Without nesting the factor two is reached: one build served where two could be. */
  lemma HalfIsTight() returns (reqs: seq<Features>, slots: seq<Slot>, m: map<nat, nat>)
    ensures Sorted(reqs, RequirementLeq) && Sorted(slots, SlotLeq)
    ensures IsMatching(m, reqs, slots, 0, AllIndices(|slots|)) && |m| == 2
    ensures |Greedy(reqs, slots, 0, AllIndices(|slots|))| == 1
  {
    reqs := [["a"], ["b"]];
    slots := [Slot(["a", "b"], [], 0), Slot(["a", "c", "d"], [], 1)];
    m := map[0 := 1, 1 := 0];
    assert Sorted(reqs, RequirementLeq) by { assert StringLeq("a", "b"); }
    assert Fits(reqs[0], slots[0]) && Fits(reqs[0], slots[1]) && Fits(reqs[1], slots[0]);
    assert !Fits(reqs[1], slots[1]) by { assert "b" in reqs[1] && "b" !in slots[1].supported; }
    assert m.Keys == {0, 1};
    assert AllIndices(|slots|) == [0, 1];
    GreedyTakesOne(reqs, slots);
  }

  /** The first build takes the only slot the second could use. */
  lemma GreedyTakesOne(reqs: seq<Features>, slots: seq<Slot>)
    requires |reqs| == 2 && |slots| == 2 && Fits(reqs[0], slots[0]) && !Fits(reqs[1], slots[1])
    ensures |Greedy(reqs, slots, 0, [0, 1])| == 1
  {
    var ids: seq<nat> := [0, 1];
    var one := RemoveAt(ids, 0);
    assert FirstFit(reqs[0], slots, ids) == 0;
    assert one == [1] && FirstFit(reqs[1], slots, one) == |one|;
    var rest := Greedy(reqs, slots, 1, one);
    assert rest == Greedy(reqs, slots, 2, one) == map[];
    assert Greedy(reqs, slots, 0, ids) == rest[0 := ids[0]] == map[0 := 0];
  }

  // ---- what the estimate is made of ----

  /** A slot serves a build that needs nothing it lacks and everything it insists on. */
  lemma FitsIff(required: Features, slot: Slot)
    ensures Fits(required, slot) <==> ToSet(slot.mandatory) <= ToSet(required) <= ToSet(slot.supported)
  {
    if ToSet(slot.mandatory) <= ToSet(required) <= ToSet(slot.supported) {
      forall f | f in required ensures f in slot.supported { assert f in ToSet(required); }
      forall f | f in slot.mandatory ensures f in required { assert f in ToSet(slot.mandatory); }
    }
  }

  /** The most constrained builds choose first, among the least capable slots first. */
  lemma ConstrainedFirst(reqs: seq<Features>, agents: seq<Agent>)
    ensures var rs := SortedRequirements(reqs); forall i, j :: 0 <= i < j < |rs| ==> |rs[i]| >= |rs[j]|
    ensures var slots := SortedSlots(agents); forall i, j :: 0 <= i < j < |slots| ==> |slots[i].supported| <= |slots[j].supported|
  {
    OrdersAreTotal();
    SortCorrect(reqs, RequirementLeq);
    SortedPermutes(reqs, agents);
    var rs, slots := SortedRequirements(reqs), SortedSlots(agents);
    forall i, j | 0 <= i < j < |rs| ensures |rs[i]| >= |rs[j]| { assert RequirementLeq(rs[i], rs[j]); }
    forall i, j | 0 <= i < j < |slots| ensures |slots[i].supported| <= |slots[j].supported| { assert SlotLeq(slots[i], slots[j]); }
  }

  // ---- order independence ----

  ghost function OwnSlots(a: Agent): multiset<Slot> {
    multiset(Copies(SlotFor(a), Free(a)))
  }

  ghost function AllSlots(a: seq<Agent>): multiset<Slot> {
    multiset(SlotsOf(a))
  }

  lemma SlotsOfHead(a: seq<Agent>)
    requires a != []
    ensures AllSlots(a) == OwnSlots(a[0]) + AllSlots(a[1..])
  {
  }

  /** Of three shares, the first two may be taken in either order. */
  lemma Regroup<T>(whole: multiset<T>, tail: multiset<T>, r: multiset<T>, head: multiset<T>, own: multiset<T>, rest: multiset<T>)
    requires whole == head + tail && tail == own + rest && r == head + rest
    ensures whole == own + r
  {
  }

  /** Each agent contributes its own slots, wherever it stands in the snapshot. */
  lemma {:induction false} SlotsOfRemove(a: seq<Agent>, j: nat)
    requires j < |a|
    ensures AllSlots(a) == OwnSlots(a[j]) + AllSlots(RemoveAt(a, j))
  {
    SlotsOfHead(a);
    if j == 0 {
      assert RemoveAt(a, 0) == a[1..];
    } else {
      var r, rest := RemoveAt(a, j), RemoveAt(a[1..], j - 1);
      SlotsOfRemove(a[1..], j - 1);
      RemoveAtTail(a, j);
      SlotsOfHead(r);
      Regroup(AllSlots(a), AllSlots(a[1..]), AllSlots(r), OwnSlots(a[0]), OwnSlots(a[j]), AllSlots(rest));
    }
  }

  lemma {:induction false} SlotsOfPermutation(a: seq<Agent>, b: seq<Agent>)
    requires multiset(a) == multiset(b)
    ensures AllSlots(a) == AllSlots(b)
    decreases |a|
  {
    if a == [] {
      assert |multiset(b)| == 0;
    } else {
      var j := HeadIn(a, b);
      SlotsOfPermutation(a[1..], RemoveAt(b, j));
      SlotsOfHead(a);
      SlotsOfRemove(b, j);
    }
  }

  lemma {:induction false} CopiesCount(slot: Slot, n: nat)
    ensures multiset(Copies(slot, n))[slot] == n && forall s :: s in Copies(slot, n) ==> s == slot
  {
    if n == 0 {
    } else {
      CopiesCount(slot, n - 1);
    }
  }

  lemma {:induction false} SlotsComeFromAgents(agents: seq<Agent>, s: Slot)
    requires s in SlotsOf(agents)
    ensures exists a :: a in agents && a.currentJobs < a.maxJobs && s == Slot(a.supported, a.mandatory, a.machineId)
  {
    var head := Copies(SlotFor(agents[0]), Free(agents[0]));
    CopiesCount(SlotFor(agents[0]), Free(agents[0]));
    if s in head {
      assert agents[0] in agents;
    } else {
      SlotsComeFromAgents(agents[1..], s);
      assert forall a :: a in agents[1..] ==> a in agents;
    }
  }

  /** An agent contributes as many slots as jobs it can still take, and none when it is full. */
  lemma SlotsOfAgent(agents: seq<Agent>, j: nat)
    requires j < |agents| && forall i, k :: 0 <= i < k < |agents| ==> agents[i].machineId != agents[k].machineId
    ensures var a := agents[j];
            multiset(SlotsOf(agents))[Slot(a.supported, a.mandatory, a.machineId)] ==
            if a.currentJobs < a.maxJobs then a.maxJobs - a.currentJobs else 0
  {
    var a, rest, slot := agents[j], RemoveAt(agents, j), SlotFor(agents[j]);
    SlotsOfRemove(agents, j);
    CopiesCount(slot, Free(a));
    if slot in SlotsOf(rest) {
      SlotsComeFromAgents(rest, slot);
      var b :| b in rest && slot == Slot(b.supported, b.mandatory, b.machineId);
      OtherAgentsDiffer(agents, j, b);
    }
  }

  lemma OtherAgentsDiffer(agents: seq<Agent>, j: nat, b: Agent)
    requires j < |agents| && forall i, k :: 0 <= i < k < |agents| ==> agents[i].machineId != agents[k].machineId
    requires b in RemoveAt(agents, j)
    ensures b.machineId != agents[j].machineId
  {
    var i :| 0 <= i < |RemoveAt(agents, j)| && RemoveAt(agents, j)[i] == b;
    assert b == agents[if i < j then i else i + 1];
  }

  /** Capacity does not depend on the order of the pending builds or of the agent snapshot. */
  lemma CapacityForgetsOrder(rs1: seq<Features>, rs2: seq<Features>, as1: seq<Agent>, as2: seq<Agent>)
    requires multiset(rs1) == multiset(rs2) && multiset(as1) == multiset(as2)
    ensures Capacity(rs1, as1) == Capacity(rs2, as2)
  {
    OrdersAreTotal();
    SlotsOfPermutation(as1, as2);
    SortForgetsOrder(rs1, rs2, RequirementLeq);
    SortForgetsOrder(SlotsOf(as1), SlotsOf(as2), SlotLeq);
  }

  // ---- the loop that computes it ----

  method ExpandSlots(agents: seq<Agent>) returns (slots: seq<Slot>)
    ensures slots == SlotsOf(agents)
  {
    slots := [];
    for i := 0 to |agents|
      invariant slots + SlotsOf(agents[i..]) == SlotsOf(agents)
    {
      var agent := agents[i];
      ghost var before := slots;
      for k := 0 to Free(agent)
        invariant slots == before + Copies(SlotFor(agent), k)
      {
        slots := slots + [SlotFor(agent)];
      }
      assert agents[i..][1..] == agents[i + 1..];
    }
  }

  /** First free slot that supports the build, if any. */
  method FindSlot(required: Features, slots: seq<Slot>) returns (pos: nat)
    ensures pos <= |slots| && (pos < |slots| ==> Fits(required, slots[pos]))
    ensures forall i :: 0 <= i < pos ==> !Fits(required, slots[i])
  {
    pos := 0;
    while pos < |slots| && !Fits(required, slots[pos])
      invariant pos <= |slots|
      invariant forall i :: 0 <= i < pos ==> !Fits(required, slots[i])
    {
      pos := pos + 1;
    }
  }

  /** `slots` lists the slots of `sorted` numbered by `live`. */
  ghost predicate Lists(slots: seq<Slot>, sorted: seq<Slot>, live: seq<nat>) {
    && AllBelow(live, |sorted|) && Distinct(live) && |slots| == |live|
    && forall i :: 0 <= i < |live| ==> slots[i] == sorted[live[i]]
  }

  lemma ListsRemoveAt(slots: seq<Slot>, sorted: seq<Slot>, live: seq<nat>, pos: nat)
    requires Lists(slots, sorted, live) && pos < |live|
    ensures Lists(RemoveAt(slots, pos), sorted, RemoveAt(live, pos))
  {
    RemoveAtDistinct(live, pos);
  }

  method LiveCapacity(reqs: seq<Features>, agents: seq<Agent>) returns (capacity: nat)
    ensures capacity == if Capacity(reqs, agents) <= U32_MAX then Capacity(reqs, agents) else U32_MAX
  {
    var expanded := ExpandSlots(agents);
    var required, slots := Sort(reqs, RequirementLeq), Sort(expanded, SlotLeq);
    capacity := TakeSlots(required, slots);
  }

  /** The matching loop: each build takes the first slot left that supports it. */
  method TakeSlots(required: seq<Features>, sorted: seq<Slot>) returns (capacity: nat)
    ensures var n := |Greedy(required, sorted, 0, AllIndices(|sorted|))|;
            capacity == if n <= U32_MAX then n else U32_MAX
  {
    var slots := sorted;
    ghost var live := AllIndices(|sorted|);
    ghost var taken := 0;
    capacity := 0;
    for k := 0 to |required|
      invariant Lists(slots, sorted, live)
      invariant taken + |Greedy(required, sorted, k, live)| == |Greedy(required, sorted, 0, AllIndices(|sorted|))|
      invariant capacity == if taken <= U32_MAX then taken else U32_MAX
    {
      var pos := FindSlot(required[k], slots);
      assert pos == FirstFit(required[k], sorted, live);
      if pos < |slots| {
        GreedyGains(required, sorted, k, live);
        ListsRemoveAt(slots, sorted, live, pos);
        slots, live := RemoveAt(slots, pos), RemoveAt(live, pos);
        taken := taken + 1;
        capacity := if capacity < U32_MAX then capacity + 1 else U32_MAX;
      }
    }
  }
}
