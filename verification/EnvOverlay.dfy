/** The environment layer: CIRCUS_A__B=v sets key a.b of the configuration table. */
module EnvOverlay {
  import opened Orders
  import opened Toml

  const PREFIX: string := "CIRCUS_"

  /** Parsed environment values are scalars or arrays, never tables. */
  type Leaf = v: Value | !v.Table? witness Bool(true)

  datatype EnvVar = EnvVar(key: string, value: string)

  function SetNested(table: Value, segments: seq<string>, value: Value): Value
    decreases segments, 1
  {
    if segments == [] || !table.Table? then table
    else Table(table.entries[segments[0] := NewEntry(table, segments, value)])
  }

  /** What a write leaves under the first segment: the value itself, or the updated child table. */
  function NewEntry(table: Value, segments: seq<string>, value: Value): Value
    requires segments != [] && table.Table?
    decreases segments, 0
  {
    if |segments| == 1 then value else SetNested(Child(table, segments[0]), segments[1..], value)
  }

  /** The entry a nested write descends into; a missing one starts as an empty table. */
  function Child(table: Value, key: string): Value
    requires table.Table?
  {
    if key in table.entries then table.entries[key] else Table(map[])
  }

  /** Split at each "__", left to right. */
  function Split(s: string): (parts: seq<string>)
    ensures |parts| > 0
    decreases |s|
  {
    var i := FindSeparator(s);
    if i == |s| then [s] else [s[..i]] + Split(s[i + 2..])
  }

  function FindSeparator(s: string): (i: nat)
    ensures i <= |s|
    ensures i < |s| ==> i + 1 < |s| && s[i] == '_' && s[i + 1] == '_'
    ensures forall j :: 0 <= j < i && j + 1 < |s| ==> !(s[j] == '_' && s[j + 1] == '_')
  {
    if |s| < 2 then |s|
    else if s[0] == '_' && s[1] == '_' then 0
    else
      var r := FindSeparator(s[1..]);
      assert forall j :: 1 <= j < |s| ==> s[1..][j - 1] == s[j];
      r + 1
  }

  function Lower(s: string): string {
    seq(|s|, i requires 0 <= i < |s| => if 'A' <= s[i] <= 'Z' then s[i] + (32 as char) else s[i])
  }

  predicate Applies(v: EnvVar) {
    PREFIX <= v.key && v.key[|PREFIX|..] != "CONFIG_FILE" && v.value != ""
  }

  function PathOf(v: EnvVar): (path: seq<string>)
    requires Applies(v)
  {
    var parts := Split(v.key[|PREFIX|..]);
    seq(|parts|, i requires 0 <= i < |parts| => Lower(parts[i]))
  }

  function ApplyOne(table: Value, v: EnvVar, parse: string -> Leaf): Value {
    if Applies(v) then SetNested(table, PathOf(v), parse(v.value)) else table
  }

  function ApplyAll(table: Value, vars: seq<EnvVar>, parse: string -> Leaf): Value
    decreases |vars|
  {
    if vars == [] then table else ApplyAll(ApplyOne(table, vars[0], parse), vars[1..], parse)
  }

  method ApplyEnvVars(table: Value, vars: seq<EnvVar>, parse: string -> Leaf) returns (t: Value)
    ensures t == ApplyAll(table, vars, parse)
  {
    t := table;
    for i := 0 to |vars|
      invariant ApplyAll(t, vars[i..], parse) == ApplyAll(table, vars, parse)
    {
      var v := vars[i];
      assert vars[i..][1..] == vars[i + 1..];
      if !(PREFIX <= v.key) { continue; }
      var rest := v.key[|PREFIX|..];
      if rest == "CONFIG_FILE" || v.value == "" { continue; }
      t := SetNested(t, PathOf(v), parse(v.value));
    }
  }

  /** What a write does to the entry under its first segment, and that it leaves the others alone. */
  lemma AfterWrite(t: Value, p: seq<string>, v: Value, key: string)
    requires t.Table? && p != []
    ensures Child(SetNested(t, p, v), key) == if key == p[0] then NewEntry(t, p, v) else Child(t, key)
  {
  }

  /** Two writes below the same first segment, one after the other, leave the same entry there. */
  lemma {:induction false} SharedEntry(t: Value, p: seq<string>, v: Value, q: seq<string>, w: Value)
    requires t.Table? && p != q && p != [] && q != [] && p[0] == q[0]
    requires p <= q ==> !v.Table?
    requires q <= p ==> !w.Table?
    ensures NewEntry(SetNested(t, p, v), q, w) == NewEntry(SetNested(t, q, w), p, v)
    decreases p, 0
  {
    AfterWrite(t, p, v, p[0]);
    AfterWrite(t, q, w, p[0]);
    assert p == [p[0]] + p[1..] && q == [q[0]] + q[1..];
    if |p| > 1 && |q| > 1 {
      assert p[1..] <= q[1..] ==> p <= q;
      assert q[1..] <= p[1..] ==> q <= p;
      WritesCommute(Child(t, p[0]), p[1..], v, q[1..], w);
    } else if |p| == 1 {
      assert p <= q;
    } else {
      assert q <= p;
    }
  }

  lemma DistinctEntries(t: Value, p: seq<string>, v: Value, q: seq<string>, w: Value)
    requires t.Table? && p != [] && q != [] && p[0] != q[0]
    ensures NewEntry(SetNested(t, p, v), q, w) == NewEntry(t, q, w)
    ensures NewEntry(SetNested(t, q, w), p, v) == NewEntry(t, p, v)
  {
    AfterWrite(t, p, v, q[0]);
    AfterWrite(t, q, w, p[0]);
  }

  lemma UpdatesCommute(m: map<string, Value>, k: string, a: Value, y: Value, l: string, b: Value, x: Value)
    requires if k == l then x == y else x == b && y == a
    ensures m[k := a][l := x] == m[l := b][k := y]
  {
  }

  lemma TwoWrites(t: Value, p: seq<string>, v: Value, q: seq<string>, w: Value)
    requires t.Table? && p != [] && q != []
    ensures SetNested(SetNested(t, p, v), q, w) ==
            Table(t.entries[p[0] := NewEntry(t, p, v)][q[0] := NewEntry(SetNested(t, p, v), q, w)])
  {
  }

  /** Writes to different paths commute, unless one writes a table above the other. */
  lemma {:induction false} WritesCommute(t: Value, p: seq<string>, v: Value, q: seq<string>, w: Value)
    requires p != q
    requires p <= q ==> !v.Table?
    requires q <= p ==> !w.Table?
    ensures SetNested(SetNested(t, p, v), q, w) == SetNested(SetNested(t, q, w), p, v)
    decreases p, 1
  {
    if t.Table? && p != [] && q != [] {
      if p[0] == q[0] { SharedEntry(t, p, v, q, w); } else { DistinctEntries(t, p, v, q, w); }
      TwoWrites(t, p, v, q, w);
      TwoWrites(t, q, w, p, v);
      UpdatesCommute(t.entries, p[0], NewEntry(t, p, v), NewEntry(SetNested(t, q, w), p, v),
                     q[0], NewEntry(t, q, w), NewEntry(SetNested(t, p, v), q, w));
    }
  }

  /** Writes to the same path do not commute: the last one wins. */
  lemma {:induction false} LastWriteWins(t: Value, p: seq<string>, v: Value, w: Value)
    ensures SetNested(SetNested(t, p, v), p, w) == SetNested(t, p, w)
    decreases p
  {
    if t.Table? && p != [] {
      TwoWrites(t, p, v, p, w);
      AfterWrite(t, p, v, p[0]);
      if |p| > 1 { LastWriteWins(Child(t, p[0]), p[1..], v, w); }
      assert NewEntry(SetNested(t, p, v), p, w) == NewEntry(t, p, w);
    }
  }

  /** A write to this path takes effect: nothing but tables, or nothing at all, on the way. */
  predicate Writable(t: Value, p: seq<string>)
    decreases p
  {
    t.Table? && p != [] && (|p| == 1 || Writable(Child(t, p[0]), p[1..]))
  }

  /** Two values written to one path can be told apart exactly when they differ and the write takes effect. */
  lemma {:induction false} SameWriteIff(t: Value, p: seq<string>, v: Value, w: Value)
    ensures SetNested(t, p, v) == SetNested(t, p, w) <==> v == w || !Writable(t, p)
    decreases p
  {
    if t.Table? && p != [] {
      if |p| > 1 { SameWriteIff(Child(t, p[0]), p[1..], v, w); }
      EntryDecides(t, p, v, w);
    }
  }

  lemma EntryDecides(t: Value, p: seq<string>, v: Value, w: Value)
    requires t.Table? && p != []
    ensures SetNested(t, p, v) == SetNested(t, p, w) <==> NewEntry(t, p, v) == NewEntry(t, p, w)
  {
    AfterWrite(t, p, v, p[0]);
    AfterWrite(t, p, w, p[0]);
  }

  /** Two environment writes commute exactly when their paths differ, their values agree, or neither takes effect. */
  lemma WritesCommuteIff(t: Value, p: seq<string>, v: Leaf, q: seq<string>, w: Leaf)
    ensures SetNested(SetNested(t, p, v), q, w) == SetNested(SetNested(t, q, w), p, v) <==>
            p != q || v == w || !Writable(t, p)
  {
    if p != q {
      WritesCommute(t, p, v, q, w);
    } else {
      LastWriteWins(t, p, v, w);
      LastWriteWins(t, p, w, v);
      SameWriteIff(t, p, v, w);
    }
  }

  /** One of two variables is skipped, or they name different paths, or they give one path one value. */
  predicate Independent(x: EnvVar, y: EnvVar, parse: string -> Leaf) {
    Applies(x) && Applies(y) ==> PathOf(x) != PathOf(y) || parse(x.value) == parse(y.value)
  }

  /** The order of two variables is irrelevant exactly when they are independent or their path cannot be written. */
  lemma OneByOneCommuteIff(t: Value, x: EnvVar, y: EnvVar, parse: string -> Leaf)
    ensures ApplyOne(ApplyOne(t, x, parse), y, parse) == ApplyOne(ApplyOne(t, y, parse), x, parse) <==>
            Independent(x, y, parse) || !Writable(t, PathOf(x))
  {
    if Applies(x) && Applies(y) {
      WritesCommuteIff(t, PathOf(x), parse(x.value), PathOf(y), parse(y.value));
    }
  }

  /** Keys that differ only in case name one path. */
  lemma CaseDecidesOrder(parse: string -> Leaf)
    requires parse("1") != parse("2")
    ensures var x, y, t := EnvVar("CIRCUS_A", "1"), EnvVar("CIRCUS_a", "2"), Table(map[]);
            ApplyOne(ApplyOne(t, x, parse), y, parse) != ApplyOne(ApplyOne(t, y, parse), x, parse)
  {
    var x, y, t := EnvVar("CIRCUS_A", "1"), EnvVar("CIRCUS_a", "2"), Table(map[]);
    assert x.key[|PREFIX|..] == "A" && y.key[|PREFIX|..] == "a";
    assert Split("A") == ["A"] && Split("a") == ["a"];
    assert Lower("A") == "a" == Lower("a");
    assert PathOf(x) == ["a"] == PathOf(y);
    OneByOneCommuteIff(t, x, y, parse);
  }

  ghost predicate AllIndependent(vars: seq<EnvVar>, parse: string -> Leaf) {
    forall x, y :: x in vars && y in vars ==> Independent(x, y, parse)
  }

  /** A variable may be moved to the front of the ones it is independent of. */
  lemma {:induction false} MoveToFront(t: Value, vars: seq<EnvVar>, j: nat, parse: string -> Leaf)
    requires j < |vars| && AllIndependent(vars, parse)
    ensures ApplyAll(t, vars, parse) == ApplyAll(ApplyOne(t, vars[j], parse), RemoveAt(vars, j), parse)
    decreases j
  {
    if j == 0 {
      assert RemoveAt(vars, 0) == vars[1..];
    } else {
      var rest, others := vars[1..], RemoveAt(vars, j);
      MoveToFront(ApplyOne(t, vars[0], parse), rest, j - 1, parse);
      assert RemoveAt(rest, j - 1) == others[1..];
      OneByOneCommuteIff(t, vars[0], vars[j], parse);
    }
  }

  lemma IndependentPermuted(xs: seq<EnvVar>, ys: seq<EnvVar>, parse: string -> Leaf)
    requires multiset(xs) == multiset(ys) && AllIndependent(xs, parse)
    ensures AllIndependent(ys, parse)
  {
    forall x, y | x in ys && y in ys ensures Independent(x, y, parse) {
      assert x in multiset(xs) && y in multiset(xs);
    }
  }

  /** The environment's iteration order does not matter when no two variables give one path two values. */
  lemma {:induction false} EnvOrderIrrelevant(t: Value, xs: seq<EnvVar>, ys: seq<EnvVar>, parse: string -> Leaf)
    requires multiset(xs) == multiset(ys) && AllIndependent(xs, parse)
    ensures ApplyAll(t, xs, parse) == ApplyAll(t, ys, parse)
    decreases |xs|
  {
    if xs == [] {
      assert |multiset(ys)| == 0;
    } else {
      var j := HeadIn(xs, ys);
      IndependentPermuted(xs, ys, parse);
      MoveToFront(t, ys, j, parse);
      EnvOrderIrrelevant(ApplyOne(t, xs[0], parse), xs[1..], RemoveAt(ys, j), parse);
    }
  }

  // ---- what one variable does ----

  /** Exactly the prefixed variables with a value count, except the one that names the config file. */
  lemma AppliesIff(v: EnvVar)
    ensures Applies(v) <==> "CIRCUS_" <= v.key && v.key != "CIRCUS_CONFIG_FILE" && v.value != ""
  {
    if PREFIX <= v.key {
      assert v.key == PREFIX + v.key[|PREFIX|..];
      assert "CIRCUS_CONFIG_FILE" == PREFIX + "CONFIG_FILE";
      assert "CIRCUS_CONFIG_FILE"[|PREFIX|..] == "CONFIG_FILE";
    }
  }

  function Join(parts: seq<string>): string
    requires parts != []
  {
    if |parts| == 1 then parts[0] else parts[0] + "__" + Join(parts[1..])
  }

  predicate HasSeparator(s: string) {
    exists j :: 0 <= j < |s| - 1 && s[j] == '_' && s[j + 1] == '_'
  }

  /** Splitting loses nothing, keeps the order, and leaves no separator behind. */
  lemma {:induction false} SplitJoins(s: string)
    ensures Join(Split(s)) == s && forall i :: 0 <= i < |Split(s)| ==> !HasSeparator(Split(s)[i])
    decreases |s|
  {
    var i := FindSeparator(s);
    if i == |s| {
    } else {
      var rest := Split(s[i + 2..]);
      SplitJoins(s[i + 2..]);
      assert ([s[..i]] + rest)[1..] == rest;
      assert s == s[..i] + "__" + s[i + 2..];
      assert !HasSeparator(s[..i]);
    }
  }

  function LowerAll(parts: seq<string>): seq<string> {
    seq(|parts|, i requires 0 <= i < |parts| => Lower(parts[i]))
  }

  lemma {:induction false} LowerJoins(parts: seq<string>)
    requires parts != []
    ensures Join(LowerAll(parts)) == Lower(Join(parts))
  {
    if |parts| == 1 {
    } else {
      LowerJoins(parts[1..]);
      assert LowerAll(parts)[1..] == LowerAll(parts[1..]);
      assert Lower("__") == "__";
      assert Lower(parts[0] + "__" + Join(parts[1..])) == Lower(parts[0]) + Lower("__") + Lower(Join(parts[1..]));
    }
  }

  /** The path, its segments joined again, is the rest of the key in lower case. */
  lemma PathSpellsKey(v: EnvVar)
    requires Applies(v)
    ensures PathOf(v) != [] && Join(PathOf(v)) == Lower(v.key[7..])
  {
    var parts := Split(v.key[|PREFIX|..]);
    SplitJoins(v.key[|PREFIX|..]);
    LowerJoins(parts);
    assert PathOf(v) == LowerAll(parts);
  }

  /** A write that takes effect is what is read back. */
  lemma {:induction false} WriteReadsBack(t: Value, p: seq<string>, v: Value)
    requires Writable(t, p)
    ensures Lookup(SetNested(t, p, v), p) == Found(v)
    decreases p
  {
    AfterWrite(t, p, v, p[0]);
    var u := SetNested(t, p, v);
    assert p[0] in u.entries && Lookup(u, p) == Lookup(u.entries[p[0]], p[1..]);
    if |p| > 1 { WriteReadsBack(Child(t, p[0]), p[1..], v); }
  }

  /** One that does not changes nothing at all. */
  lemma {:induction false} BlockedWriteKeeps(t: Value, p: seq<string>, v: Value)
    requires !Writable(t, p)
    ensures SetNested(t, p, v) == t
    decreases p
  {
    if t.Table? && p != [] {
      BlockedWriteKeeps(Child(t, p[0]), p[1..], v);
      if p[0] !in t.entries {
        MissingIsWritable(p[1..]);
      }
      assert t.entries[p[0] := t.entries[p[0]]] == t.entries;
    }
  }

  lemma {:induction false} MissingIsWritable(p: seq<string>)
    ensures p != [] ==> Writable(Table(map[]), p)
    decreases p
  {
    if |p| > 1 { MissingIsWritable(p[1..]); }
  }

  /** Paths that part ways do not touch each other. */
  lemma {:induction false} OtherPathsKept(t: Value, p: seq<string>, v: Value, q: seq<string>)
    requires !(p <= q) && !(q <= p)
    ensures Lookup(SetNested(t, p, v), q) == Lookup(t, q)
    decreases p
  {
    if t.Table? && p != [] && q != [] {
      var u := SetNested(t, p, v);
      if p[0] == q[0] {
        assert p == [p[0]] + p[1..] && q == [q[0]] + q[1..];
        assert |p| > 1 && |q| > 1;
        OtherPathsKept(Child(t, p[0]), p[1..], v, q[1..]);
        AfterWrite(t, p, v, p[0]);
        assert Lookup(u, q) == Lookup(Child(u, q[0]), q[1..]);
      } else {
        assert u.entries == t.entries[p[0] := NewEntry(t, p, v)];
      }
    }
  }

  /** So a variable that counts sets the value at the path its key spells, unless something else is in the way. */
  lemma VariableSets(t: Value, x: EnvVar, parse: string -> Leaf)
    requires Applies(x)
    ensures Writable(t, PathOf(x)) ==> Lookup(ApplyOne(t, x, parse), PathOf(x)) == Found(parse(x.value))
    ensures !Writable(t, PathOf(x)) ==> ApplyOne(t, x, parse) == t
  {
    if Writable(t, PathOf(x)) {
      WriteReadsBack(t, PathOf(x), parse(x.value));
    } else {
      BlockedWriteKeeps(t, PathOf(x), parse(x.value));
    }
  }
}
