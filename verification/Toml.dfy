/** Parsed TOML trees and the layered merge that combines configuration sources. */
module Toml {

  datatype Value =
    | Table(entries: map<string, Value>)
    | Array(items: seq<Value>)
    | Str(text: string)
    | Int(i: int)
    | Float(f: real)
    | Bool(b: bool)
    | Datetime(stamp: string)

  /** Overlay wins; tables merge key by key, everything else is replaced wholesale. */
  function Merge(base: Value, overlay: Value): Value
    decreases overlay, 1
  {
    if base.Table? && overlay.Table? then
      Table(map k | k in base.entries.Keys + overlay.entries.Keys :: MergeEntry(base, overlay, k))
    else overlay
  }

  function MergeEntry(base: Value, overlay: Value, k: string): Value
    requires base.Table? && overlay.Table? && (k in base.entries || k in overlay.entries)
    decreases overlay, 0
  {
    if k !in overlay.entries then base.entries[k]
    else if k in base.entries then Merge(base.entries[k], overlay.entries[k])
    else overlay.entries[k]
  }

  /** The in-place merge: walks the overlay's keys in some order and updates the base's entries. */
  method DeepMerge(base: Value, overlay: Value) returns (merged: Value)
    ensures merged == Merge(base, overlay)
    decreases overlay
  {
    if !base.Table? || !overlay.Table? {
      return overlay;
    }
    var t, over := base.entries, overlay.entries;
    var rest := over.Keys;
    while rest != {}
      invariant rest <= over.Keys
      invariant t.Keys == base.entries.Keys + (over.Keys - rest)
      invariant forall k :: k in t ==> t[k] == if k in rest then base.entries[k] else MergeEntry(base, overlay, k)
      decreases rest
    {
      var key :| key in rest;
      if key in t {
        var child := DeepMerge(t[key], over[key]);
        t := t[key := child];
      } else {
        t := t[key := over[key]];
      }
      rest := rest - {key};
    }
    merged := Table(t);
    assert t == Merge(base, overlay).entries;
  }

  lemma {:induction false} MergeSelf(v: Value)
    ensures Merge(v, v) == v
    decreases v
  {
    if v.Table? {
      forall k | k in v.entries ensures MergeEntry(v, v, k) == v.entries[k] {
        MergeSelf(v.entries[k]);
      }
      assert Merge(v, v).entries == v.entries;
    }
  }

  /** Applying the same overlay again changes nothing. */
  lemma {:induction false} MergeIdempotent(base: Value, overlay: Value)
    ensures Merge(Merge(base, overlay), overlay) == Merge(base, overlay)
    decreases overlay
  {
    if base.Table? && overlay.Table? {
      var once := Merge(base, overlay);
      var twice := Merge(once, overlay);
      forall k | k in once.entries ensures twice.entries[k] == once.entries[k] {
        assert once.entries[k] == MergeEntry(base, overlay, k) && twice.entries[k] == MergeEntry(once, overlay, k);
        if k in overlay.entries {
          if k in base.entries {
            MergeIdempotent(base.entries[k], overlay.entries[k]);
          } else {
            MergeSelf(overlay.entries[k]);
          }
        }
      }
      assert twice.entries == once.entries;
    } else {
      MergeSelf(overlay);
    }
  }

  /** `a` brings no key that `c` lacks, at any depth where both are tables. */
  ghost predicate Covered(a: Value, c: Value)
    decreases c
  {
    a.Table? && c.Table? ==>
      forall k :: k in a.entries ==> k in c.entries && Covered(a.entries[k], c.entries[k])
  }

  lemma {:induction false} MergeAbsorbedIffCovered(a: Value, c: Value)
    ensures Merge(a, c) == c <==> Covered(a, c)
    decreases c
  {
    if a.Table? && c.Table? {
      var m := Merge(a, c).entries;
      forall k | k in a.entries && k in c.entries
        ensures m[k] == c.entries[k] <==> Covered(a.entries[k], c.entries[k])
      {
        assert m[k] == MergeEntry(a, c, k);
        MergeAbsorbedIffCovered(a.entries[k], c.entries[k]);
      }
      if Covered(a, c) {
        forall k | k in m ensures m[k] == c.entries[k] { assert m[k] == MergeEntry(a, c, k); }
        assert m == c.entries;
      } else if Merge(a, c) == c {
        forall k | k in a.entries ensures k in c.entries && Covered(a.entries[k], c.entries[k]) {
          assert k in m;
        }
      }
    }
  }

  /**
   No key path leads to a table in `a`, a non-table in `b` and a table in `c`, unless that
   table of `a` is covered by the one in `c`.
   */
  ghost predicate NoTableResurrected(a: Value, b: Value, c: Value)
    decreases c
  {
    if !a.Table? || !c.Table? then true
    else if !b.Table? then Covered(a, c)
    else forall k :: k in a.entries && k in b.entries && k in c.entries ==>
           NoTableResurrected(a.entries[k], b.entries[k], c.entries[k])
  }

  /** Merging three layers left to right or right to left agrees exactly when no table is resurrected. */
  lemma {:induction false} MergeAssociativeIff(a: Value, b: Value, c: Value)
    ensures Merge(Merge(a, b), c) == Merge(a, Merge(b, c)) <==> NoTableResurrected(a, b, c)
    decreases c, 1
  {
    if a.Table? && c.Table? {
      if b.Table? {
        AssociativeTables(a, b, c);
      } else {
        MergeAbsorbedIffCovered(a, c);
      }
    }
  }

  lemma {:induction false} AssociativeTables(a: Value, b: Value, c: Value)
    requires a.Table? && b.Table? && c.Table?
    ensures Merge(Merge(a, b), c) == Merge(a, Merge(b, c)) <==> NoTableResurrected(a, b, c)
    decreases c, 0
  {
    var ab, bc := Merge(a, b), Merge(b, c);
    var left, right := Merge(ab, c).entries, Merge(a, bc).entries;
    forall k | k in left
      ensures left[k] == right[k] <==>
              (k in a.entries && k in b.entries && k in c.entries ==>
                NoTableResurrected(a.entries[k], b.entries[k], c.entries[k]))
    {
      assert left[k] == MergeEntry(ab, c, k) && right[k] == MergeEntry(a, bc, k);
      if k in ab.entries { assert ab.entries[k] == MergeEntry(a, b, k); }
      if k in bc.entries { assert bc.entries[k] == MergeEntry(b, c, k); }
      if k in a.entries && k in b.entries && k in c.entries {
        MergeAssociativeIff(a.entries[k], b.entries[k], c.entries[k]);
      }
    }
    assert left.Keys == right.Keys;
    if left != right {
      assert exists k :: k in left && left[k] != right[k];
    }
  }

  /** The exception is real: a table hidden by a scalar comes back when a later layer is a table again. */
  lemma MergeNotAssociative()
    ensures exists a, b, c :: Merge(Merge(a, b), c) != Merge(a, Merge(b, c))
  {
    var a, b, c := Table(map["k" := Int(1)]), Int(2), Table(map[]);
    assert "k" in Merge(a, c).entries;
    assert Merge(Merge(a, b), c) != Merge(a, Merge(b, c));
  }

  // ---- what a reader of the merged configuration sees ----

  datatype Found = Nothing | Found(value: Value)

  /** The value under a path of keys. */
  function Lookup(v: Value, path: seq<string>): Found
    decreases path
  {
    if path == [] then Found(v)
    else if v.Table? && path[0] in v.entries then Lookup(v.entries[path[0]], path[1..])
    else Nothing
  }

  /** The overlay has nothing to say about this path: only tables on the way, and then nothing. */
  predicate Silent(overlay: Value, path: seq<string>)
    decreases path
  {
    overlay.Table? && path != [] && (path[0] !in overlay.entries || Silent(overlay.entries[path[0]], path[1..]))
  }

  /** A value the overlay sets, other than a table, is what is read. */
  lemma {:induction false} OverlayWins(base: Value, overlay: Value, path: seq<string>)
    requires Lookup(overlay, path).Found? && !Lookup(overlay, path).value.Table?
    ensures Lookup(Merge(base, overlay), path) == Lookup(overlay, path)
    decreases path
  {
    if path == [] {
    } else if base.Table? {
      var k := path[0];
      assert Merge(base, overlay).entries[k] == MergeEntry(base, overlay, k);
      if k in base.entries { OverlayWins(base.entries[k], overlay.entries[k], path[1..]); }
    }
  }

  /** Where the overlay is silent, the base is what is read. */
  lemma {:induction false} BaseShowsThrough(base: Value, overlay: Value, path: seq<string>)
    requires Silent(overlay, path)
    ensures Lookup(Merge(base, overlay), path) == Lookup(base, path)
    decreases path
  {
    var k := path[0];
    if base.Table? {
      if k in overlay.entries {
        assert Merge(base, overlay).entries[k] == MergeEntry(base, overlay, k);
        if k in base.entries {
          BaseShowsThrough(base.entries[k], overlay.entries[k], path[1..]);
        } else {
          SilentHasNothing(overlay.entries[k], path[1..]);
        }
      } else if k in base.entries {
        assert Merge(base, overlay).entries[k] == base.entries[k];
      }
    } else {
      SilentHasNothing(overlay, path);
    }
  }

  lemma {:induction false} SilentHasNothing(overlay: Value, path: seq<string>)
    requires Silent(overlay, path)
    ensures Lookup(overlay, path) == Nothing
    decreases path
  {
    if path[0] in overlay.entries { SilentHasNothing(overlay.entries[path[0]], path[1..]); }
  }
}
