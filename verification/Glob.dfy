/** Ref-pattern globbing: `*` matches any run of bytes, `?` exactly one byte. */
module Glob {

  predicate GlobMatches(pattern: string, value: string)
    decreases |pattern| + |value|
  {
    if pattern == [] then value == []
    else if pattern[0] == '*' then
      GlobMatches(pattern[1..], value) || (value != [] && GlobMatches(pattern, value[1..]))
    else if pattern[0] == '?' then value != [] && GlobMatches(pattern[1..], value[1..])
    else value != [] && value[0] == pattern[0] && GlobMatches(pattern[1..], value[1..])
  }

  /** What one pattern character stands for. */
  predicate TokenMatches(token: char, part: string) {
    token == '*' || (|part| == 1 && (token == '?' || part[0] == token))
  }

  function Concat(parts: seq<string>): string {
    if parts == [] then [] else parts[0] + Concat(parts[1..])
  }

  /** `parts` cuts `value` into one piece per pattern character, each matched by its character. */
  ghost predicate Cuts(parts: seq<string>, pattern: string, value: string) {
    && |parts| == |pattern|
    && Concat(parts) == value
    && forall i :: 0 <= i < |parts| ==> TokenMatches(pattern[i], parts[i])
  }

  /** The declarative language of a pattern. */
  ghost predicate InLanguage(pattern: string, value: string) {
    exists parts :: Cuts(parts, pattern, value)
  }

  lemma {:induction false} MatchGivesCut(pattern: string, value: string) returns (parts: seq<string>)
    requires GlobMatches(pattern, value)
    ensures Cuts(parts, pattern, value)
    decreases |pattern| + |value|
  {
    if pattern == [] {
      parts := [];
    } else if pattern[0] == '*' && !GlobMatches(pattern[1..], value) {
      var rest := MatchGivesCut(pattern, value[1..]);
      parts := rest[0 := [value[0]] + rest[0]];
      assert parts[1..] == rest[1..];
      assert Concat(parts) == [value[0]] + Concat(rest);
    } else {
      var n := if pattern[0] == '*' then 0 else 1;
      var rest := MatchGivesCut(pattern[1..], value[n..]);
      parts := [value[..n]] + rest;
      assert parts[1..] == rest;
    }
  }

  lemma {:induction false} CutGivesMatch(parts: seq<string>, pattern: string, value: string)
    requires Cuts(parts, pattern, value)
    ensures GlobMatches(pattern, value)
    decreases |pattern| + |value|
  {
    if pattern == [] {
    } else {
      var part, rest := parts[0], parts[1..];
      assert TokenMatches(pattern[0], part);
      assert value[|part|..] == Concat(rest);
      if pattern[0] == '*' && part != [] {
        var shorter := parts[0 := part[1..]];
        assert shorter[1..] == rest;
        assert Concat(shorter) == value[1..];
        CutGivesMatch(shorter, pattern, value[1..]);
      } else {
        CutGivesMatch(rest, pattern[1..], value[|part|..]);
      }
    }
  }

  /** The matcher accepts exactly the pattern's language. */
  lemma MatchesIffInLanguage(pattern: string, value: string)
    ensures GlobMatches(pattern, value) <==> InLanguage(pattern, value)
  {
    if GlobMatches(pattern, value) {
      var parts := MatchGivesCut(pattern, value);
    }
    if InLanguage(pattern, value) {
      var parts :| Cuts(parts, pattern, value);
      CutGivesMatch(parts, pattern, value);
    }
  }

  lemma {:induction false} ConcatAppend(a: seq<string>, b: seq<string>)
    ensures Concat(a + b) == Concat(a) + Concat(b)
  {
    if a == [] {
      assert a + b == b;
    } else {
      assert (a + b)[1..] == a[1..] + b;
      ConcatAppend(a[1..], b);
    }
  }

  lemma SplitMatch(p: string, q: string, value: string) returns (k: nat)
    requires GlobMatches(p + q, value)
    ensures k <= |value| && GlobMatches(p, value[..k]) && GlobMatches(q, value[k..])
  {
    var parts := MatchGivesCut(p + q, value);
    var a, b := parts[..|p|], parts[|p|..];
    assert parts == a + b;
    ConcatAppend(a, b);
    k := |Concat(a)|;
    assert Cuts(a, p, value[..k]) by {
      assert value[..k] == Concat(a);
      assert forall i :: 0 <= i < |p| ==> TokenMatches((p + q)[i], parts[i]);
    }
    assert Cuts(b, q, value[k..]) by {
      assert value[k..] == Concat(b);
      forall i | 0 <= i < |q| ensures TokenMatches(q[i], b[i]) {
        assert TokenMatches((p + q)[|p| + i], parts[|p| + i]);
      }
    }
    CutGivesMatch(a, p, value[..k]);
    CutGivesMatch(b, q, value[k..]);
  }

  lemma JoinMatch(p: string, q: string, u: string, v: string)
    requires GlobMatches(p, u) && GlobMatches(q, v)
    ensures GlobMatches(p + q, u + v)
  {
    var a := MatchGivesCut(p, u);
    var b := MatchGivesCut(q, v);
    ConcatAppend(a, b);
    CutGivesMatch(a + b, p + q, u + v);
  }

  /** `p` matches the first `k` bytes of the value and `q` the rest. */
  predicate SplitsAt(p: string, q: string, value: string, k: int) {
    0 <= k <= |value| && GlobMatches(p, value[..k]) && GlobMatches(q, value[k..])
  }

  lemma JoinAt(p: string, q: string, value: string, k: int)
    requires SplitsAt(p, q, value, k)
    ensures GlobMatches(p + q, value)
  {
    assert value[..k] + value[k..] == value;
    JoinMatch(p, q, value[..k], value[k..]);
  }

  /** A concatenated pattern matches exactly the values that split between its two parts. */
  lemma ConcatenationSplits(p: string, q: string, value: string)
    ensures GlobMatches(p + q, value) <==> exists k :: SplitsAt(p, q, value, k)
  {
    if GlobMatches(p + q, value) {
      var k := SplitMatch(p, q, value);
      assert SplitsAt(p, q, value, k);
    } else if k :| SplitsAt(p, q, value, k) {
      JoinAt(p, q, value, k);
    }
  }
}
