/**
 The matcher compares bytes, while patterns and values are UTF-8 text. When does matching
 bytes mean matching characters? A character is its encoding: a lead byte that fixes the
 width, then continuation bytes (section 3 of RFC 3629). One `char` stands for one byte.
 */
module GlobUtf8 {
  import opened Glob

  predicate IsContinuation(b: char) {
    0x80 <= b as int < 0xC0
  }

  /** How many bytes a character with this lead byte has, or 0 when it is no lead byte. */
  function Width(lead: char): nat {
    var b := lead as int;
    if b < 0x80 then 1
    else if 0xC2 <= b < 0xE0 then 2
    else if 0xE0 <= b < 0xF0 then 3
    else if 0xF0 <= b < 0xF5 then 4
    else 0
  }

  predicate IsCharacter(bytes: string) {
    |bytes| > 0 && |bytes| == Width(bytes[0]) && forall i :: 0 < i < |bytes| ==> IsContinuation(bytes[i])
  }

  type Character = bytes: string | IsCharacter(bytes) witness "a"

  type Text = seq<Character>

  function Bytes(t: Text): string {
    if t == [] then "" else t[0] + Bytes(t[1..])
  }

  /** What the comment on the matcher says: `*` any run, `?` one character, anything else itself. */
  predicate CharMatches(pattern: Text, value: Text)
    decreases |pattern| + |value|
  {
    if pattern == [] then value == []
    else if pattern[0] == "*" then
      CharMatches(pattern[1..], value) || (value != [] && CharMatches(pattern, value[1..]))
    else
      value != [] && (pattern[0] == "?" || pattern[0] == value[0]) && CharMatches(pattern[1..], value[1..])
  }

  predicate Agree(pattern: Text, value: Text) {
    GlobMatches(Bytes(pattern), Bytes(value)) <==> CharMatches(pattern, value)
  }

  // ---- the disagreement ----

  /** `?` against one character of two bytes. */
  lemma QuestionMarkIsAByte()
    ensures IsCharacter([0xC3 as char, 0xA9 as char]) && !Agree(["?"], [[0xC3 as char, 0xA9 as char]])
  {
    var e: Character := [0xC3 as char, 0xA9 as char];
    BytesOfOne("?");
    BytesOfOne(e);
    assert ["?"][1..] == [] && [e][1..] == [];
    assert CharMatches(["?"], [e]);
    assert "?"[1..] == "" && e[1..] == [0xA9 as char];
    assert !GlobMatches("?", e);
  }

  lemma BytesOfOne(c: Character)
    ensures Bytes([c]) == c
  {
    assert [c][1..] == [];
  }

  // ---- bytes of a pattern ----

  predicate Literal(c: Character) {
    c != "*" && c != "?"
  }

  /** A literal's bytes are matched one by one. */
  lemma {:induction false} LiteralBytes(lit: string, pattern: string, value: string)
    requires '*' !in lit && '?' !in lit
    ensures GlobMatches(lit + pattern, value) <==> lit <= value && GlobMatches(pattern, value[|lit|..])
    decreases |lit|
  {
    if lit == "" {
      assert lit + pattern == pattern && value[0..] == value;
    } else if value != "" && value[0] == lit[0] {
      assert (lit + pattern)[1..] == lit[1..] + pattern;
      LiteralBytes(lit[1..], pattern, value[1..]);
      assert |lit| <= |value| ==> value[1..][|lit| - 1..] == value[|lit|..];
      assert lit <= value <==> lit[1..] <= value[1..] by {
        assert lit == [lit[0]] + lit[1..] && value == [value[0]] + value[1..];
      }
    }
  }

  lemma LiteralHasNoWildcard(c: Character)
    requires Literal(c)
    ensures '*' !in c && '?' !in c
  {
    if |c| == 1 { assert c == [c[0]]; }
    forall i | 0 <= i < |c| ensures c[i] != '*' && c[i] != '?' {}
  }

  /** The bytes of a text begin with those of a character exactly when the text begins with it. */
  lemma CharacterPrefix(c: Character, t: Text)
    ensures c <= Bytes(t) <==> t != [] && t[0] == c
    ensures t != [] ==> Bytes(t)[|t[0]|..] == Bytes(t[1..])
  {
    if t != [] && c <= Bytes(t) {
      assert Bytes(t)[0] == t[0][0] == c[0];
      assert Bytes(t)[..|c|] == t[0];
    }
  }

  lemma LiteralStep(c: Character, pattern: Text, value: Text)
    requires Literal(c)
    ensures GlobMatches(c + Bytes(pattern), Bytes(value)) <==>
            value != [] && value[0] == c && GlobMatches(Bytes(pattern), Bytes(value[1..]))
  {
    LiteralHasNoWildcard(c);
    LiteralBytes(c, Bytes(pattern), Bytes(value));
    CharacterPrefix(c, value);
  }

  // ---- patterns without `?` ----

  predicate NoQuestion(pattern: Text) {
    forall i :: 0 <= i < |pattern| ==> pattern[i] != "?"
  }

  predicate AllContinuation(s: string) {
    forall i :: 0 <= i < |s| ==> IsContinuation(s[i])
  }

  lemma TailNeedsStar(pattern: Text, tail: string, rest: string)
    requires NoQuestion(pattern) && AllContinuation(tail) && tail != "" && (pattern == [] || pattern[0] != "*")
    ensures !GlobMatches(Bytes(pattern), tail + rest)
  {
    var value := tail + rest;
    assert value[0] == tail[0];
    if pattern != [] {
      LiteralHasNoWildcard(pattern[0]);
      LiteralBytes(pattern[0], Bytes(pattern[1..]), value);
      assert value[0] != pattern[0][0];
    }
  }

  /** Only a `*` matches continuation bytes cut off from their character, and it may as well not. */
  lemma {:induction false} TailIsDropped(pattern: Text, tail: string, rest: string)
    requires NoQuestion(pattern) && AllContinuation(tail) && GlobMatches(Bytes(pattern), tail + rest)
    ensures tail == "" || (pattern != [] && pattern[0] == "*")
    ensures GlobMatches(Bytes(pattern), rest)
    decreases |pattern| + |tail|
  {
    var value := tail + rest;
    if tail == "" {
      assert value == rest;
    } else if pattern == [] || pattern[0] != "*" {
      TailNeedsStar(pattern, tail, rest);
    } else {
      StarBytes(pattern, value);
      StarBytes(pattern, rest);
      if GlobMatches(Bytes(pattern[1..]), value) {
        TailIsDropped(pattern[1..], tail, rest);
      } else {
        assert value[1..] == tail[1..] + rest;
        TailIsDropped(pattern, tail[1..], rest);
      }
    }
  }

  /** The matcher's own rule for `*`, on the bytes of a pattern. */
  lemma StarBytes(pattern: Text, value: string)
    requires pattern != [] && pattern[0] == "*"
    ensures GlobMatches(Bytes(pattern), value) <==>
            GlobMatches(Bytes(pattern[1..]), value) || (value != "" && GlobMatches(Bytes(pattern), value[1..]))
  {
    assert Bytes(pattern)[1..] == Bytes(pattern[1..]);
  }

  /** Dropping bytes one by one from the front, a `*` can always pass a whole character. */
  lemma {:induction false} StarPasses(pattern: Text, skipped: string, rest: string)
    requires pattern != [] && pattern[0] == "*" && GlobMatches(Bytes(pattern), rest)
    ensures GlobMatches(Bytes(pattern), skipped + rest)
    decreases |skipped|
  {
    if skipped == "" {
      assert skipped + rest == rest;
    } else {
      StarPasses(pattern, skipped[1..], rest);
      assert (skipped + rest)[1..] == skipped[1..] + rest;
      StarBytes(pattern, skipped + rest);
    }
  }

  /** A `*` that eats bytes eats characters. */
  lemma StarStep(pattern: Text, value: Text)
    requires NoQuestion(pattern) && pattern != [] && pattern[0] == "*"
    ensures GlobMatches(Bytes(pattern), Bytes(value)) <==>
            GlobMatches(Bytes(pattern[1..]), Bytes(value)) || (value != [] && GlobMatches(Bytes(pattern), Bytes(value[1..])))
  {
    StarBytes(pattern, Bytes(value));
    if value != [] {
      var c, rest := value[0], Bytes(value[1..]);
      assert Bytes(value)[1..] == c[1..] + rest;
      if GlobMatches(Bytes(pattern), c[1..] + rest) { TailIsDropped(pattern, c[1..], rest); }
      if GlobMatches(Bytes(pattern), rest) { StarPasses(pattern, c, rest); }
    }
  }

  /** Without `?`, matching bytes is matching characters. */
  lemma {:induction false} NoQuestionAgrees(pattern: Text, value: Text)
    requires NoQuestion(pattern)
    ensures Agree(pattern, value)
    decreases |pattern| + |value|
  {
    if pattern == [] {
      assert value != [] ==> |Bytes(value)| > 0;
    } else if pattern[0] == "*" {
      StarStep(pattern, value);
      NoQuestionAgrees(pattern[1..], value);
      if value != [] { NoQuestionAgrees(pattern, value[1..]); }
    } else {
      LiteralStep(pattern[0], pattern[1..], value);
      if value != [] { NoQuestionAgrees(pattern[1..], value[1..]); }
    }
  }

  // ---- values of one-byte characters ----

  predicate OneByte(value: Text) {
    forall i :: 0 <= i < |value| ==> |value[i]| == 1
  }

  lemma {:induction false} OneByteAgrees(pattern: Text, value: Text)
    requires OneByte(value)
    ensures Agree(pattern, value)
    decreases |pattern| + |value|
  {
    if value != [] { CharacterPrefix(value[0], value); }
    if pattern == [] {
    } else if pattern[0] == "*" {
      StarBytes(pattern, Bytes(value));
      OneByteAgrees(pattern[1..], value);
      if value != [] { OneByteAgrees(pattern, value[1..]); }
    } else if pattern[0] == "?" {
      assert Bytes(pattern)[1..] == Bytes(pattern[1..]);
      if value != [] { OneByteAgrees(pattern[1..], value[1..]); }
    } else {
      LiteralStep(pattern[0], pattern[1..], value);
      if value != [] { OneByteAgrees(pattern[1..], value[1..]); }
    }
  }

  function Questions(n: nat): Text {
    if n == 0 then [] else ["?"] + Questions(n - 1)
  }

  lemma {:induction false} QuestionsCountCharacters(value: Text)
    ensures CharMatches(Questions(|value|), value)
  {
    if value == [] {
    } else {
      assert Questions(|value|)[1..] == Questions(|value| - 1);
      QuestionsCountCharacters(value[1..]);
    }
  }

  lemma {:induction false} QuestionsCountBytes(n: nat, value: string)
    ensures GlobMatches(Bytes(Questions(n)), value) <==> |value| == n
    decreases n
  {
    if n == 0 {
    } else {
      assert Questions(n)[1..] == Questions(n - 1);
      assert Bytes(Questions(n))[1..] == Bytes(Questions(n - 1));
      if value != "" { QuestionsCountBytes(n - 1, value[1..]); }
    }
  }

  lemma {:induction false} OneByteIffShort(value: Text)
    ensures |value| <= |Bytes(value)|
    ensures OneByte(value) <==> |Bytes(value)| == |value|
  {
    if value == [] {
    } else {
      OneByteIffShort(value[1..]);
      assert OneByte(value) <==> |value[0]| == 1 && OneByte(value[1..]) by {
        assert forall i :: 0 <= i < |value[1..]| ==> value[1..][i] == value[i + 1];
        assert value == [value[0]] + value[1..];
      }
    }
  }

  /** A value is matched as its comment says under every pattern exactly when all its characters are one byte. */
  lemma AgreesUnderAllPatternsIff(value: Text)
    ensures (forall pattern :: Agree(pattern, value)) <==> OneByte(value)
  {
    if OneByte(value) {
      forall pattern ensures Agree(pattern, value) { OneByteAgrees(pattern, value); }
    } else {
      OneByteIffShort(value);
      QuestionsCountCharacters(value);
      QuestionsCountBytes(|value|, Bytes(value));
      assert !Agree(Questions(|value|), value);
    }
  }
}
