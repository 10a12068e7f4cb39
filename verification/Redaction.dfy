/** Blanking secrets in a serialized configuration before it is shown. */
module Redaction {
  import opened Toml

  const SECRET_KEYS: set<string> := {
    "api_key", "client_secret", "gitea_token", "github_token", "gitlab_token", "secret_access_key",
    "session_token", "smtp_password", "token", "webhook_secret_encryption_key", "webhook_url"
  }

  const MASK: string := "***"

  predicate IsDatabaseUrl(s: string) {
    "postgresql://" <= s || "postgres://" <= s
  }

  function Redact(v: Value): Value
    decreases v, 1
  {
    match v
    case Table(t) => Table(map k | k in t :: RedactEntry(v, k))
    case Array(items) => Array(seq(|items|, i requires 0 <= i < |items| => Redact(items[i])))
    case _ => v
  }

  function RedactEntry(v: Value, k: string): Value
    requires v.Table? && k in v.entries
    decreases v, 0
  {
    var e := v.entries[k];
    if k in SECRET_KEYS then Str(MASK)
    else if e.Str? then (if IsDatabaseUrl(e.text) then Str(MASK) else e)
    else Redact(e)
  }

  /** The in-place walk over table entries and array items. */
  method RedactSecrets(v: Value) returns (r: Value)
    ensures r == Redact(v)
    decreases v
  {
    match v
    case Table(table) =>
      var t, rest := table, table.Keys;
      while rest != {}
        invariant rest <= table.Keys && t.Keys == table.Keys
        invariant forall k :: k in t ==> t[k] == if k in rest then table[k] else RedactEntry(v, k)
        decreases rest
      {
        var key :| key in rest;
        if key in SECRET_KEYS {
          t := t[key := Str(MASK)];
        } else if t[key].Str? {
          if IsDatabaseUrl(t[key].text) {
            t := t[key := Str(MASK)];
          }
        } else {
          var child := RedactSecrets(t[key]);
          t := t[key := child];
        }
        rest := rest - {key};
      }
      r := Table(t);
      assert t == Redact(v).entries;
    case Array(arr) =>
      var items := arr;
      for i := 0 to |arr|
        invariant |items| == |arr|
        invariant forall j :: 0 <= j < |arr| ==> items[j] == if j < i then Redact(arr[j]) else arr[j]
      {
        var item := RedactSecrets(items[i]);
        items := items[i := item];
      }
      r := Array(items);
      assert items == Redact(v).items;
    case _ =>
      r := v;
  }

  // ---- what redaction promises, and when it keeps the promise ----

  /** Nothing secret is shown: no database URL at any depth, and every secret key is masked. */
  ghost predicate Safe(v: Value)
    decreases v
  {
    match v
    case Table(t) => forall k :: k in t ==> (k in SECRET_KEYS ==> t[k] == Str(MASK)) && Safe(t[k])
    case Array(items) => forall i :: 0 <= i < |items| ==> Safe(items[i])
    case Str(text) => !IsDatabaseUrl(text)
    case _ => true
  }

  /** Outside secret keys no array directly holds a database URL, and the value itself is not one. */
  ghost predicate NoBareUrl(v: Value)
    decreases v
  {
    match v
    case Table(t) => forall k :: k in t && k !in SECRET_KEYS && !t[k].Str? ==> NoBareUrl(t[k])
    case Array(items) => forall i :: 0 <= i < |items| ==> NoBareUrl(items[i])
    case Str(text) => !IsDatabaseUrl(text)
    case _ => true
  }

  /** Redaction shows nothing secret exactly when no database URL sits directly in an array. */
  lemma {:induction false} RedactSafeIff(v: Value)
    ensures Safe(Redact(v)) <==> NoBareUrl(v)
    decreases v
  {
    match v
    case Table(t) =>
      var r := Redact(v).entries;
      forall k | k in t
        ensures (k in SECRET_KEYS ==> r[k] == Str(MASK))
        ensures Safe(r[k]) <==> (k !in SECRET_KEYS && !t[k].Str? ==> NoBareUrl(t[k]))
      {
        assert r[k] == RedactEntry(v, k);
        RedactSafeIff(t[k]);
      }
      assert r.Keys == t.Keys;
    case Array(items) =>
      var r := Redact(v).items;
      forall i | 0 <= i < |items| ensures Safe(r[i]) <==> NoBareUrl(items[i]) {
        assert r[i] == Redact(items[i]);
        RedactSafeIff(items[i]);
      }
    case _ =>
  }

  /** A list of database URLs is shown in clear. */
  lemma UrlInArraySurvives()
    ensures var v := Table(map["replicas" := Array([Str("postgres://u:p@h/db")])]);
            Redact(v) == v && !Safe(v)
  {
    var url := Str("postgres://u:p@h/db");
    var list := Array([url]);
    var v := Table(map["replicas" := list]);
    assert !Safe(url) && !Safe(list) by { assert list.items[0] == url; }
    assert Redact(list).items == [url];
    assert "replicas" in v.entries && RedactEntry(v, "replicas") == list;
    assert Redact(v).entries == v.entries;
  }

  /** What becomes of a table entry: secrets and database URLs are starred out, other plain values kept. */
  lemma RedactedEntryIs(v: Value, k: string)
    requires v.Table? && k in v.entries
    ensures var e, r := v.entries[k], Redact(v);
            && r.Table? && k in r.entries
            && (k in SECRET_KEYS ==> r.entries[k] == Str("***"))
            && (e.Str? && ("postgresql://" <= e.text || "postgres://" <= e.text) ==> r.entries[k] == Str("***"))
            && (k !in SECRET_KEYS && e.Str? && !("postgresql://" <= e.text || "postgres://" <= e.text) ==> r.entries[k] == e)
            && (k !in SECRET_KEYS && !e.Str? && !e.Table? && !e.Array? ==> r.entries[k] == e)
  {
    assert Redact(v).entries[k] == RedactEntry(v, k);
  }

  // ---- what redaction leaves alone ----

  /** Every secret key is masked and no table entry is a database URL; array items are not looked at. */
  ghost predicate Masked(v: Value)
    decreases v
  {
    match v
    case Table(t) =>
      forall k :: k in t ==>
        && (k in SECRET_KEYS ==> t[k] == Str(MASK))
        && (t[k].Str? ==> !IsDatabaseUrl(t[k].text))
        && Masked(t[k])
    case Array(items) => forall i :: 0 <= i < |items| ==> Masked(items[i])
    case _ => true
  }

  lemma {:induction false} RedactMasks(v: Value)
    ensures Masked(Redact(v))
    decreases v
  {
    match v
    case Table(t) =>
      var r := Redact(v).entries;
      forall k | k in t
        ensures (k in SECRET_KEYS ==> r[k] == Str(MASK)) && (r[k].Str? ==> !IsDatabaseUrl(r[k].text)) && Masked(r[k])
      {
        assert r[k] == RedactEntry(v, k);
        RedactMasks(t[k]);
      }
    case Array(items) =>
      forall i | 0 <= i < |items| ensures Masked(Redact(v).items[i]) { RedactMasks(items[i]); }
    case _ =>
  }

  /** A tree is left alone exactly when its table entries hold nothing to mask. */
  lemma {:induction false} RedactFixesIff(v: Value)
    ensures Redact(v) == v <==> Masked(v)
    decreases v
  {
    if Redact(v) == v { RedactMasks(v); }
    match v
    case Table(t) =>
      var r := Redact(v).entries;
      if Masked(v) {
        forall k | k in t ensures r[k] == t[k] {
          assert r[k] == RedactEntry(v, k);
          RedactFixesIff(t[k]);
        }
        assert r == t;
      }
    case Array(items) =>
      if Masked(v) {
        forall i | 0 <= i < |items| ensures Redact(items[i]) == items[i] { RedactFixesIff(items[i]); }
        assert Redact(v).items == items;
      }
    case _ =>
  }

  /** What needs no redaction is safe to show exactly when no database URL sits directly in an array. */
  lemma SafeIffMaskedAndNoBareUrl(v: Value)
    ensures Safe(v) <==> Masked(v) && NoBareUrl(v)
  {
    if Safe(v) { SafeIsMasked(v); }
    if Masked(v) {
      RedactFixesIff(v);
      RedactSafeIff(v);
    }
  }

  lemma {:induction false} SafeIsMasked(v: Value)
    requires Safe(v)
    ensures Masked(v)
    decreases v
  {
    match v
    case Table(t) => forall k | k in t ensures Masked(t[k]) { SafeIsMasked(t[k]); }
    case Array(items) => forall i | 0 <= i < |items| ensures Masked(items[i]) { SafeIsMasked(items[i]); }
    case _ =>
  }

  lemma RedactIdempotent(v: Value)
    ensures Redact(Redact(v)) == Redact(v)
  {
    RedactMasks(v);
    RedactFixesIff(Redact(v));
  }

  /** Redacting the merged configuration is merging the redacted layers. */
  lemma {:induction false} RedactDistributesOverMerge(base: Value, overlay: Value)
    ensures Redact(Merge(base, overlay)) == Merge(Redact(base), Redact(overlay))
    decreases overlay
  {
    if base.Table? && overlay.Table? {
      var m, rb, ro := Merge(base, overlay), Redact(base), Redact(overlay);
      forall k | k in m.entries ensures RedactEntry(m, k) == MergeEntry(rb, ro, k) {
        assert m.entries[k] == MergeEntry(base, overlay, k);
        if k in base.entries { assert rb.entries[k] == RedactEntry(base, k); }
        if k in overlay.entries { assert ro.entries[k] == RedactEntry(overlay, k); }
        if k in base.entries && k in overlay.entries {
          RedactDistributesOverMerge(base.entries[k], overlay.entries[k]);
        }
      }
      assert Redact(m).entries == Merge(rb, ro).entries;
    }
  }
}
