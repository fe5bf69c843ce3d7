/** Redaction of audit snapshots: values under sensitive keys are replaced at every depth. */
module Redaction {
  import opened Outcomes

  datatype Json =
    | Null
    | Bool(b: bool)
    | Num(n: real)
    | Str(s: string)
    | Arr(items: seq<Json>)
    | Obj(fields: map<string, Json>)

  const MARKER := Str("[REDACTED]")

  const SENSITIVE_FIELDS: set<string> := {
    "password", "password_hash", "jwt", "token", "authorization", "private_key",
    "certificate_pem", "certificates_pem", "pem_redacted", "public_chain_pem", "input_snapshot"
  }

  /**
   strings.ToLower as far as it can produce an ASCII letter: besides A to Z only the Kelvin sign
   and the dotted capital I lower to one.
   */
  function LowerChar(c: char): char {
    if 'A' <= c <= 'Z' then (c as int - 'A' as int + 'a' as int) as char
    else if c == '\U{212A}' then 'k'
    else if c == '\U{130}' then 'i'
    else c
  }

  function ToLower(s: string): string {
    seq(|s|, i requires 0 <= i < |s| => LowerChar(s[i]))
  }

  predicate Sensitive(key: string) {
    ToLower(key) in SENSITIVE_FIELDS
  }

  /** The character is c or its capital; k and i have one more capital each outside ASCII. */
  ghost predicate Spells(given: char, c: char) {
    || given == c
    || ('a' <= c <= 'z' && given as int == c as int - 32)
    || (c == 'k' && given == '\U{212A}')
    || (c == 'i' && given == '\U{130}')
  }

  ghost predicate SpellsWord(key: string, word: string) {
    |key| == |word| && forall i :: 0 <= i < |word| ==> Spells(key[i], word[i])
  }

  ghost predicate Plain(word: string) {
    forall i :: 0 <= i < |word| ==> 'a' <= word[i] <= 'z' || word[i] == '_'
  }

  lemma LowersToPlain(key: string, word: string)
    requires Plain(word)
    ensures ToLower(key) == word <==> SpellsWord(key, word)
  {
    if SpellsWord(key, word) {
      assert forall i :: 0 <= i < |word| ==> LowerChar(key[i]) == word[i];
    }
    if ToLower(key) == word {
      assert forall i :: 0 <= i < |word| ==> LowerChar(key[i]) == ToLower(key)[i];
    }
  }

  lemma WordsArePlain()
    ensures forall word :: word in SENSITIVE_FIELDS ==> Plain(word)
  {
  }

  /** The sensitive keys are eleven words, in any mix of capitals. */
  lemma SensitiveExact(key: string)
    ensures Sensitive(key) <==>
      exists word :: SpellsWord(key, word) && word in [
        "password", "password_hash", "jwt", "token", "authorization", "private_key",
        "certificate_pem", "certificates_pem", "pem_redacted", "public_chain_pem", "input_snapshot"]
  {
    WordsArePlain();
    forall word | word in SENSITIVE_FIELDS ensures ToLower(key) == word <==> SpellsWord(key, word) {
      LowersToPlain(key, word);
    }
  }

  function Redact(key: string, value: Json): Json
    decreases value
  {
    if Sensitive(key) then MARKER
    else match value
      case Obj(fields) => Obj(map k | k in fields :: Redact(k, fields[k]))
      case Arr(items) => Arr(seq(|items|, i requires 0 <= i < |items| => Redact(key, items[i])))
      case _ => value
  }

  method RedactValue(key: string, value: Json) returns (r: Json)
    ensures r == Redact(key, value)
    decreases value
  {
    if Sensitive(key) {
      return MARKER;
    }
    match value
    case Obj(fields) =>
      var result: map<string, Json> := map[];
      var remaining := fields.Keys;
      while remaining != {}
        invariant remaining <= fields.Keys && result.Keys == fields.Keys - remaining
        invariant forall k :: k in result ==> result[k] == Redact(k, fields[k])
        decreases remaining
      {
        var k :| k in remaining;
        remaining := remaining - {k};
        var nested := RedactValue(k, fields[k]);
        result := result[k := nested];
      }
      assert result == map k | k in fields :: Redact(k, fields[k]);
      return Obj(result);
    case Arr(items) =>
      var result: seq<Json> := [];
      for i := 0 to |items|
        invariant |result| == i && forall j :: 0 <= j < i ==> result[j] == Redact(key, items[j])
      {
        var item := RedactValue(key, items[i]);
        result := result + [item];
      }
      return Arr(result);
    case _ =>
      return value;
  }

  /** The trees differ at most under sensitive keys. */
  ghost predicate Agree(key: string, a: Json, b: Json)
    decreases a
  {
    Sensitive(key) ||
    match (a, b)
    case (Obj(f), Obj(g)) => f.Keys == g.Keys && forall k :: k in f ==> Agree(k, f[k], g[k])
    case (Arr(s), Arr(t)) => |s| == |t| && forall i :: 0 <= i < |s| ==> Agree(key, s[i], t[i])
    case _ => a == b
  }

  /** Outputs are equal exactly when the inputs differ only under sensitive keys. */
  lemma {:induction false} NonInterference(key: string, a: Json, b: Json)
    ensures Redact(key, a) == Redact(key, b) <==> Agree(key, a, b)
    decreases a
  {
    if !Sensitive(key) {
      match (a, b)
      case (Obj(f), Obj(g)) =>
        if f.Keys == g.Keys {
          forall k | k in f ensures Redact(k, f[k]) == Redact(k, g[k]) <==> Agree(k, f[k], g[k]) {
            NonInterference(k, f[k], g[k]);
          }
        }
        ObjectsEqual(key, f, g);
      case (Arr(s), Arr(t)) =>
        if |s| == |t| {
          forall i | 0 <= i < |s|
            ensures Redact(key, s[i]) == Redact(key, t[i]) <==> Agree(key, s[i], t[i])
          {
            NonInterference(key, s[i], t[i]);
          }
        }
        ArraysEqual(key, s, t);
      case _ =>
    }
  }

  lemma ArraysEqual(key: string, s: seq<Json>, t: seq<Json>)
    requires !Sensitive(key)
    ensures Redact(key, Arr(s)) == Redact(key, Arr(t)) <==>
      |s| == |t| && forall i :: 0 <= i < |s| ==> Redact(key, s[i]) == Redact(key, t[i])
  {
    var x, y := Redact(key, Arr(s)).items, Redact(key, Arr(t)).items;
    assert |x| == |s| && |y| == |t|;
    if x == y {
      forall i | 0 <= i < |s| ensures Redact(key, s[i]) == Redact(key, t[i]) {
        assert x[i] == y[i];
      }
    }
  }

  lemma ObjectsEqual(key: string, f: map<string, Json>, g: map<string, Json>)
    requires !Sensitive(key)
    ensures Redact(key, Obj(f)) == Redact(key, Obj(g)) <==>
      f.Keys == g.Keys && forall k :: k in f && k in g ==> Redact(k, f[k]) == Redact(k, g[k])
  {
    var x, y := Redact(key, Obj(f)).fields, Redact(key, Obj(g)).fields;
    assert x.Keys == f.Keys && y.Keys == g.Keys;
    if x == y {
      forall k | k in f && k in g ensures Redact(k, f[k]) == Redact(k, g[k]) {
        assert x[k] == y[k];
      }
    }
  }

  // --- What redaction does at each position of a tree ---

  datatype PathStep = Field(name: string) | Index(i: nat)

  /** The subtree at the end of a path, if the path exists. */
  function At(value: Json, path: seq<PathStep>): Option<Json> {
    if path == [] then Some(value)
    else match (path[0], value)
      case (Field(name), Obj(fields)) =>
        if name in fields then At(fields[name], path[1..]) else None
      case (Index(i), Arr(items)) =>
        if i < |items| then At(items[i], path[1..]) else None
      case _ => None
  }

  /** The key a value stands under: items of a list stand under the key of the list. */
  function KeyAt(key: string, path: seq<PathStep>): string {
    if path == [] then key
    else
      var last := path[|path| - 1];
      if last.Field? then last.name else KeyAt(key, path[..|path| - 1])
  }

  /** No position on the path, its ends included, stands under a sensitive key. */
  ghost predicate Clean(key: string, path: seq<PathStep>) {
    forall n :: 0 <= n <= |path| ==> !Sensitive(KeyAt(key, path[..n]))
  }

  /** The end of the path is its first position under a sensitive key. */
  ghost predicate FirstSensitive(key: string, path: seq<PathStep>) {
    && Sensitive(KeyAt(key, path))
    && forall n :: 0 <= n < |path| ==> !Sensitive(KeyAt(key, path[..n]))
  }

  /** Same fields, same number of items, or the very same leaf. */
  predicate SameShape(a: Json, b: Json) {
    match (a, b)
    case (Obj(f), Obj(g)) => f.Keys == g.Keys
    case (Arr(s), Arr(t)) => |s| == |t|
    case _ => a == b
  }

  lemma {:induction false} KeyAfterFirst(key: string, path: seq<PathStep>)
    requires path != []
    ensures KeyAt(key, path)
         == KeyAt(if path[0].Field? then path[0].name else key, path[1..])
  {
    var n := |path| - 1;
    if n > 0 && !path[n].Field? {
      KeyAfterFirst(key, path[..n]);
      assert path[..n][1..] == path[1..][..n - 1];
    }
  }

  lemma KeysAfterFirst(key: string, path: seq<PathStep>)
    requires path != []
    ensures var next := if path[0].Field? then path[0].name else key;
      forall n :: 0 <= n <= |path| - 1 ==> KeyAt(next, path[1..][..n]) == KeyAt(key, path[..n + 1])
  {
    forall n | 0 <= n <= |path| - 1
      ensures KeyAt(if path[0].Field? then path[0].name else key, path[1..][..n])
           == KeyAt(key, path[..n + 1])
    {
      KeyAfterFirst(key, path[..n + 1]);
      assert path[..n + 1][1..] == path[1..][..n];
    }
  }

  /** A path that meets no sensitive key exists in the output iff it does in the input, unchanged. */
  lemma {:induction false} CleanPathsAreKept(key: string, value: Json, path: seq<PathStep>)
    requires Clean(key, path)
    ensures var before, after := At(value, path), At(Redact(key, value), path);
      && (after.Some? <==> before.Some?)
      && (before.Some? ==> SameShape(before.value, after.value))
    decreases |path|
  {
    assert !Sensitive(KeyAt(key, path[..0]));
    if path != [] {
      KeysAfterFirst(key, path);
      match (path[0], value)
      case (Field(name), Obj(fields)) =>
        assert Clean(name, path[1..]);
        if name in fields {
          CleanPathsAreKept(name, fields[name], path[1..]);
        }
      case (Index(i), Arr(items)) =>
        assert Clean(key, path[1..]);
        if i < |items| {
          CleanPathsAreKept(key, items[i], path[1..]);
        }
      case _ =>
    }
  }

  /** The first position under a sensitive key holds the marker, at every depth. */
  lemma {:induction false} SensitivePositionsAreMarked(key: string, value: Json, path: seq<PathStep>)
    requires FirstSensitive(key, path)
    ensures At(Redact(key, value), path)
         == if At(value, path).Some? then Some(Str("[REDACTED]")) else None
    decreases |path|
  {
    if path != [] {
      assert !Sensitive(KeyAt(key, path[..0]));
      KeysAfterFirst(key, path);
      assert path[..|path|] == path && path[1..][..|path| - 1] == path[1..];
      match (path[0], value)
      case (Field(name), Obj(fields)) =>
        assert FirstSensitive(name, path[1..]);
        if name in fields {
          SensitivePositionsAreMarked(name, fields[name], path[1..]);
        }
      case (Index(i), Arr(items)) =>
        assert FirstSensitive(key, path[1..]);
        if i < |items| {
          SensitivePositionsAreMarked(key, items[i], path[1..]);
        }
      case _ =>
    }
  }

  /** Nothing of the input is left below a marker. */
  lemma NothingBelowMarkers(key: string, value: Json, path: seq<PathStep>, n: nat)
    requires n < |path| && FirstSensitive(key, path[..n])
    ensures At(Redact(key, value), path) == None
  {
    SensitivePositionsAreMarked(key, value, path[..n]);
    AtSplits(Redact(key, value), path[..n], path[n..]);
    assert path[..n] + path[n..] == path;
  }

  lemma {:induction false} AtSplits(value: Json, path: seq<PathStep>, more: seq<PathStep>)
    ensures At(value, path + more)
         == if At(value, path).Some? then At(At(value, path).value, more) else None
    decreases |path|
  {
    if path == [] {
      assert path + more == more;
    } else {
      assert (path + more)[1..] == path[1..] + more;
      match (path[0], value)
      case (Field(name), Obj(fields)) =>
        if name in fields {
          AtSplits(fields[name], path[1..], more);
        }
      case (Index(i), Arr(items)) =>
        if i < |items| {
          AtSplits(items[i], path[1..], more);
        }
      case _ =>
    }
  }

  /**
   Every position of the output is determined: along paths without a sensitive key the tree is as
   before, the first position under one holds the marker, and there is nothing below it.
   */
  lemma RedactionIsExact(key: string, value: Json, path: seq<PathStep>)
    ensures var before, after := At(value, path), At(Redact(key, value), path);
      && (Clean(key, path) ==>
            (after.Some? <==> before.Some?) && (before.Some? ==> SameShape(before.value, after.value)))
      && (FirstSensitive(key, path) ==> after == if before.Some? then Some(Str("[REDACTED]")) else None)
      && (forall n :: 0 <= n < |path| && FirstSensitive(key, path[..n]) ==> after == None)
      && (Clean(key, path) || exists n :: 0 <= n <= |path| && FirstSensitive(key, path[..n]))
  {
    CleanOrSensitive(key, path);
    if Clean(key, path) {
      CleanPathsAreKept(key, value, path);
    }
    if FirstSensitive(key, path) {
      SensitivePositionsAreMarked(key, value, path);
    }
    forall n | 0 <= n < |path| && FirstSensitive(key, path[..n])
      ensures At(Redact(key, value), path) == None
    {
      NothingBelowMarkers(key, value, path, n);
    }
  }

  lemma {:induction false} LeastSensitive(key: string, path: seq<PathStep>, m: nat)
    requires m <= |path| && Sensitive(KeyAt(key, path[..m]))
    ensures exists n :: 0 <= n <= |path| && FirstSensitive(key, path[..n])
    decreases m
  {
    if k :| 0 <= k < m && Sensitive(KeyAt(key, path[..k])) {
      LeastSensitive(key, path, k);
    } else {
      assert forall n :: 0 <= n < m ==> path[..m][..n] == path[..n];
      assert FirstSensitive(key, path[..m]);
    }
  }

  lemma CleanOrSensitive(key: string, path: seq<PathStep>)
    ensures Clean(key, path) || exists n :: 0 <= n <= |path| && FirstSensitive(key, path[..n])
  {
    if !Clean(key, path) {
      var m :| 0 <= m <= |path| && Sensitive(KeyAt(key, path[..m]));
      LeastSensitive(key, path, m);
    }
  }

  lemma {:induction false} RedactionAgrees(key: string, value: Json)
    ensures Agree(key, value, Redact(key, value))
    decreases value
  {
    if !Sensitive(key) {
      match value
      case Obj(f) =>
        forall k | k in f ensures Agree(k, f[k], Redact(k, f[k])) {
          RedactionAgrees(k, f[k]);
        }
      case Arr(s) =>
        forall i | 0 <= i < |s| ensures Agree(key, s[i], Redact(key, s[i])) {
          RedactionAgrees(key, s[i]);
        }
      case _ =>
    }
  }

  /** Redacting twice changes nothing more. */
  lemma RedactionIsIdempotent(key: string, value: Json)
    ensures Redact(key, Redact(key, value)) == Redact(key, value)
  {
    RedactionAgrees(key, value);
    NonInterference(key, value, Redact(key, value));
  }
}
