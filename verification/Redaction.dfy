/** Redaction of audit records (telemetry/audit.py), over trees of JSON values. */
module Redaction {

  /** A dictionary is its items in insertion order. */
  datatype Json =
    | Null | Bool(b: bool) | Number(n: real) | Str(s: string) | Arr(items: seq<Json>) | Obj(fields: seq<Field>)

  datatype Field = Field(key: string, value: Json)

  const REDACTED := "[REDACTED]"

  /** `_PEM_MARKERS`. */
  const MARKERS := ["-----BEGIN", "PRIVATE KEY", "BEGIN OPENSSH"]

  ghost predicate Contains(s: string, part: string) {
    exists i | 0 <= i <= |s| :: part <= s[i..]
  }

  /** The deny-list, and Python's `str.lower` and `str.upper`. All that is needed of the last is that it leaves the
      marker alone, which is in capitals. */
  datatype Rules = Rules(denylist: set<string>, lower: string -> string, upper: string -> string) {
    predicate Denied(key: string) { lower(key) in denylist }

    /** `_looks_like_key_material`. */
    ghost predicate Secret(s: string) {
      exists m | m in MARKERS :: Contains(upper(s), m)
    }

    ghost predicate Valid() { upper(REDACTED) == REDACTED }
  }

  /** `redact`. */
  ghost function Redact(v: Json, rules: Rules): Json
    decreases v
  {
    match v
    case Obj(fields) => Obj(seq(|fields|, i requires 0 <= i < |fields| => RedactField(fields[i], rules)))
    case Arr(items) => Arr(seq(|items|, i requires 0 <= i < |items| => Redact(items[i], rules)))
    case Str(s) => if rules.Secret(s) then Str(REDACTED) else v
    case _ => v
  }

  /** One item of `redact_mapping`. */
  ghost function RedactField(f: Field, rules: Rules): Field
    decreases f
  {
    Field(f.key, if rules.Denied(f.key) then Str(REDACTED) else Redact(f.value, rules))
  }

  // -- complete and idempotent ---------------------------------------------------------

  /** Nothing sensitive is left in a value: no string looks like key material, and a denied key holds the marker. */
  ghost predicate Clean(v: Json, rules: Rules)
    decreases v
  {
    match v
    case Obj(fields) => forall i | 0 <= i < |fields| :: CleanField(fields[i], rules)
    case Arr(items) => forall i | 0 <= i < |items| :: Clean(items[i], rules)
    case Str(s) => !rules.Secret(s)
    case _ => true
  }

  ghost predicate CleanField(f: Field, rules: Rules)
    decreases f
  {
    if rules.Denied(f.key) then f.value == Str(REDACTED) else Clean(f.value, rules)
  }

  lemma MarkerIsNoSecret(rules: Rules)
    requires rules.Valid()
    ensures !rules.Secret(REDACTED)
  {
    assert |MARKERS[0]| == |REDACTED| && MARKERS[0][0] != REDACTED[0];
    assert |MARKERS[1]| > |REDACTED| && |MARKERS[2]| > |REDACTED|;
  }

  /** Redaction leaves nothing sensitive behind. */
  lemma {:induction false} RedactIsComplete(v: Json, rules: Rules)
    requires rules.Valid()
    ensures Clean(Redact(v, rules), rules)
    decreases v
  {
    MarkerIsNoSecret(rules);
    match v
    case Obj(fields) =>
      forall i | 0 <= i < |fields| ensures CleanField(RedactField(fields[i], rules), rules) {
        RedactIsComplete(fields[i].value, rules);
      }
    case Arr(items) =>
      forall i | 0 <= i < |items| ensures Clean(Redact(items[i], rules), rules) {
        RedactIsComplete(items[i], rules);
      }
    case _ =>
  }

  /** A value with nothing sensitive in it is left exactly as it is, and no other value is. */
  lemma {:induction false} CleanIsFixed(v: Json, rules: Rules)
    requires rules.Valid()
    ensures Redact(v, rules) == v <==> Clean(v, rules)
    decreases v
  {
    RedactIsComplete(v, rules);
    if Clean(v, rules) {
      match v
      case Obj(fields) =>
        forall i | 0 <= i < |fields| ensures RedactField(fields[i], rules) == fields[i] {
          assert CleanField(fields[i], rules);
          CleanIsFixed(fields[i].value, rules);
        }
      case Arr(items) =>
        forall i | 0 <= i < |items| ensures Redact(items[i], rules) == items[i] {
          CleanIsFixed(items[i], rules);
        }
      case _ =>
    }
  }

  lemma RedactTwice(v: Json, rules: Rules)
    requires rules.Valid()
    ensures Redact(Redact(v, rules), rules) == Redact(v, rules)
  {
    RedactIsComplete(v, rules);
    CleanIsFixed(Redact(v, rules), rules);
  }

  // -- what is replaced, and what is not -------------------------------------------------

  /** The value a path of positions leads to, if there is one. */
  function At(v: Json, path: seq<nat>): (r: seq<Json>)
    ensures |r| <= 1
  {
    if path == [] then [v]
    else if v.Obj? && path[0] < |v.fields| then At(v.fields[path[0]].value, path[1..])
    else if v.Arr? && path[0] < |v.items| then At(v.items[path[0]], path[1..])
    else []
  }

  /** Somewhere along the path a denied key is crossed. */
  predicate Crosses(v: Json, path: seq<nat>, rules: Rules) {
    if path == [] then false
    else if v.Obj? && path[0] < |v.fields| then
      rules.Denied(v.fields[path[0]].key) || Crosses(v.fields[path[0]].value, path[1..], rules)
    else v.Arr? && path[0] < |v.items| && Crosses(v.items[path[0]], path[1..], rules)
  }

  /** Where no denied key is crossed, the shape is preserved: the redacted record has a value at a path exactly when the
      original has, and it is that value redacted, so a scalar other than key material is untouched. */
  lemma {:induction false} RedactAt(v: Json, path: seq<nat>, rules: Rules)
    requires !Crosses(v, path, rules)
    ensures |At(Redact(v, rules), path)| == |At(v, path)|
    ensures At(v, path) != [] ==> At(Redact(v, rules), path)[0] == Redact(At(v, path)[0], rules)
    decreases |path|
  {
    if path != [] {
      if v.Obj? && path[0] < |v.fields| {
        RedactAt(v.fields[path[0]].value, path[1..], rules);
      } else if v.Arr? && path[0] < |v.items| {
        RedactAt(v.items[path[0]], path[1..], rules);
      }
    }
  }

  /** Below a denied key the redacted record holds the marker at that key and nothing deeper. */
  lemma {:induction false} NothingBelowDenied(v: Json, path: seq<nat>, rules: Rules)
    requires Crosses(v, path, rules)
    ensures At(Redact(v, rules), path) in {[], [Str(REDACTED)]}
    decreases |path|
  {
    if v.Obj? {
      if !rules.Denied(v.fields[path[0]].key) {
        NothingBelowDenied(v.fields[path[0]].value, path[1..], rules);
      }
    } else {
      NothingBelowDenied(v.items[path[0]], path[1..], rules);
    }
  }
}
