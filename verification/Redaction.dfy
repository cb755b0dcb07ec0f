/** The bounded redaction of control/redaction.ts, with the secret patterns written out. */
module Redaction {
  import opened Decimal
  import opened Values
  import Text

  const MAX_STRING := 500
  const MAX_ARRAY := 50
  const MAX_KEYS := 60
  const MAX_DEPTH := 4
  const REDACTED := "[redacted]"
  const TRUNCATED := "[truncated]"
  const UNSERIALIZABLE := "[unserializable]"
  const ELLIPSIS := "\U{2026}"

  // ----- the patterns -------------------------------------------------------

  /** The alternatives of `SECRET_KEY`, spelled out; the pattern ignores case. */
  const SECRET_WORDS := [
    "apikey", "api_key", "api-key", "secret", "token", "password", "passwd", "authorization", "authheader",
    "auth_header", "auth-header", "bearer", "credential", "privatekey", "private_key", "private-key", "accesskey",
    "access_key", "access-key", "clientsecret", "client_secret", "client-secret", "session"]

  predicate OccursAt(s: string, word: string, i: nat)
  {
    i + |word| <= |s| && s[i..i + |word|] == word
  }

  predicate SecretKey(key: string)
  {
    exists w, i :: 0 <= w < |SECRET_WORDS| && 0 <= i <= |key| && OccursAt(Text.Lower(key), SECRET_WORDS[w], i)
  }

  predicate IsUpper(c: char) { 'A' <= c <= 'Z' }

  predicate IsAlphanumeric(c: char) { IsDigit(c) || IsUpper(c) || 'a' <= c <= 'z' }

  /** A fixed start, then at least `least` characters of a class. */
  predicate StartThen(t: string, start: string, least: nat, inClass: char -> bool)
  {
    && |start| + least <= |t| && start <= t
    && forall i :: |start| <= i < |t| ==> inClass(t[i])
  }

  predicate IsKeyHeader(t: string)
  {
    var (start, end) := ("-----BEGIN ", "PRIVATE KEY-----");
    && |start| + 1 + |end| <= |t| && start <= t && t[|t| - |end|..] == end
    && forall i :: |start| <= i < |t| - |end| ==> IsUpper(t[i]) || t[i] == ' '
  }

  /** What an alternative of `KNOWN_SECRET_VALUE_PATTERN` matches. */
  predicate IsSecretToken(t: string)
  {
    || StartThen(t, "sk-", 12, c => IsAlphanumeric(c) || c == '_' || c == '-')
    || StartThen(t, "ghp_", 16, IsAlphanumeric)
    || (|t| > 3 && t[3] in "baprs" && StartThen(t, ['x', 'o', 'x', t[3], '-'], 10, c => IsAlphanumeric(c) || c == '-'))
    || StartThen(t, "AKIA", 12, c => IsDigit(c) || IsUpper(c))
    || IsKeyHeader(t)
  }

  /** The pattern is not anchored: it matches a text when some part of the text is a token. */
  predicate SecretValue(s: string)
  {
    exists i, j :: 0 <= i <= j <= |s| && IsSecretToken(s[i..j])
  }

  // ----- redaction ----------------------------------------------------------

  function RedactString(s: string): string
  {
    if SecretValue(s) then REDACTED
    else if |s| > MAX_STRING then s[..MAX_STRING] + (ELLIPSIS + (" (" + Digits(|s|) + " chars)"))
    else s
  }

  /** Assigning a property: a key that is there keeps its place. */
  function Put(fields: seq<Field>, key: string, value: Value): (r: seq<Field>)
    ensures |fields| <= |r| <= |fields| + 1
    ensures forall f :: f in r ==> f == Field(key, value) || f in fields
  {
    if fields == [] then [Field(key, value)]
    else if fields[0].key == key then [Field(key, value)] + fields[1..]
    else [fields[0]] + Put(fields[1..], key, value)
  }

  function Least(a: nat, b: nat): nat
  {
    if a < b then a else b
  }

  function Redacted(value: Value, depth: nat): Value
    decreases value, 0
  {
    match value
    case Undefined => value
    case Null => value
    case Str(s) => Str(RedactString(s))
    case Num(_) => value
    case Bool(_) => value
    case Arr(items) => if depth >= MAX_DEPTH then Str(TRUNCATED) else Arr(RedactedItems(items, depth + 1))
    case Obj(fields) => if depth >= MAX_DEPTH then Str(TRUNCATED) else Obj(RedactedObject(fields, depth + 1))
    case Other => if depth >= MAX_DEPTH then Str(TRUNCATED) else Str(UNSERIALIZABLE)
  }

  function ItemsNote(n: nat): Value
  {
    Str(ELLIPSIS + (" (" + Digits(n) + " items)"))
  }

  function KeysNote(n: nat): Value
  {
    Str("(" + Digits(n) + " keys)")
  }

  function RedactedItems(items: seq<Value>, depth: nat): seq<Value>
    decreases items, 1
  {
    var n := Least(|items|, MAX_ARRAY);
    var kept := seq(n, i requires 0 <= i < n => Redacted(items[i], depth));
    if |items| > MAX_ARRAY then kept + [ItemsNote(|items|)] else kept
  }

  function RedactedObject(fields: seq<Field>, depth: nat): seq<Field>
    decreases fields, |fields| + 1
  {
    if |fields| > MAX_KEYS then Put(RedactedFields(fields, MAX_KEYS, depth), ELLIPSIS, KeysNote(|fields|))
    else RedactedFields(fields, |fields|, depth)
  }

  function RedactedField(field: Field, depth: nat): Value
    decreases field, 1
  {
    if SecretKey(field.key) then Str(REDACTED) else Redacted(field.value, depth)
  }

  /** The properties assigned for the first `k` entries. */
  function RedactedFields(fields: seq<Field>, k: nat, depth: nat): seq<Field>
    requires k <= |fields|
    decreases fields, k
  {
    if k == 0 then []
    else Put(RedactedFields(fields, k - 1, depth), fields[k - 1].key, RedactedField(fields[k - 1], depth))
  }

  method RedactValue(value: Value, depth: nat) returns (r: Value)
    ensures r == Redacted(value, depth)
    decreases value, 0
  {
    match value {
      case Undefined => return value;
      case Null => return value;
      case Str(s) => return Str(RedactString(s));
      case Num(_) => return value;
      case Bool(_) => return value;
      case _ =>
    }
    if depth >= MAX_DEPTH {
      return Str(TRUNCATED);
    }
    match value {
      case Arr(items) =>
        var out := RedactItems(items, depth + 1);
        return Arr(out);
      case Obj(fields) =>
        var out := RedactObject(fields, depth + 1);
        return Obj(out);
      case _ =>
        return Str(UNSERIALIZABLE);
    }
  }

  method RedactItems(items: seq<Value>, depth: nat) returns (out: seq<Value>)
    ensures out == RedactedItems(items, depth)
    decreases items, 1
  {
    out := [];
    var n := Least(|items|, MAX_ARRAY);
    for i := 0 to n
      invariant |out| == i
      invariant forall j :: 0 <= j < i ==> out[j] == Redacted(items[j], depth)
    {
      var entry := RedactValue(items[i], depth);
      out := out + [entry];
    }
    assert out == seq(n, i requires 0 <= i < n => Redacted(items[i], depth));
    if |items| > MAX_ARRAY {
      out := out + [ItemsNote(|items|)];
    }
  }

  method RedactObject(fields: seq<Field>, depth: nat) returns (out: seq<Field>)
    ensures out == RedactedObject(fields, depth)
    decreases fields, 1
  {
    out := [];
    var count := 0;
    for i := 0 to |fields|
      invariant count == i <= MAX_KEYS
      invariant out == RedactedFields(fields, i, depth)
    {
      if count >= MAX_KEYS {
        out := Put(out, ELLIPSIS, KeysNote(|fields|));
        return;
      }
      count := count + 1;
      var entry := Str(REDACTED);
      if !SecretKey(fields[i].key) {
        entry := RedactValue(fields[i].value, depth);
      }
      out := Put(out, fields[i].key, entry);
    }
  }

  method Redact(data: Value) returns (r: Value)
    ensures data.Undefined? || data.Null? ==> r == Obj([])
    ensures !data.Undefined? && !data.Null? ==> r == Redacted(data, 0)
  {
    r := RedactValue(if data.Undefined? || data.Null? then Obj([]) else data, 0);
  }
}
