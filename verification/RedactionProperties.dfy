/** What redaction guarantees of its output, for input of any depth and width. */
module RedactionProperties {
  import opened Decimal
  import opened Values
  import opened Redaction

  // ----- strings ------------------------------------------------------------

  /** Every token has one of these characters, and none of the texts that redaction adds has any. */
  predicate IsTellTale(c: char)
  {
    c == '-' || c == '_' || c == 'A'
  }

  lemma TokenTellTale(t: string)
    requires IsSecretToken(t)
    ensures '\U{2026}' !in t
    ensures exists i :: 0 <= i < |t| && IsTellTale(t[i])
  {
    if StartThen(t, "sk-", 12, c => IsAlphanumeric(c) || c == '_' || c == '-') {
      StartsWith(t, "sk-", 2);
    } else if StartThen(t, "ghp_", 16, IsAlphanumeric) {
      StartsWith(t, "ghp_", 3);
    } else if StartThen(t, "AKIA", 12, c => IsDigit(c) || IsUpper(c)) {
      StartsWith(t, "AKIA", 0);
    } else if IsKeyHeader(t) {
      StartsWith(t, "-----BEGIN ", 0);
      HeaderCharacters(t);
    } else {
      StartsWith(t, ['x', 'o', 'x', t[3], '-'], 4);
    }
  }

  lemma StartsWith(t: string, start: string, k: nat)
    requires start <= t && k < |start|
    ensures t[k] == start[k]
    ensures forall i :: 0 <= i < |start| ==> t[i] == start[i]
  {
  }

  lemma HeaderCharacters(t: string)
    requires IsKeyHeader(t)
    ensures '\U{2026}' !in t
  {
    var start, end := "-----BEGIN ", "PRIVATE KEY-----";
    forall i | 0 <= i < |t| ensures t[i] != '\U{2026}' {
      if i < |start| {
        assert t[i] == start[i];
      } else if i >= |t| - |end| {
        assert t[i] == t[|t| - |end|..][i - (|t| - |end|)];
      }
    }
  }

  ghost predicate NoTellTale(s: string)
  {
    forall i :: 0 <= i < |s| ==> !IsTellTale(s[i])
  }

  lemma NoTokenWithout(t: string)
    requires NoTellTale(t) || '\U{2026}' in t
    ensures !IsSecretToken(t)
  {
    if IsSecretToken(t) {
      TokenTellTale(t);
    }
  }

  lemma NoTellTaleNoSecret(s: string)
    requires NoTellTale(s)
    ensures !SecretValue(s)
  {
    forall i, j | 0 <= i <= j <= |s| ensures !IsSecretToken(s[i..j]) {
      NoTokenWithout(s[i..j]);
    }
  }

  lemma MarkedCut(s: string, n: nat, note: string)
    requires n <= |s|
    ensures var cut := s[..n] + (ELLIPSIS + note);
            && |cut| == n + 1 + |note| && cut[..n] == s[..n] && cut[n] == '\U{2026}'
            && forall k :: n < k < |cut| ==> cut[k] == note[k - n - 1]
  {
  }

  /** Cutting a text short and marking the cut makes no token: none reaches across the mark. */
  lemma CutCreatesNothing(s: string, n: nat, note: string)
    requires n <= |s| && !SecretValue(s) && NoTellTale(note)
    ensures !SecretValue(s[..n] + (ELLIPSIS + note))
  {
    var cut := s[..n] + (ELLIPSIS + note);
    MarkedCut(s, n, note);
    forall i, j | 0 <= i <= j <= |cut| ensures !IsSecretToken(cut[i..j]) {
      var part := cut[i..j];
      if j <= n {
        assert part == s[i..j];
      } else {
        if i <= n {
          assert part[n - i] == cut[n];
        } else {
          forall k | 0 <= k < |part| ensures !IsTellTale(part[k]) {
            assert part[k] == cut[i + k] == note[i + k - n - 1];
          }
        }
        NoTokenWithout(part);
      }
    }
  }

  lemma NoteNoTellTale(before: string, n: nat, after: string)
    requires NoTellTale(before) && NoTellTale(after)
    ensures NoTellTale(before + Digits(n) + after)
  {
  }

  lemma RedactedStringSafe(s: string)
    ensures !SecretValue(RedactString(s))
  {
    if SecretValue(s) {
      NoTellTaleNoSecret(REDACTED);
    } else if |s| > MAX_STRING {
      NoteNoTellTale(" (", |s|, " chars)");
      CutCreatesNothing(s, MAX_STRING, " (" + Digits(|s|) + " chars)");
    }
  }

  // ----- structures ---------------------------------------------------------

  /**
   * At most `n` levels of containers, at most 51 entries in an array and 61 keys in an object, no string with a secret,
   * and every key that looks secret with its value replaced.
   */
  ghost predicate Safe(v: Value, n: nat)
  {
    match v
    case Str(s) => !SecretValue(s)
    case Arr(items) => n > 0 && |items| <= MAX_ARRAY + 1 && forall i :: 0 <= i < |items| ==> Safe(items[i], n - 1)
    case Obj(fields) =>
      n > 0 && |fields| <= MAX_KEYS + 1 && forall i :: 0 <= i < |fields| ==> SafeField(fields[i], n - 1)
    case Other => false
    case _ => true
  }

  ghost predicate SafeField(field: Field, n: nat)
  {
    (SecretKey(field.key) ==> field.value == Str(REDACTED)) && Safe(field.value, n)
  }

  ghost predicate SafeFields(fields: seq<Field>, n: nat)
  {
    forall f :: f in fields ==> SafeField(f, n)
  }

  lemma SafeNotes(n: nat)
    ensures !SecretValue(REDACTED) && !SecretValue(TRUNCATED) && !SecretValue(UNSERIALIZABLE)
    ensures Safe(ItemsNote(n), 0) && Safe(KeysNote(n), 0)
  {
    NoTellTaleNoSecret(REDACTED);
    NoTellTaleNoSecret(TRUNCATED);
    NoTellTaleNoSecret(UNSERIALIZABLE);
    NoteNoTellTale("(", n, " keys)");
    NoTellTaleNoSecret("(" + Digits(n) + " keys)");
    NoteNoTellTale(" (", n, " items)");
    NoTellTaleNoSecret(ELLIPSIS + (" (" + Digits(n) + " items)"));
  }

  lemma SafeLeaf(v: Value, n: nat)
    requires v.Str? && Safe(v, 0)
    ensures Safe(v, n)
  {
  }

  /** The key of the note does not look secret: what an object says of its size is not replaced. */
  lemma EllipsisNotSecret()
    ensures !SecretKey(ELLIPSIS)
  {
    forall w, i | 0 <= w < |SECRET_WORDS| && 0 <= i <= |ELLIPSIS|
      ensures !OccursAt(Text.Lower(ELLIPSIS), SECRET_WORDS[w], i)
    {
      assert |SECRET_WORDS[w]| > 1;
    }
  }

  /** Redaction is bounded and thorough, whatever it is given. */
  lemma {:induction false} RedactedIsSafe(v: Value, depth: nat)
    requires depth <= MAX_DEPTH
    ensures Safe(Redacted(v, depth), MAX_DEPTH - depth)
    decreases v, 0
  {
    SafeNotes(0);
    match v
    case Str(s) => RedactedStringSafe(s);
    case Arr(items) =>
      if depth < MAX_DEPTH {
        ItemsSafe(items, depth + 1);
      }
    case Obj(fields) =>
      if depth < MAX_DEPTH {
        ObjectSafe(fields, depth + 1);
      }
    case _ =>
  }

  lemma {:induction false} ItemsSafe(items: seq<Value>, depth: nat)
    requires depth <= MAX_DEPTH
    ensures var out := RedactedItems(items, depth);
            |out| <= MAX_ARRAY + 1 && forall i :: 0 <= i < |out| ==> Safe(out[i], MAX_DEPTH - depth)
    decreases items, 1
  {
    SafeNotes(|items|);
    SafeLeaf(ItemsNote(|items|), MAX_DEPTH - depth);
    forall i | 0 <= i < Least(|items|, MAX_ARRAY) ensures Safe(Redacted(items[i], depth), MAX_DEPTH - depth) {
      RedactedIsSafe(items[i], depth);
    }
  }

  lemma PutSafe(fields: seq<Field>, key: string, value: Value, n: nat)
    requires SafeFields(fields, n) && SafeField(Field(key, value), n)
    ensures SafeFields(Put(fields, key, value), n) && |Put(fields, key, value)| <= |fields| + 1
  {
  }

  lemma KeysNoteSafe(count: nat, n: nat)
    ensures SafeField(Field(ELLIPSIS, KeysNote(count)), n)
  {
    SafeNotes(count);
    SafeLeaf(KeysNote(count), n);
    EllipsisNotSecret();
  }

  lemma {:induction false} ObjectSafe(fields: seq<Field>, depth: nat)
    requires depth <= MAX_DEPTH
    ensures var out := RedactedObject(fields, depth);
            |out| <= MAX_KEYS + 1 && SafeFields(out, MAX_DEPTH - depth)
    decreases fields, |fields| + 1
  {
    hide SafeFields, SafeField, RedactedFields, Put;
    if |fields| > MAX_KEYS {
      FieldsSafe(fields, MAX_KEYS, depth);
      KeysNoteSafe(|fields|, MAX_DEPTH - depth);
      PutSafe(RedactedFields(fields, MAX_KEYS, depth), ELLIPSIS, KeysNote(|fields|), MAX_DEPTH - depth);
    } else {
      FieldsSafe(fields, |fields|, depth);
    }
  }

  lemma {:induction false} FieldsSafe(fields: seq<Field>, k: nat, depth: nat)
    requires k <= |fields| && depth <= MAX_DEPTH
    ensures var out := RedactedFields(fields, k, depth);
            |out| <= k && SafeFields(out, MAX_DEPTH - depth)
    decreases fields, k
  {
    hide SafeField, RedactedField, Put;
    if k > 0 {
      FieldsSafe(fields, k - 1, depth);
      var field := fields[k - 1];
      FieldSafe(field, depth);
      PutSafe(RedactedFields(fields, k - 1, depth), field.key, RedactedField(field, depth), MAX_DEPTH - depth);
    }
  }

  lemma {:induction false} FieldSafe(field: Field, depth: nat)
    requires depth <= MAX_DEPTH
    ensures SafeField(Field(field.key, RedactedField(field, depth)), MAX_DEPTH - depth)
    decreases field, 0
  {
    SafeNotes(0);
    if !SecretKey(field.key) {
      RedactedIsSafe(field.value, depth);
    }
  }

  // ----- what is kept -------------------------------------------------------

  /** The keys of an object, as `Object.entries` yields them: none twice. */
  ghost predicate DistinctKeys(fields: seq<Field>)
  {
    forall i, j :: 0 <= i < j < |fields| ==> fields[i].key != fields[j].key
  }

  lemma {:induction false} PutNew(fields: seq<Field>, key: string, value: Value)
    requires forall i :: 0 <= i < |fields| ==> fields[i].key != key
    ensures Put(fields, key, value) == fields + [Field(key, value)]
  {
    if fields != [] {
      PutNew(fields[1..], key, value);
      assert fields == [fields[0]] + fields[1..];
    }
  }

  /** The first `k` entries, in order and under their own keys. */
  ghost predicate Kept(out: seq<Field>, fields: seq<Field>, k: nat, depth: nat)
    requires k <= |fields|
  {
    |out| == k && forall i :: 0 <= i < k ==> out[i] == Field(fields[i].key, RedactedField(fields[i], depth))
  }

  lemma KeptStep(before: seq<Field>, fields: seq<Field>, k: nat, depth: nat)
    requires k < |fields| && DistinctKeys(fields) && Kept(before, fields, k, depth)
    ensures Kept(Put(before, fields[k].key, RedactedField(fields[k], depth)), fields, k + 1, depth)
  {
    forall i | 0 <= i < |before| ensures before[i].key != fields[k].key {
      assert before[i].key == fields[i].key;
    }
    PutNew(before, fields[k].key, RedactedField(fields[k], depth));
  }

  /** Every entry that is looked at keeps its place and its key. */
  lemma {:induction false} EntriesKept(fields: seq<Field>, k: nat, depth: nat)
    requires k <= |fields| && DistinctKeys(fields)
    ensures Kept(RedactedFields(fields, k, depth), fields, k, depth)
  {
    if k > 0 {
      EntriesKept(fields, k - 1, depth);
      KeptStep(RedactedFields(fields, k - 1, depth), fields, k - 1, depth);
    }
  }

  /** Small, and with no secret in it. */
  ghost predicate Clean(v: Value, n: nat)
  {
    match v
    case Str(s) => !SecretValue(s) && |s| <= MAX_STRING
    case Arr(items) => n > 0 && |items| <= MAX_ARRAY && forall i :: 0 <= i < |items| ==> Clean(items[i], n - 1)
    case Obj(fields) =>
      && n > 0 && |fields| <= MAX_KEYS && DistinctKeys(fields)
      && forall i :: 0 <= i < |fields| ==> CleanField(fields[i], n - 1)
    case Other => false
    case _ => true
  }

  ghost predicate CleanField(field: Field, n: nat)
  {
    !SecretKey(field.key) && Clean(field.value, n)
  }

  /** Small values without secrets come through unchanged. */
  lemma {:induction false} CleanUnchanged(v: Value, depth: nat)
    requires depth <= MAX_DEPTH && Clean(v, MAX_DEPTH - depth)
    ensures Redacted(v, depth) == v
  {
    match v
    case Arr(items) =>
      forall i | 0 <= i < |items| ensures Redacted(items[i], depth + 1) == items[i] {
        CleanUnchanged(items[i], depth + 1);
      }
      assert RedactedItems(items, depth + 1) == items;
    case Obj(fields) =>
      forall i | 0 <= i < |fields| ensures Field(fields[i].key, RedactedField(fields[i], depth + 1)) == fields[i] {
        assert CleanField(fields[i], MAX_DEPTH - depth - 1);
        CleanUnchanged(fields[i].value, depth + 1);
      }
      EntriesKept(fields, |fields|, depth + 1);
      assert RedactedObject(fields, depth + 1) == fields;
    case _ =>
  }

  /** The first fifty items stand in front, each redacted; behind them stands a note if there are more. */
  lemma ItemsKept(items: seq<Value>, depth: nat)
    ensures var out := RedactedItems(items, depth);
            && |out| == (if |items| <= 50 then |items| else 51)
            && (forall i :: 0 <= i < |items| && i < 50 ==> out[i] == Redacted(items[i], depth))
            && (|items| > 50 ==> out[50] == Str("\U{2026} (" + Digits(|items|) + " items)"))
  {
    assert ELLIPSIS + " (" == "\U{2026} (";
    Regroup("", ELLIPSIS, " (", Digits(|items|), " items)");
    assert "" + (ELLIPSIS + (" (" + Digits(|items|) + " items)")) == ELLIPSIS + (" (" + Digits(|items|) + " items)");
    assert "" + (ELLIPSIS + " (") == "\U{2026} (";
  }

  /** Of a long text without a secret the first five hundred characters stay, with a note of its length. */
  lemma LongTextCut(s: string)
    requires !SecretValue(s)
    ensures RedactString(s) == if |s| <= 500 then s else s[..500] + "\U{2026} (" + Digits(|s|) + " chars)"
  {
    if |s| > 500 {
      CutText(s[..500], Digits(|s|));
      hide *;
      CutIs(s);
    }
  }

  lemma CutIs(s: string)
    requires !SecretValue(s) && |s| > 500
    ensures RedactString(s) == s[..500] + (ELLIPSIS + (" (" + Digits(|s|) + " chars)"))
  {
    hide SecretValue;
  }

  lemma CutText(front: string, digits: string)
    ensures front + (ELLIPSIS + (" (" + digits + " chars)")) == front + "\U{2026} (" + digits + " chars)"
  {
    assert ELLIPSIS + " (" == "\U{2026} (";
    Regroup(front, ELLIPSIS, " (", digits, " chars)");
  }

  lemma Regroup(a: string, b: string, c: string, d: string, e: string)
    ensures a + (b + (c + d + e)) == a + (b + c) + d + e
  {
  }
}
