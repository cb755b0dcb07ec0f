/** What redaction hides and where it stops, with the words, lengths and limits written out. */
module RedactionMeaning {
  import opened Decimal
  import opened Values
  import opened Redaction
  import opened RedactionProperties
  import Text

  // ----- secret keys --------------------------------------------------------

  const PLAIN_WORDS := ["secret", "token", "password", "passwd", "authorization", "bearer", "credential", "session"]

  /** One of eight words, or one of five pairs written as one word, with an underscore or with a hyphen. */
  predicate IsSecretWord(word: string)
  {
    || word in PLAIN_WORDS
    || IsPair(word, "api", "key") || IsPair(word, "auth", "header") || IsPair(word, "private", "key")
    || IsPair(word, "access", "key") || IsPair(word, "client", "secret")
  }

  predicate IsPair(word: string, first: string, second: string)
  {
    word == first + second || word == first + ("_" + second) || word == first + ("-" + second)
  }

  lemma WordsExact(word: string)
    ensures word in SECRET_WORDS <==> IsSecretWord(word)
  {
    hide IsPair;
    JoinedWords(word);
  }

  lemma JoinedWords(word: string)
    ensures IsPair(word, "api", "key") <==> word in ["apikey", "api_key", "api-key"]
    ensures IsPair(word, "auth", "header") <==> word in ["authheader", "auth_header", "auth-header"]
    ensures IsPair(word, "private", "key") <==> word in ["privatekey", "private_key", "private-key"]
    ensures IsPair(word, "access", "key") <==> word in ["accesskey", "access_key", "access-key"]
    ensures IsPair(word, "client", "secret") <==> word in ["clientsecret", "client_secret", "client-secret"]
  {
    assert "api" + "key" == "apikey";
    assert "api" + ("_" + "key") == "api_key" && "api" + ("-" + "key") == "api-key";
    assert "auth" + "header" == "authheader";
    assert "auth" + ("_" + "header") == "auth_header" && "auth" + ("-" + "header") == "auth-header";
    assert "private" + "key" == "privatekey";
    assert "private" + ("_" + "key") == "private_key" && "private" + ("-" + "key") == "private-key";
    assert "access" + "key" == "accesskey";
    assert "access" + ("_" + "key") == "access_key" && "access" + ("-" + "key") == "access-key";
    assert "client" + "secret" == "clientsecret";
    assert "client" + ("_" + "secret") == "client_secret" && "client" + ("-" + "secret") == "client-secret";
  }

  /** The word stands in the key from some place on, in upper or lower case. */
  ghost predicate Occurs(key: string, word: string)
  {
    exists i :: OccursFrom(key, word, i)
  }

  ghost predicate OccursFrom(key: string, word: string, i: int)
  {
    0 <= i <= |key| - |word| && forall k :: 0 <= k < |word| ==> Text.LowerChar(key[i + k]) == word[k]
  }

  /** A key is secret exactly when one of the words occurs in it, in any case. */
  lemma SecretKeyIff(key: string)
    ensures SecretKey(key) <==> exists word :: IsSecretWord(word) && Occurs(key, word)
  {
    hide IsSecretWord, Occurs, OccursAt;
    forall word ensures word in SECRET_WORDS <==> IsSecretWord(word) {
      WordsExact(word);
    }
    forall word ensures Occurs(key, word) <==> exists i :: 0 <= i <= |key| && OccursAt(Text.Lower(key), word, i) {
      OccursSomewhere(key, word);
    }
    if SecretKey(key) {
      var w, i :| 0 <= w < |SECRET_WORDS| && 0 <= i <= |key| && OccursAt(Text.Lower(key), SECRET_WORDS[w], i);
      assert IsSecretWord(SECRET_WORDS[w]) && Occurs(key, SECRET_WORDS[w]);
    }
  }

  lemma OccursSomewhere(key: string, word: string)
    ensures Occurs(key, word) <==> exists i :: 0 <= i <= |key| && OccursAt(Text.Lower(key), word, i)
  {
    forall i: int ensures OccursFrom(key, word, i) <==> 0 <= i <= |key| && OccursAt(Text.Lower(key), word, i) {
      OccursThere(key, word, i);
    }
  }

  lemma OccursThere(key: string, word: string, i: int)
    ensures OccursFrom(key, word, i) <==> 0 <= i <= |key| && OccursAt(Text.Lower(key), word, i)
  {
    if 0 <= i && i + |word| <= |key| {
      var there := Text.Lower(key)[i..i + |word|];
      assert forall k :: 0 <= k < |word| ==> there[k] == Text.LowerChar(key[i + k]);
    }
  }

  // ----- secret values ------------------------------------------------------

  /** A digit, a capital, a small letter where those are allowed, or one of these others. */
  predicate TokenChar(c: char, small: bool, others: string)
  {
    '0' <= c <= '9' || 'A' <= c <= 'Z' || (small && 'a' <= c <= 'z') || c in others
  }

  ghost predicate TokenRun(run: string, least: nat, small: bool, others: string)
  {
    |run| >= least && forall i :: 0 <= i < |run| ==> TokenChar(run[i], small, others)
  }

  /** What makes a token behind each of the starts. */
  lemma TokensAre(run: string, c: char)
    ensures IsSecretToken("sk-" + run) <==> TokenRun(run, 12, true, "_-")
    ensures IsSecretToken("ghp_" + run) <==> TokenRun(run, 16, true, "")
    ensures IsSecretToken("AKIA" + run) <==> TokenRun(run, 12, false, "")
    ensures IsSecretToken(['x', 'o', 'x', c, '-'] + run) <==> c in "baprs" && TokenRun(run, 10, true, "-")
  {
    TokenAfter("sk-", run);
    TokenAfter("ghp_", run);
    TokenAfter("AKIA", run);
    TokenAfter(['x', 'o', 'x', c, '-'], run);
  }

  lemma TokenAfter(start: string, run: string)
    requires start in ["sk-", "ghp_", "AKIA"] || (|start| == 5 && start == ['x', 'o', 'x', start[3], '-'])
    ensures IsSecretToken(start + run) <==>
            (start == "sk-" && TokenRun(run, 12, true, "_-")) || (start == "ghp_" && TokenRun(run, 16, true, ""))
            || (start == "AKIA" && TokenRun(run, 12, false, ""))
            || (|start| == 5 && start[3] in "baprs" && TokenRun(run, 10, true, "-"))
  {
    var t := start + run;
    assert forall i :: 0 <= i < |start| ==> t[i] == start[i];
    assert forall i :: 0 <= i < |run| ==> t[|start| + i] == run[i];
    OnlyStart(t, start, "sk-");
    OnlyStart(t, start, "ghp_");
    OnlyStart(t, start, "AKIA");
    OnlyStart(t, start, "-----BEGIN ");
    if |t| > 3 {
      OnlyStart(t, start, ['x', 'o', 'x', t[3], '-']);
    }
  }

  lemma OnlyStart(t: string, start: string, other: string)
    requires start <= t && start != [] && other != []
    ensures other <= t ==> other[0] == start[0]
  {
  }

  /** A key header names its kind in capitals and spaces. */
  lemma HeadersAre(kind: string)
    ensures IsSecretToken("-----BEGIN " + kind + "PRIVATE KEY-----") <==>
              kind != "" && forall i :: 0 <= i < |kind| ==> 'A' <= kind[i] <= 'Z' || kind[i] == ' '
  {
    var start, end := "-----BEGIN ", "PRIVATE KEY-----";
    var t := start + kind + end;
    assert forall i :: 0 <= i < |start| ==> t[i] == start[i];
    assert forall i :: 0 <= i < |kind| ==> t[|start| + i] == kind[i];
    assert t[|t| - |end|..] == end;
    OnlyStart(t, start, "sk-");
    OnlyStart(t, start, "ghp_");
    OnlyStart(t, start, "AKIA");
    OnlyStart(t, start, ['x', 'o', 'x', t[3], '-']);
  }

  // ----- limits -------------------------------------------------------------

  /** Four levels of arrays and objects are looked into; on the fifth stands a note. */
  lemma DepthIs(v: Value, depth: nat)
    requires v.Arr? || v.Obj? || v.Other?
    ensures Redacted(v, depth) == Str("[truncated]") <==> depth >= 4
  {
  }

  /** The first sixty entries stand in front, each redacted; behind them stands a note if there are more. */
  lemma KeysKept(fields: seq<Field>, depth: nat)
    requires DistinctKeys(fields) && forall f :: f in fields ==> f.key != "\U{2026}"
    ensures var out := RedactedObject(fields, depth);
            && |out| == (if |fields| <= 60 then |fields| else 61)
            && (forall i :: 0 <= i < |fields| && i < 60 ==>
                  out[i] == Field(fields[i].key, RedactedField(fields[i], depth)))
            && (|fields| > 60 ==> out[60] == Field("\U{2026}", Str("(" + Digits(|fields|) + " keys)")))
  {
    if |fields| > 60 {
      EntriesKept(fields, 60, depth);
      PutNew(RedactedFields(fields, 60, depth), ELLIPSIS, KeysNote(|fields|));
    } else {
      EntriesKept(fields, |fields|, depth);
    }
  }
}
