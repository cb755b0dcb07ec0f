/** The string helpers of the JavaScript library that the models need. */
module Text {

  /** What `trim` removes: the WhiteSpace and LineTerminator characters of ECMAScript, sections 12.2 and 12.3. */
  predicate IsSpace(c: char)
  {
    || c == '\t' || c == '\n' || c == '\U{000B}' || c == '\U{000C}' || c == '\r' || c == ' ' || c == '\U{00A0}'
    || c == '\U{1680}' || '\U{2000}' <= c <= '\U{200A}' || c == '\U{2028}' || c == '\U{2029}' || c == '\U{202F}'
    || c == '\U{205F}' || c == '\U{3000}' || c == '\U{FEFF}'
  }

  function TrimStart(s: string): (r: string)
    ensures |r| <= |s| && (r != [] ==> !IsSpace(r[0]))
    ensures s != [] && !IsSpace(s[0]) ==> r == s
  {
    if s != [] && IsSpace(s[0]) then TrimStart(s[1..]) else s
  }

  function TrimEnd(s: string): (r: string)
    ensures r <= s && (r != [] ==> !IsSpace(r[|r| - 1]))
    ensures s != [] && !IsSpace(s[|s| - 1]) ==> r == s
  {
    if s != [] && IsSpace(s[|s| - 1]) then TrimEnd(s[..|s| - 1]) else s
  }

  function Trim(s: string): (r: string)
    ensures |r| <= |s|
    ensures r != [] ==> !IsSpace(r[0]) && !IsSpace(r[|r| - 1])
  {
    TrimEnd(TrimStart(s))
  }

  predicate IsBlank(s: string)
  {
    Trim(s) == ""
  }

  /** Trimmed text is unchanged by trimming. */
  lemma TrimTrimmed(s: string)
    requires s == "" || (!IsSpace(s[0]) && !IsSpace(s[|s| - 1]))
    ensures Trim(s) == s
  {
  }

  predicate AllSpace(s: string)
  {
    forall i :: 0 <= i < |s| ==> IsSpace(s[i])
  }

  /** Every text is what trimming leaves, between white space. */
  lemma {:induction false} TrimParts(s: string) returns (a: string, b: string)
    ensures s == a + Trim(s) + b && AllSpace(a) && AllSpace(b)
  {
    if s != "" && IsSpace(s[0]) {
      var rest;
      rest, b := TrimParts(s[1..]);
      a := [s[0]] + rest;
      assert s == [s[0]] + s[1..];
      assert [s[0]] + (rest + Trim(s[1..]) + b) == a + Trim(s[1..]) + b;
    } else {
      a := "";
      b := TrimEndParts(s);
    }
  }

  lemma {:induction false} TrimEndParts(s: string) returns (b: string)
    ensures s == TrimEnd(s) + b && AllSpace(b)
  {
    if s != "" && IsSpace(s[|s| - 1]) {
      b := TrimEndParts(s[..|s| - 1]);
      b := b + [s[|s| - 1]];
    } else {
      b := "";
    }
  }

  /** White space around a text makes no difference to what trimming leaves. */
  lemma {:induction false} TrimPadded(a: string, s: string, b: string)
    requires AllSpace(a) && AllSpace(b)
    ensures Trim(a + s + b) == Trim(s)
    decreases |a| + |b|
  {
    if a != "" {
      assert (a + s + b)[1..] == a[1..] + s + b;
      TrimPadded(a[1..], s, b);
    } else if b != "" {
      assert a + s + b == s + b[..|b| - 1] + [b[|b| - 1]];
      TrimPadded("", s, b[..|b| - 1]);
      assert "" + s + b[..|b| - 1] == s + b[..|b| - 1];
      TrimOneMore(s + b[..|b| - 1], b[|b| - 1]);
    } else {
      assert a + s + b == s;
    }
  }

  lemma TrimOneMore(s: string, c: char)
    requires IsSpace(c)
    ensures Trim(s + [c]) == Trim(s)
  {
    TrimStartOneMore(s, c);
    if TrimStart(s) != "" {
      assert (TrimStart(s) + [c])[..|TrimStart(s)|] == TrimStart(s);
    }
  }

  lemma {:induction false} TrimStartOneMore(s: string, c: char)
    requires IsSpace(c)
    ensures TrimStart(s + [c]) == if TrimStart(s) == "" then "" else TrimStart(s) + [c]
  {
    if s == "" {
      assert s + [c] == [c] && [c][1..] == "";
    } else if IsSpace(s[0]) {
      assert (s + [c])[1..] == s[1..] + [c];
      TrimStartOneMore(s[1..], c);
    }
  }

  lemma {:induction false} TrimStartPadded(blank: string, s: string)
    requires AllSpace(blank)
    ensures TrimStart(blank + s) == TrimStart(s)
  {
    if blank == "" {
      assert blank + s == s;
    } else {
      assert (blank + s)[1..] == blank[1..] + s;
      TrimStartPadded(blank[1..], s);
    }
  }

  /** What the dot of a regular expression does not match. */
  predicate IsLineTerminator(c: char)
  {
    c == '\n' || c == '\r' || c == '\U{2028}' || c == '\U{2029}'
  }

  predicate OneLine(s: string)
  {
    forall c :: c in s ==> !IsLineTerminator(c)
  }

  /** `toLowerCase`, for ASCII letters. */
  function LowerChar(c: char): char
  {
    if 'A' <= c <= 'Z' then (c - 'A') + 'a' else c
  }

  function Lower(s: string): (r: string)
    ensures |r| == |s| && forall i :: 0 <= i < |s| ==> r[i] == LowerChar(s[i])
  {
    seq(|s|, i requires 0 <= i < |s| => LowerChar(s[i]))
  }
}
