/** The glob compiler of contracts/workspace.ts, and what the regular expression it writes means. */
module Globs {
  import opened Wrappers
  import opened Text

  // ----- the compiler -------------------------------------------------------

  /** What a piece of a glob stands for: any directories, anything, anything within a segment, one character. */
  datatype Token = Directories | Anything | WithinSegment | Literal(c: char)

  /** The token at the front of a pattern, and how many characters it takes. */
  function FirstToken(pattern: string): (r: (Token, nat))
    requires pattern != []
    ensures 1 <= r.1 <= |pattern|
  {
    if pattern[0] != '*' then (Literal(pattern[0]), 1)
    else if |pattern| < 2 || pattern[1] != '*' then (WithinSegment, 1)
    else if |pattern| < 3 || pattern[2] != '/' then (Anything, 2)
    else (Directories, 3)
  }

  function Tokens(pattern: string): seq<Token>
  {
    if pattern == [] then [] else [FirstToken(pattern).0] + Tokens(pattern[FirstToken(pattern).1..])
  }

  predicate IsSyntax(c: char)
  {
    c in "\\^$+?.()|{}[]"
  }

  function Source(token: Token): string
  {
    match token
    case Directories => "(?:.*/)?"
    case Anything => ".*"
    case WithinSegment => "[^/]*"
    case Literal(c) => if IsSyntax(c) then ['\\', c] else [c]
  }

  function Sources(tokens: seq<Token>): string
  {
    if tokens == [] then "" else Source(tokens[0]) + Sources(tokens[1..])
  }

  /** The source text handed to `new RegExp(…, "i")`. */
  function GlobSource(pattern: string): string
  {
    "^" + Sources(Tokens(pattern)) + "$"
  }

  lemma Reassociate(a: string, b: string, c: string)
    ensures a + (b + c) == (a + b) + c
  {
  }

  lemma UnfoldTokens(s: string)
    requires s != []
    ensures Tokens(s) != [] && Tokens(s)[0] == FirstToken(s).0 && Tokens(s)[1..] == Tokens(s[FirstToken(s).1..])
  {
  }

  lemma UnfoldSources(pattern: string, i: nat)
    requires i < |pattern|
    ensures var (token, width) := FirstToken(pattern[i..]);
            Sources(Tokens(pattern[i..])) == Source(token) + Sources(Tokens(pattern[i + width..]))
  {
    UnfoldTokens(pattern[i..]);
    var width := FirstToken(pattern[i..]).1;
    assert pattern[i..][width..] == pattern[i + width..];
  }

  /** Writing the next token moves it from what is to come to what is done. */
  lemma WriteToken(pattern: string, i: nat, out: string, target: string)
    requires i < |pattern| && out + Sources(Tokens(pattern[i..])) == target
    ensures var (token, width) := FirstToken(pattern[i..]);
            (out + Source(token)) + Sources(Tokens(pattern[i + width..])) == target
  {
    var (token, width) := FirstToken(pattern[i..]);
    UnfoldSources(pattern, i);
    Reassociate(out, Source(token), Sources(Tokens(pattern[i + width..])));
  }

  /** What is written and what is still to be written make up the target. */
  ghost predicate Pending(pattern: string, i: nat, out: string, target: string)
  {
    i <= |pattern| && out + Sources(Tokens(pattern[i..])) == target
  }

  lemma NothingWritten(pattern: string)
    ensures Pending(pattern, 0, "", Sources(Tokens(pattern)))
  {
    assert pattern[0..] == pattern;
    assert "" + Sources(Tokens(pattern)) == Sources(Tokens(pattern));
  }

  lemma AllWritten(pattern: string, out: string, target: string)
    requires Pending(pattern, |pattern|, out, target)
    ensures out == target
  {
    assert Sources(Tokens(pattern[|pattern|..])) == "";
  }

  /** What is written for the character at `i`, and how far `i` moves. */
  method Piece(pattern: string, i: nat) returns (piece: string, width: nat)
    requires i < |pattern|
    ensures piece == Source(FirstToken(pattern[i..]).0) && width == FirstToken(pattern[i..]).1
  {
    var ch := pattern[i];
    if ch == '*' {
      if i + 1 < |pattern| && pattern[i + 1] == '*' {
        if i + 2 < |pattern| && pattern[i + 2] == '/' {
          return "(?:.*/)?", 3;
        }
        return ".*", 2;
      }
      return "[^/]*", 1;
    }
    return if IsSyntax(ch) then ['\\', ch] else [ch], 1;
  }

  /** The body of the loop. */
  method Write(pattern: string, i: nat, out: string, ghost target: string) returns (next: nat, longer: string)
    requires i < |pattern| && Pending(pattern, i, out, target)
    ensures i < next && Pending(pattern, next, longer, target)
  {
    WriteToken(pattern, i, out, target);
    var piece, width := Piece(pattern, i);
    return i + width, out + piece;
  }

  method GlobToRegExp(pattern: string) returns (source: string)
    ensures source == GlobSource(pattern)
  {
    var out, i := "", 0;
    ghost var target := Sources(Tokens(pattern));
    NothingWritten(pattern);
    while i < |pattern|
      invariant Pending(pattern, i, out, target)
      decreases |pattern| - i
    {
      i, out := Write(pattern, i, out, target);
    }
    AllWritten(pattern, out, target);
    return "^" + out + "$";
  }

  // ----- reading the source back --------------------------------------------

  datatype Atom = Char(c: char) | Dot | NotSlash | Group(terms: seq<Term>)

  datatype Quantifier = Once | Star | Optional

  datatype Term = Term(atom: Atom, quantifier: Quantifier)

  datatype Read<T> = Unsupported | Read(value: T, rest: string)
  {
    predicate IsFailure() { Unsupported? }
    function PropagateFailure<U>(): Read<U> requires Unsupported? { Unsupported }
    function Extract(): (T, string) requires Read? { (value, rest) }
  }

  /** An atom of the pattern grammar of ECMA-262 (section 22.2.1), as far as the compiler uses it. */
  function ReadAtom(s: string): (r: Read<Atom>)
    ensures r.Read? ==> |r.rest| < |s|
    decreases |s|, 0
  {
    if s == [] then Unsupported
    else if s[0] == '\\' then
      if |s| > 1 && IsSyntax(s[1]) then Read(Char(s[1]), s[2..]) else Unsupported
    else if s[0] == '.' then Read(Dot, s[1..])
    else if "[^/]" <= s then Read(NotSlash, s[4..])
    else if "(?:" <= s then
      var (terms, rest) :- ReadTerms(s[3..]);
      if rest != [] && rest[0] == ')' then Read(Group(terms), rest[1..]) else Unsupported
    else if IsSyntax(s[0]) || s[0] == '*' then Unsupported
    else Read(Char(s[0]), s[1..])
  }

  predicate IsQuantifierChar(s: string)
  {
    s != [] && s[0] in "*+?{"
  }

  function ReadTerm(s: string): (r: Read<Term>)
    ensures r.Read? ==> |r.rest| < |s|
    decreases |s|, 1
  {
    var (atom, rest) :- ReadAtom(s);
    if !IsQuantifierChar(rest) then Read(Term(atom, Once), rest)
    else if IsQuantifierChar(rest[1..]) then Unsupported
    else if rest[0] == '*' then Read(Term(atom, Star), rest[1..])
    else if rest[0] == '?' then Read(Term(atom, Optional), rest[1..])
    else Unsupported
  }

  /** Terms up to the end of the group or of the pattern. */
  function ReadTerms(s: string): (r: Read<seq<Term>>)
    ensures r.Read? ==> |r.rest| <= |s|
    decreases |s|, 2
  {
    if s == [] || s[0] == ')' || s[0] == '$' then Read([], s)
    else
      var (first, rest) :- ReadTerm(s);
      var (more, end) :- ReadTerms(rest);
      Read([first] + more, end)
  }

  /** The terms of an anchored pattern. */
  function ReadPattern(source: string): Option<seq<Term>>
  {
    if source == [] || source[0] != '^' then None
    else
      var r := ReadTerms(source[1..]);
      if r.Read? && r.rest == "$" then Some(r.value) else None
  }

  // ----- matching -----------------------------------------------------------

  /** Case folding of the `i` flag, for ASCII letters. */
  function Fold(c: char): char
  {
    if 'a' <= c <= 'z' then (c - 'a') + 'A' else c
  }

  ghost predicate MatchesAtom(atom: Atom, s: string)
    decreases atom, 0, 0
  {
    match atom
    case Char(c) => |s| == 1 && Fold(s[0]) == Fold(c)
    case Dot => |s| == 1 && !IsLineTerminator(s[0])
    case NotSlash => |s| == 1 && s[0] != '/'
    case Group(terms) => MatchesTerms(terms, s)
  }

  ghost predicate MatchesTerm(term: Term, s: string)
    decreases term, |s|, 0
  {
    match term.quantifier
    case Once => MatchesAtom(term.atom, s)
    case Optional => s == "" || MatchesAtom(term.atom, s)
    case Star => s == "" || exists k :: 0 < k <= |s| && MatchesAtom(term.atom, s[..k]) && MatchesTerm(term, s[k..])
  }

  /** The whole of `s` is matched by the terms in a row. */
  ghost predicate MatchesTerms(terms: seq<Term>, s: string)
    decreases terms, 0, 1
  {
    if terms == [] then s == ""
    else exists k :: 0 <= k <= |s| && MatchesTerm(terms[0], s[..k]) && MatchesTerms(terms[1..], s[k..])
  }

  /** `globToRegExp(pattern).test(path)` */
  ghost predicate GlobTest(pattern: string, path: string)
  {
    var terms := ReadPattern(GlobSource(pattern));
    terms.Some? && MatchesTerms(terms.value, path)
  }
}
