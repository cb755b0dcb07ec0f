/** The regular expression a glob is compiled to reads back as intended, and matches what its tokens say. */
module GlobReading {
  import opened Wrappers
  import opened Text
  import opened Globs

  // ----- the source reads back as the intended terms ------------------------

  function TermOf(token: Token): Term
  {
    match token
    case Directories => Term(Group([Term(Dot, Star), Term(Char('/'), Once)]), Optional)
    case Anything => Term(Dot, Star)
    case WithinSegment => Term(NotSlash, Star)
    case Literal(c) => Term(Char(c), Once)
  }

  function TermsOf(tokens: seq<Token>): seq<Term>
  {
    if tokens == [] then [] else [TermOf(tokens[0])] + TermsOf(tokens[1..])
  }

  /** The compiler never makes a literal of a star. */
  predicate NoStarLiteral(tokens: seq<Token>)
  {
    Literal('*') !in tokens
  }

  lemma {:induction false} TokensNoStarLiteral(pattern: string)
    ensures NoStarLiteral(Tokens(pattern))
    decreases |pattern|
  {
    if pattern != [] {
      TokensNoStarLiteral(pattern[FirstToken(pattern).1..]);
    }
  }

  lemma ReadTermOnce(s: string, atom: Atom, rest: string)
    requires ReadAtom(s) == Read(atom, rest) && !IsQuantifierChar(rest)
    ensures ReadTerm(s) == Read(Term(atom, Once), rest)
  {
  }

  lemma ReadTermQuantified(s: string, atom: Atom, rest: string, q: Quantifier)
    requires ReadAtom(s) == Read(atom, rest) && rest != [] && !IsQuantifierChar(rest[1..])
    requires (q == Star && rest[0] == '*') || (q == Optional && rest[0] == '?')
    ensures ReadTerm(s) == Read(Term(atom, q), rest[1..])
  {
  }

  lemma ReadTermsStep(s: string, first: Term, rest: string, more: seq<Term>, end: string)
    requires s != [] && s[0] != ')' && s[0] != '$'
    requires ReadTerm(s) == Read(first, rest) && ReadTerms(rest) == Read(more, end)
    ensures ReadTerms(s) == Read([first] + more, end)
  {
  }

  /** `.*` */
  lemma ReadAnything(tail: string)
    requires !IsQuantifierChar(tail)
    ensures ReadTerm(".*" + tail) == Read(TermOf(Anything), tail)
  {
    var s := ".*" + tail;
    assert s[1..] == "*" + tail && s[1..][1..] == tail;
    ReadTermQuantified(s, Dot, "*" + tail, Star);
  }

  /** `[^/]*` */
  lemma ReadWithinSegment(tail: string)
    requires !IsQuantifierChar(tail)
    ensures ReadTerm("[^/]*" + tail) == Read(TermOf(WithinSegment), tail)
  {
    var s := "[^/]*" + tail;
    assert "[^/]" <= s && s[4..] == "*" + tail && s[4..][1..] == tail;
    ReadTermQuantified(s, NotSlash, "*" + tail, Star);
  }

  lemma ReadLiteral(c: char, tail: string)
    requires c != '*' && !IsQuantifierChar(tail)
    ensures ReadTerm(Source(Literal(c)) + tail) == Read(TermOf(Literal(c)), tail)
  {
    var s := Source(Literal(c)) + tail;
    if IsSyntax(c) {
      assert s[2..] == tail;
    } else {
      assert s[1..] == tail;
      assert s[0] == c;
    }
    ReadTermOnce(s, Char(c), tail);
  }

  /** The slash that ends the group. */
  lemma ReadSlash(tail: string)
    requires tail != [] && tail[0] == ')'
    ensures ReadTerms("/" + tail) == Read([Term(Char('/'), Once)], tail)
  {
    var slash := "/" + tail;
    assert slash[1..] == tail;
    ReadTermOnce(slash, Char('/'), tail);
    ReadTermsStep(slash, Term(Char('/'), Once), tail, [], tail);
    assert [Term(Char('/'), Once)] + [] == [Term(Char('/'), Once)];
  }

  /** The inside of the group for directories, up to the closing parenthesis. */
  lemma ReadGroupBody(tail: string)
    requires tail != [] && tail[0] == ')'
    ensures ReadTerms(".*/" + tail) == Read([Term(Dot, Star), Term(Char('/'), Once)], tail)
  {
    var slash := "/" + tail;
    assert ".*/" + tail == ".*" + slash;
    ReadAnything(slash);
    ReadSlash(tail);
    ReadTermsStep(".*" + slash, Term(Dot, Star), slash, [Term(Char('/'), Once)], tail);
    assert [Term(Dot, Star)] + [Term(Char('/'), Once)] == [Term(Dot, Star), Term(Char('/'), Once)];
  }

  /** `(?:.*\/)?` */
  lemma ReadDirectories(tail: string)
    requires !IsQuantifierChar(tail)
    ensures ReadTerm("(?:.*/)?" + tail) == Read(TermOf(Directories), tail)
  {
    var s := "(?:.*/)?" + tail;
    var close := ")?" + tail;
    assert "(?:" <= s && s[3..] == ".*/" + close;
    ReadGroupBody(close);
    assert close[1..] == "?" + tail && close[1..][1..] == tail;
    ReadTermQuantified(s, Group([Term(Dot, Star), Term(Char('/'), Once)]), close[1..], Optional);
  }

  lemma ReadToken(token: Token, tail: string)
    requires token != Literal('*') && !IsQuantifierChar(tail)
    ensures ReadTerm(Source(token) + tail) == Read(TermOf(token), tail)
  {
    match token
    case Directories => ReadDirectories(tail);
    case Anything => ReadAnything(tail);
    case WithinSegment => ReadWithinSegment(tail);
    case Literal(c) => ReadLiteral(c, tail);
  }

  lemma SourceStart(token: Token)
    requires token != Literal('*')
    ensures Source(token) != [] && Source(token)[0] !in "*+?{)$"
  {
  }

  lemma {:induction false} ReadSources(tokens: seq<Token>)
    requires NoStarLiteral(tokens)
    ensures ReadTerms(Sources(tokens) + "$") == Read(TermsOf(tokens), "$")
    ensures !IsQuantifierChar(Sources(tokens) + "$")
  {
    if tokens == [] {
      assert Sources(tokens) + "$" == "$";
    } else {
      var tail := Sources(tokens[1..]) + "$";
      ReadSources(tokens[1..]);
      Reassociate(Source(tokens[0]), Sources(tokens[1..]), "$");
      ReadToken(tokens[0], tail);
      SourceStart(tokens[0]);
      var s := Source(tokens[0]) + tail;
      assert s[0] == Source(tokens[0])[0];
      ReadTermsStep(s, TermOf(tokens[0]), tail, TermsOf(tokens[1..]), "$");
    }
  }

  /** Reading the emitted source gives the intended terms, for every pattern. */
  lemma GlobSourceReadsBack(pattern: string)
    ensures ReadPattern(GlobSource(pattern)) == Some(TermsOf(Tokens(pattern)))
  {
    var body := Sources(Tokens(pattern)) + "$";
    TokensNoStarLiteral(pattern);
    ReadSources(Tokens(pattern));
    assert GlobSource(pattern)[1..] == body;
  }

  // ----- what the tokens match ----------------------------------------------

  /** Empty, or a text without line terminators that ends in a slash. */
  ghost predicate DirectoryPrefix(s: string)
  {
    s == "" || (s[|s| - 1] == '/' && OneLine(s))
  }

  ghost predicate TokenCovers(token: Token, s: string)
  {
    match token
    case Directories => DirectoryPrefix(s)
    case Anything => OneLine(s)
    case WithinSegment => '/' !in s
    case Literal(c) => |s| == 1 && Fold(s[0]) == Fold(c)
  }

  ghost predicate MatchesTokens(tokens: seq<Token>, s: string)
  {
    if tokens == [] then s == ""
    else exists k :: 0 <= k <= |s| && TokenCovers(tokens[0], s[..k]) && MatchesTokens(tokens[1..], s[k..])
  }

  lemma {:induction false} DotStar(s: string)
    ensures MatchesTerm(Term(Dot, Star), s) <==> OneLine(s)
    decreases |s|
  {
    if s != "" {
      assert s == [s[0]] + s[1..];
      DotStar(s[1..]);
      if MatchesTerm(Term(Dot, Star), s) {
        var k :| 0 < k <= |s| && MatchesAtom(Dot, s[..k]) && MatchesTerm(Term(Dot, Star), s[k..]);
        assert k == 1;
      } else {
        assert s[..1] == [s[0]] && MatchesAtom(Dot, s[..1]) == !IsLineTerminator(s[0]);
      }
    }
  }

  lemma {:induction false} NotSlashStar(s: string)
    ensures MatchesTerm(Term(NotSlash, Star), s) <==> '/' !in s
    decreases |s|
  {
    if s != "" {
      assert s == [s[0]] + s[1..];
      NotSlashStar(s[1..]);
      if MatchesTerm(Term(NotSlash, Star), s) {
        var k :| 0 < k <= |s| && MatchesAtom(NotSlash, s[..k]) && MatchesTerm(Term(NotSlash, Star), s[k..]);
        assert k == 1;
      } else {
        assert s[..1] == [s[0]] && MatchesAtom(NotSlash, s[..1]) == (s[0] != '/');
      }
    }
  }

  lemma OneTerm(term: Term, s: string)
    ensures MatchesTerms([term], s) <==> MatchesTerm(term, s)
  {
    var none: seq<Term> := [term][1..];
    assert none == [];
    if MatchesTerm(term, s) {
      assert s[..|s|] == s && s[|s|..] == "" && MatchesTerms(none, "");
    }
    if MatchesTerms([term], s) {
      var k :| 0 <= k <= |s| && MatchesTerm(term, s[..k]) && MatchesTerms(none, s[k..]);
      assert k == |s| && s[..k] == s;
    }
  }

  const SLASH: Term := Term(Char('/'), Once)

  const DIRECTORIES_BODY: seq<Term> := [Term(Dot, Star), SLASH]

  lemma BodyMatchesPrefix(s: string)
    requires s != "" && DirectoryPrefix(s)
    ensures MatchesTerms(DIRECTORIES_BODY, s)
  {
    var k := |s| - 1;
    DotStar(s[..k]);
    OneTerm(SLASH, s[k..]);
    assert DIRECTORIES_BODY[1..] == [SLASH];
    assert MatchesTerm(DIRECTORIES_BODY[0], s[..k]) && MatchesTerms(DIRECTORIES_BODY[1..], s[k..]);
  }

  lemma BodyMatchesOnlyPrefixes(s: string)
    requires MatchesTerms(DIRECTORIES_BODY, s)
    ensures s != "" && DirectoryPrefix(s)
  {
    assert DIRECTORIES_BODY[1..] == [SLASH];
    var k :| 0 <= k <= |s| && MatchesTerm(DIRECTORIES_BODY[0], s[..k]) && MatchesTerms(DIRECTORIES_BODY[1..], s[k..]);
    OneTerm(SLASH, s[k..]);
    DotStar(s[..k]);
    assert |s[k..]| == 1 && Fold(s[k]) == '/';
    assert s == s[..k] + [s[k]];
  }

  lemma OptionalDirectories(s: string)
    ensures MatchesTerm(TermOf(Directories), s) <==> DirectoryPrefix(s)
  {
    if s != "" && DirectoryPrefix(s) {
      BodyMatchesPrefix(s);
    }
    if s != "" && MatchesTerms(DIRECTORIES_BODY, s) {
      BodyMatchesOnlyPrefixes(s);
    }
  }

  lemma TokenMeaning(token: Token, s: string)
    ensures MatchesTerm(TermOf(token), s) <==> TokenCovers(token, s)
  {
    match token
    case Directories => OptionalDirectories(s);
    case Anything => DotStar(s);
    case WithinSegment => NotSlashStar(s);
    case Literal(c) =>
  }

  lemma {:induction false} TokensMeaning(tokens: seq<Token>, s: string)
    ensures MatchesTerms(TermsOf(tokens), s) <==> MatchesTokens(tokens, s)
    decreases |tokens|
  {
    if tokens != [] {
      assert TermsOf(tokens)[1..] == TermsOf(tokens[1..]);
      forall k | 0 <= k <= |s|
        ensures MatchesTerm(TermOf(tokens[0]), s[..k]) <==> TokenCovers(tokens[0], s[..k])
        ensures MatchesTerms(TermsOf(tokens[1..]), s[k..]) <==> MatchesTokens(tokens[1..], s[k..])
      {
        TokenMeaning(tokens[0], s[..k]);
        TokensMeaning(tokens[1..], s[k..]);
      }
    }
  }

  /** For every pattern and path: the test is the tokens of the pattern matched in a row. */
  lemma GlobTestIsTokens(pattern: string, path: string)
    ensures GlobTest(pattern, path) <==> MatchesTokens(Tokens(pattern), path)
  {
    GlobSourceReadsBack(pattern);
    TokensMeaning(Tokens(pattern), path);
  }
}
