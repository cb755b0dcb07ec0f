/** Globs segment by segment: what `matchesAny` and `classifyWorkspacePath` of contracts/workspace.ts decide. */
module GlobSegments {
  import opened Segments
  import opened Text
  import opened Globs
  import opened GlobReading

  // ----- the segment-level meaning ------------------------------------------

  predicate NoDoubleStar(segment: string)
  {
    |segment| < 2 || ((segment[0] != '*' || segment[1] != '*') && NoDoubleStar(segment[1..]))
  }

  /** Patterns in which two stars in a row are a whole segment. */
  ghost predicate WholeStars(patterns: seq<string>)
  {
    forall p :: p in patterns ==> p == "**" || NoDoubleStar(p)
  }

  /** A segment against a pattern segment: a star is any run of characters, letters match in either case. */
  ghost predicate SegmentMatch(pattern: string, segment: string)
  {
    if pattern == "" then segment == ""
    else if pattern[0] == '*' then exists k :: 0 <= k <= |segment| && SegmentMatch(pattern[1..], segment[k..])
    else segment != "" && Fold(segment[0]) == Fold(pattern[0]) && SegmentMatch(pattern[1..], segment[1..])
  }

  /**
   * A path against a pattern, both cut into segments: `**` in front of more stands for zero or more segments, at the
   * end for one or more. A segment with a line terminator in it is never skipped this way.
   */
  ghost predicate PathMatch(patterns: seq<string>, segments: seq<string>)
    decreases |patterns| + |segments|
  {
    if patterns == [] then segments == []
    else if patterns[0] == "**" then
      if |patterns| == 1 then segments != [] && forall seg :: seg in segments ==> OneLine(seg)
      else || PathMatch(patterns[1..], segments)
           || (segments != [] && OneLine(segments[0]) && PathMatch(patterns, segments[1..]))
    else segments != [] && SegmentMatch(patterns[0], segments[0]) && PathMatch(patterns[1..], segments[1..])
  }

  // ----- tokens in a row ----------------------------------------------------

  lemma {:induction false} MatchSplits(a: seq<Token>, b: seq<Token>, s: string) returns (k: nat)
    requires MatchesTokens(a + b, s)
    ensures k <= |s| && MatchesTokens(a, s[..k]) && MatchesTokens(b, s[k..])
    decreases |a|
  {
    if a == [] {
      assert a + b == b && s[0..] == s && s[..0] == "";
      k := 0;
    } else {
      ConcatTail(a, b);
      var j := MatchesFirst(a + b, s);
      var m := MatchSplits(a[1..], b, s[j..]);
      k := j + m;
      SplitFurther(a, s, j, k);
      SliceSlices(s, j, k);
    }
  }

  lemma SplitFurther(tokens: seq<Token>, s: string, j: nat, k: nat)
    requires tokens != [] && j <= k <= |s| && TokenCovers(tokens[0], s[..j])
    requires MatchesTokens(tokens[1..], s[j..][..k - j])
    ensures MatchesTokens(tokens, s[..k])
  {
    SliceSlices(s, j, k);
    MatchesBy(tokens, s[..k], j);
  }

  lemma {:induction false} MatchJoins(a: seq<Token>, b: seq<Token>, s: string, k: nat)
    requires k <= |s| && MatchesTokens(a, s[..k]) && MatchesTokens(b, s[k..])
    ensures MatchesTokens(a + b, s)
    decreases |a|
  {
    if a == [] {
      assert a + b == b && s[0..] == s;
    } else {
      var j := MatchesFirst(a, s[..k]);
      SliceSlices(s, j, k);
      MatchJoins(a[1..], b, s[j..], k - j);
      ConcatTail(a, b);
      MatchesBy(a + b, s, j);
    }
  }

  lemma MatchesFirst(tokens: seq<Token>, s: string) returns (j: nat)
    requires tokens != [] && MatchesTokens(tokens, s)
    ensures j <= |s| && TokenCovers(tokens[0], s[..j]) && MatchesTokens(tokens[1..], s[j..])
  {
    j :| 0 <= j <= |s| && TokenCovers(tokens[0], s[..j]) && MatchesTokens(tokens[1..], s[j..]);
  }

  lemma MatchesBy(tokens: seq<Token>, s: string, j: nat)
    requires tokens != [] && j <= |s| && TokenCovers(tokens[0], s[..j]) && MatchesTokens(tokens[1..], s[j..])
    ensures MatchesTokens(tokens, s)
  {
  }

  lemma ConcatTail(a: seq<Token>, b: seq<Token>)
    requires a != []
    ensures (a + b)[0] == a[0] && (a + b)[1..] == a[1..] + b
  {
  }

  lemma SliceSlices(s: string, j: nat, k: nat)
    requires j <= k <= |s|
    ensures s[..k][..j] == s[..j] && s[..k][j..] == s[j..][..k - j] && s[j..][k - j..] == s[k..]
  {
  }

  function SegmentToken(c: char): Token
  {
    if c == '*' then WithinSegment else Literal(c)
  }

  /** The tokens of a segment without `**`: a star, or the character itself. */
  function SegmentTokens(p: string): seq<Token>
  {
    if p == "" then [] else [SegmentToken(p[0])] + SegmentTokens(p[1..])
  }

  lemma {:induction false} TokensOfSegment(p: string, tail: string)
    requires NoDoubleStar(p) && (tail == "" || tail[0] == '/')
    ensures Tokens(p + tail) == SegmentTokens(p) + Tokens(tail)
  {
    if p == "" {
      assert p + tail == tail;
    } else {
      var s := p + tail;
      FirstOfSegment(p, tail);
      UnfoldTokens(s);
      TokensOfSegment(p[1..], tail);
      Prepend(Tokens(s), SegmentToken(p[0]), SegmentTokens(p[1..]), Tokens(tail));
    }
  }

  lemma FirstOfSegment(p: string, tail: string)
    requires p != "" && NoDoubleStar(p) && (tail == "" || tail[0] == '/')
    ensures (p + tail)[1..] == p[1..] + tail && FirstToken(p + tail) == (SegmentToken(p[0]), 1)
  {
    if |p| > 1 {
      assert (p + tail)[1] == p[1];
    }
  }

  lemma Prepend(whole: seq<Token>, first: Token, middle: seq<Token>, end: seq<Token>)
    requires whole != [] && whole[0] == first && whole[1..] == middle + end
    ensures whole == ([first] + middle) + end
  {
    assert whole == [first] + whole[1..];
  }

  lemma {:induction false} SegmentTokensMeaning(p: string, s: string)
    requires '/' !in p
    ensures MatchesTokens(SegmentTokens(p), s) <==> '/' !in s && SegmentMatch(p, s)
    decreases |p|
  {
    if p != "" {
      var rest := SegmentTokens(p[1..]);
      assert SegmentTokens(p)[1..] == rest;
      forall k | 0 <= k <= |s|
        ensures MatchesTokens(rest, s[k..]) <==> '/' !in s[k..] && SegmentMatch(p[1..], s[k..])
        ensures '/' !in s <==> '/' !in s[..k] && '/' !in s[k..]
      {
        SegmentTokensMeaning(p[1..], s[k..]);
        assert s == s[..k] + s[k..];
      }
      if p[0] != '*' && s != "" {
        assert s[..1] == [s[0]];
        if MatchesTokens(SegmentTokens(p), s) {
          var k :| 0 <= k <= |s| && TokenCovers(Literal(p[0]), s[..k]) && MatchesTokens(rest, s[k..]);
          assert k == 1;
        }
      }
    }
  }

  // ----- one segment of the pattern at a time -------------------------------

  lemma FindIsFirst(s: string, k: nat)
    requires k < |s| && s[k] == '/' && '/' !in s[..k]
    ensures Has(s, '/') && First(s, '/') == s[..k] && After(s, '/') == s[k + 1..]
  {
    FindAt(s, '/', k);
  }

  lemma SlashThen(r: string, s: string)
    ensures MatchesTokens(Tokens("/" + r), s) <==> s != "" && s[0] == '/' && MatchesTokens(Tokens(r), s[1..])
  {
    var pattern := "/" + r;
    assert pattern[1..] == r;
    assert Tokens(pattern)[0] == Literal('/') && Tokens(pattern)[1..] == Tokens(r);
    if s != "" && s[0] == '/' {
      assert s[..1] == "/";
    }
    if MatchesTokens(Tokens(pattern), s) {
      var k :| 0 <= k <= |s| && TokenCovers(Literal('/'), s[..k]) && MatchesTokens(Tokens(r), s[k..]);
      assert k == 1 && s[..1][0] == s[0];
    }
  }

  /** A last segment without `**` matches a path of one segment. */
  lemma LastSegment(p: string, s: string)
    requires '/' !in p && NoDoubleStar(p)
    ensures MatchesTokens(Tokens(p), s) <==> '/' !in s && SegmentMatch(p, s)
  {
    TokensOfSegment(p, "");
    assert p + "" == p && Tokens("") == [] && SegmentTokens(p) + [] == SegmentTokens(p);
    SegmentTokensMeaning(p, s);
  }

  /** A segment without `**` before more pattern takes the first segment of the path. */
  lemma SegmentThen(p: string, r: string, s: string)
    requires '/' !in p && NoDoubleStar(p)
    ensures MatchesTokens(Tokens(p + ("/" + r)), s)
            <==> Has(s, '/') && SegmentMatch(p, First(s, '/')) && MatchesTokens(Tokens(r), After(s, '/'))
  {
    TokensOfSegment(p, "/" + r);
    if MatchesTokens(Tokens(p + ("/" + r)), s) {
      var k := MatchSplits(SegmentTokens(p), Tokens("/" + r), s);
      SegmentTokensMeaning(p, s[..k]);
      SlashThen(r, s[k..]);
      FindIsFirst(s, k);
      assert s[k..][1..] == s[k + 1..];
    }
    if Has(s, '/') && SegmentMatch(p, First(s, '/')) && MatchesTokens(Tokens(r), After(s, '/')) {
      var k := Find(s, '/');
      SegmentTokensMeaning(p, s[..k]);
      assert s[k..][1..] == After(s, '/');
      SlashThen(r, s[k..]);
      MatchJoins(SegmentTokens(p), Tokens("/" + r), s, k);
    }
  }

  /** `**` before more pattern: nothing skipped, or the first segment skipped and the same again. */
  lemma DirectoriesThen(rest: seq<Token>, s: string)
    ensures MatchesTokens([Directories] + rest, s)
            <==> (|| MatchesTokens(rest, s)
                  || (Has(s, '/') && OneLine(First(s, '/')) && MatchesTokens([Directories] + rest, After(s, '/'))))
  {
    var tokens := [Directories] + rest;
    assert tokens[1..] == rest;
    assert s[..0] == "" && s[0..] == s;
    if MatchesTokens(tokens, s) {
      var k :| 0 <= k <= |s| && DirectoryPrefix(s[..k]) && MatchesTokens(rest, s[k..]);
      if k > 0 {
        SkipFirst(rest, s, k);
      }
    }
    if Has(s, '/') && OneLine(First(s, '/')) && MatchesTokens(tokens, After(s, '/')) {
      var t := After(s, '/');
      var k :| 0 <= k <= |t| && DirectoryPrefix(t[..k]) && MatchesTokens(rest, t[k..]);
      SkipMore(rest, s, k);
    }
  }

  lemma SkipFirst(rest: seq<Token>, s: string, k: nat)
    requires 0 < k <= |s| && DirectoryPrefix(s[..k]) && MatchesTokens(rest, s[k..])
    ensures Has(s, '/') && OneLine(First(s, '/')) && MatchesTokens([Directories] + rest, After(s, '/'))
  {
    assert s[..k][k - 1] == '/' && s[k - 1] == '/';
    HasIff(s, '/');
    FindNotBeyond(s, '/', k - 1);
    FirstSkipped(s, Find(s, '/'), k);
    DirectoriesTake(rest, After(s, '/'), k - Find(s, '/') - 1);
  }

  lemma FirstSkipped(s: string, f: nat, k: nat)
    requires f < k <= |s| && DirectoryPrefix(s[..k])
    ensures OneLine(s[..f]) && DirectoryPrefix(s[f + 1..][..k - f - 1]) && s[f + 1..][k - f - 1..] == s[k..]
  {
    RestOfPrefix(s[..k], f);
    CutTwice(s, f + 1, k);
    CutFirst(s, f, k);
  }

  lemma CutFirst(s: string, f: nat, k: nat)
    requires f <= k <= |s|
    ensures s[..k][..f] == s[..f]
  {
  }

  lemma CutTwice(s: string, i: nat, k: nat)
    requires i <= k <= |s|
    ensures s[i..][..k - i] == s[..k][i..] && s[i..][k - i..] == s[k..]
  {
  }

  /** Both parts of a directory prefix are on one line, and what is left after a slash is a directory prefix again. */
  lemma RestOfPrefix(prefix: string, f: nat)
    requires f < |prefix| && DirectoryPrefix(prefix)
    ensures OneLine(prefix[..f]) && DirectoryPrefix(prefix[f + 1..])
  {
    forall c | c in prefix[..f] || c in prefix[f + 1..] ensures c in prefix {
    }
  }

  lemma PrefixGrows(a: string, t: string)
    requires OneLine(a) && DirectoryPrefix(t)
    ensures DirectoryPrefix(a + "/" + t)
  {
    var s := a + "/" + t;
    forall c | c in s ensures !IsLineTerminator(c) {
      assert c in a || c == '/' || c in t;
    }
  }

  lemma DirectoriesTake(rest: seq<Token>, s: string, j: nat)
    requires j <= |s| && DirectoryPrefix(s[..j]) && MatchesTokens(rest, s[j..])
    ensures MatchesTokens([Directories] + rest, s)
  {
    assert ([Directories] + rest)[1..] == rest;
  }

  lemma SkipMore(rest: seq<Token>, s: string, k: nat)
    requires Has(s, '/') && OneLine(First(s, '/')) && k <= |After(s, '/')|
    requires DirectoryPrefix(After(s, '/')[..k]) && MatchesTokens(rest, After(s, '/')[k..])
    ensures MatchesTokens([Directories] + rest, s)
  {
    SkippedPrefix(s, k);
    DirectoriesTake(rest, s, Find(s, '/') + 1 + k);
  }

  lemma SkippedPrefix(s: string, k: nat)
    requires Has(s, '/') && OneLine(First(s, '/')) && k <= |After(s, '/')| && DirectoryPrefix(After(s, '/')[..k])
    ensures var j := Find(s, '/') + 1 + k;
            j <= |s| && DirectoryPrefix(s[..j]) && s[j..] == After(s, '/')[k..]
  {
    SkipPieces(s, k);
    PrefixGrows(First(s, '/'), After(s, '/')[..k]);
  }

  lemma SkipPieces(s: string, k: nat)
    requires Has(s, '/') && k <= |After(s, '/')|
    ensures var j := Find(s, '/') + 1 + k;
            && j <= |s| && s[..j] == First(s, '/') + "/" + After(s, '/')[..k]
            && s[j..] == After(s, '/')[k..]
  {
  }

  // ----- the whole pattern --------------------------------------------------

  lemma {:induction false} PathMatchEmpty(patterns: seq<string>)
    requires patterns != []
    ensures !PathMatch(patterns, [])
    decreases |patterns|
  {
    if patterns[0] == "**" && |patterns| > 1 {
      PathMatchEmpty(patterns[1..]);
    }
  }

  lemma {:induction false} OneLineSegments(s: string)
    ensures OneLine(s) <==> forall seg :: seg in Split(s, '/') ==> OneLine(seg)
    decreases |s|
  {
    if Has(s, '/') {
      OneLineSegments(After(s, '/'));
      FirstAfter(s, '/');
      assert Split(s, '/') == [First(s, '/')] + Split(After(s, '/'), '/');
      assert OneLine(s) <==> OneLine(First(s, '/')) && OneLine(After(s, '/'));
    } else {
      assert Split(s, '/') == [s];
    }
  }

  lemma SplitHead(s: string)
    ensures Split(s, '/')[0] == (if Has(s, '/') then First(s, '/') else s)
    ensures Split(s, '/')[1..] == (if Has(s, '/') then Split(After(s, '/'), '/') else [])
  {
  }

  lemma WholeStarsTail(patterns: seq<string>)
    requires WholeStars(patterns) && patterns != []
    ensures WholeStars(patterns[1..]) && (patterns[0] == "**" || NoDoubleStar(patterns[0]))
  {
    assert patterns[0] in patterns;
    forall p | p in patterns[1..] ensures p in patterns {
    }
  }

  /** A pattern that ends with this segment. */
  lemma LastPattern(p: string, path: string)
    requires '/' !in p && (p == "**" || NoDoubleStar(p))
    ensures MatchesTokens(Tokens(p), path) <==> PathMatch([p], Split(path, '/'))
  {
    var segments := Split(path, '/');
    SplitHead(path);
    HasIff(path, '/');
    if p == "**" {
      assert p[2..] == "" && Tokens(p) == [Anything] + Tokens("");
      OneLineSegments(path);
      OneToken(path);
    } else {
      LastSegment(p, path);
      assert PathMatch([p], segments) <==> SegmentMatch(p, segments[0]) && segments[1..] == [];
    }
  }

  lemma OneToken(s: string)
    ensures MatchesTokens([Anything], s) <==> OneLine(s)
  {
    var none: seq<Token> := [Anything][1..];
    assert none == [] && s[..|s|] == s && s[|s|..] == "";
    if OneLine(s) {
      assert TokenCovers([Anything][0], s[..|s|]) && MatchesTokens(none, s[|s|..]);
    }
    if MatchesTokens([Anything], s) {
      var k :| 0 <= k <= |s| && TokenCovers(Anything, s[..k]) && MatchesTokens(none, s[k..]);
      assert k == |s|;
    }
  }

  /**
   * For every path, and every pattern in which two stars in a row are a whole segment, the compiled expression
   * matches exactly when pattern and path match segment by segment.
   */
  lemma {:induction false} TokensMatchPaths(pattern: string, path: string)
    requires WholeStars(Split(pattern, '/'))
    ensures MatchesTokens(Tokens(pattern), path) <==> PathMatch(Split(pattern, '/'), Split(path, '/'))
    decreases |pattern|, |path|
  {
    SplitHead(pattern);
    WholeStarsTail(Split(pattern, '/'));
    if !Has(pattern, '/') {
      SplitHead(path);
      HasIff(pattern, '/');
      assert Split(pattern, '/') == [pattern];
      LastPattern(pattern, path);
    } else {
      var p, r := First(pattern, '/'), After(pattern, '/');
      PatternParts(pattern);
      if p == "**" {
        StarsTokens(pattern, r);
        TokensMatchPaths(r, path);
        if Has(path, '/') {
          TokensMatchPaths(pattern, After(path, '/'));
        }
        StarsFirst(Tokens(pattern), Split(pattern, '/'), Tokens(r), Split(r, '/'), path);
      } else {
        if Has(path, '/') {
          TokensMatchPaths(r, After(path, '/'));
        }
        SegmentFirst(pattern, p, r, path);
      }
    }
  }

  lemma PatternParts(pattern: string)
    requires Has(pattern, '/')
    ensures var (p, r) := (First(pattern, '/'), After(pattern, '/'));
            pattern == p + ("/" + r) && Split(pattern, '/') == [p] + Split(r, '/')
  {
    SplitHead(pattern);
    HeadAndTail(Split(pattern, '/'));
    FirstAfter(pattern, '/');
    CutAtSlash(pattern, Find(pattern, '/'));
  }

  lemma HeadAndTail(segments: seq<string>)
    requires segments != []
    ensures segments == [segments[0]] + segments[1..]
  {
  }

  lemma CutAtSlash(s: string, i: nat)
    requires i < |s| && s[i] == '/'
    ensures s == s[..i] + ("/" + s[i + 1..])
  {
  }

  lemma StarsTokens(pattern: string, r: string)
    requires pattern == "**" + ("/" + r)
    ensures Tokens(pattern) == [Directories] + Tokens(r)
  {
    ThreeThen(pattern, r);
    assert FirstToken(pattern) == (Directories, 3);
  }

  lemma ThreeThen(pattern: string, r: string)
    requires pattern == "**" + ("/" + r)
    ensures |pattern| >= 3 && pattern[0] == '*' && pattern[1] == '*' && pattern[2] == '/' && pattern[3..] == r
  {
  }

  lemma StarsFirst(tokens: seq<Token>, patterns: seq<string>, restTokens: seq<Token>, rest: seq<string>, path: string)
    requires tokens == [Directories] + restTokens && patterns == ["**"] + rest && rest != []
    requires MatchesTokens(restTokens, path) <==> PathMatch(rest, Split(path, '/'))
    requires Has(path, '/') ==>
               (MatchesTokens(tokens, After(path, '/')) <==> PathMatch(patterns, Split(After(path, '/'), '/')))
    ensures MatchesTokens(tokens, path) <==> PathMatch(patterns, Split(path, '/'))
  {
    SplitHead(path);
    DirectoriesThen(restTokens, path);
    PathMatchStars(rest, Split(path, '/'));
    if !Has(path, '/') {
      PathMatchEmpty(patterns);
      assert Split(path, '/')[1..] == [];
    }
  }

  lemma PathMatchStars(rest: seq<string>, segments: seq<string>)
    requires rest != []
    ensures PathMatch(["**"] + rest, segments)
            <==> (|| PathMatch(rest, segments)
                  || (segments != [] && OneLine(segments[0]) && PathMatch(["**"] + rest, segments[1..])))
  {
    assert (["**"] + rest)[1..] == rest;
  }

  lemma SegmentFirst(pattern: string, p: string, r: string, path: string)
    requires pattern == p + ("/" + r) && '/' !in p && NoDoubleStar(p) && p != "**"
    requires Has(path, '/') ==> (MatchesTokens(Tokens(r), After(path, '/'))
                                 <==> PathMatch(Split(r, '/'), Split(After(path, '/'), '/')))
    ensures MatchesTokens(Tokens(pattern), path) <==> PathMatch([p] + Split(r, '/'), Split(path, '/'))
  {
    SplitHead(path);
    SegmentThen(p, r, path);
    PathMatchSegment(p, Split(r, '/'), Split(path, '/'));
    if !Has(path, '/') {
      PathMatchEmpty(Split(r, '/'));
      assert Split(path, '/')[1..] == [];
    }
  }

  lemma PathMatchSegment(p: string, rest: seq<string>, segments: seq<string>)
    requires p != "**"
    ensures PathMatch([p] + rest, segments)
            <==> segments != [] && SegmentMatch(p, segments[0]) && PathMatch(rest, segments[1..])
  {
    assert ([p] + rest)[1..] == rest;
  }

  /** The same for the test the source runs. */
  lemma GlobTestMatchesPaths(pattern: string, path: string)
    requires WholeStars(Split(pattern, '/'))
    ensures GlobTest(pattern, path) <==> PathMatch(Split(pattern, '/'), Split(path, '/'))
  {
    GlobTestIsTokens(pattern, path);
    TokensMatchPaths(pattern, path);
  }
}
