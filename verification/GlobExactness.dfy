/**
 * Where the glob compiler of contracts/workspace.ts leaves the segment-level reading: for patterns without three stars
 * in a row and without line terminators, exactly where two stars in a row are not a whole segment.
 */
module GlobExactness {
  import opened Segments
  import opened Text
  import opened Globs
  import opened GlobReading
  import opened GlobSegments

  /** A line terminator, which a dot does not match and a single star does. */
  const MARK := '\U{2028}'

  predicate StarAt(s: string, i: int)
  {
    0 <= i < |s| && s[i] == '*'
  }

  ghost predicate NoTripleStar(s: string)
  {
    forall i :: StarAt(s, i) ==> !(StarAt(s, i + 1) && StarAt(s, i + 2))
  }

  predicate EndsInStar(s: string)
  {
    s != "" && s[|s| - 1] == '*'
  }

  predicate EndsInStars(s: string)
  {
    |s| >= 2 && s[|s| - 1] == '*' && s[|s| - 2] == '*'
  }

  lemma PartNoTriple(s: string, i: nat, j: nat)
    requires NoTripleStar(s) && i <= j <= |s|
    ensures NoTripleStar(s[i..j])
  {
    var part := s[i..j];
    forall k | StarAt(part, k) && StarAt(part, k + 1) && StarAt(part, k + 2) ensures false {
      assert StarAt(s, i + k) && StarAt(s, i + k + 1) && StarAt(s, i + k + 2);
    }
  }

  // ----- what the literals of a pattern spell -------------------------------

  function Literals(tokens: seq<Token>): string
  {
    if tokens == [] then ""
    else (if tokens[0].Literal? then [tokens[0].c] else "") + Literals(tokens[1..])
  }

  lemma {:induction false} LiteralsConcat(a: seq<Token>, b: seq<Token>)
    ensures Literals(a + b) == Literals(a) + Literals(b)
  {
    if a == [] {
      assert a + b == b;
    } else {
      ConcatTail(a, b);
      LiteralsConcat(a[1..], b);
    }
  }

  function Unstarred(s: string): string
  {
    if s == "" then "" else (if s[0] == '*' then "" else [s[0]]) + Unstarred(s[1..])
  }

  lemma {:induction false} UnstarredConcat(a: string, b: string)
    ensures Unstarred(a + b) == Unstarred(a) + Unstarred(b)
  {
    if a == "" {
      assert a + b == b;
    } else {
      assert (a + b)[1..] == a[1..] + b;
      UnstarredConcat(a[1..], b);
    }
  }

  lemma {:induction false} UnstarredNoSlash(s: string)
    requires '/' !in s
    ensures '/' !in Unstarred(s)
  {
    if s != "" {
      UnstarredNoSlash(s[1..]);
    }
  }

  /** Within a segment, the literals are all but the stars. */
  lemma {:induction false} LiteralsOfSegment(p: string)
    requires '/' !in p
    ensures Literals(Tokens(p)) == Unstarred(p)
    decreases |p|
  {
    if p != "" {
      UnfoldTokens(p);
      var (token, width) := FirstToken(p);
      LiteralsOfSegment(p[width..]);
      if token == Anything {
        assert p[1..][1..] == p[2..];
      }
    }
  }

  /** Cutting a pattern where no run of stars is cut. */
  lemma {:induction false} ConcatTokens(a: string, b: string)
    requires !EndsInStar(a)
    ensures Tokens(a + b) == Tokens(a) + Tokens(b)
    decreases |a|
  {
    if a == "" {
      assert a + b == b;
    } else {
      SameFirstToken(a, b);
      var width := FirstToken(a).1;
      ConcatTokens(a[width..], b);
      UnfoldTokens(a);
      UnfoldTokens(a + b);
      TokensFrom(Tokens(a + b), Tokens(a), Tokens(b));
    }
  }

  lemma SameFirstToken(a: string, b: string)
    requires a != "" && !EndsInStar(a)
    ensures FirstToken(a + b) == FirstToken(a)
    ensures (a + b)[FirstToken(a).1..] == a[FirstToken(a).1..] + b && !EndsInStar(a[FirstToken(a).1..])
  {
    assert (a + b)[0] == a[0];
    if a[0] == '*' {
      assert |a| > 1 && (a + b)[1] == a[1];
      if a[1] == '*' {
        assert |a| > 2 && (a + b)[2] == a[2];
      }
    }
  }

  lemma TokensFrom(whole: seq<Token>, a: seq<Token>, b: seq<Token>)
    requires whole != [] && a != [] && whole[0] == a[0] && whole[1..] == a[1..] + b
    ensures whole == a + b
  {
    assert whole == [whole[0]] + whole[1..] && a == [a[0]] + a[1..];
  }

  /** A text and the stars at its end. */
  lemma StripStars(p: string) returns (f: string, stars: string)
    requires NoTripleStar(p)
    ensures p == f + stars && !EndsInStar(f) && NoTripleStar(f) && stars in {"", "*", "**"}
    ensures EndsInStars(p) <==> stars == "**"
  {
    var n := if EndsInStars(p) then 2 else if EndsInStar(p) then 1 else 0;
    f, stars := p[..|p| - n], if n == 2 then "**" else if n == 1 then "*" else "";
    PartNoTriple(p, 0, |p| - n);
    assert p[0..|p| - n] == f;
    LastStars(p, n);
  }

  lemma LastStars(p: string, n: nat)
    requires NoTripleStar(p) && n == if EndsInStars(p) then 2 else if EndsInStar(p) then 1 else 0
    ensures p == p[..|p| - n] + (if n == 2 then "**" else if n == 1 then "*" else "") && !EndsInStar(p[..|p| - n])
  {
    if n == 2 && |p| > 2 {
      assert !(StarAt(p, |p| - 3) && StarAt(p, |p| - 3 + 1) && StarAt(p, |p| - 3 + 2));
    }
  }

  /** The stars at the end of a segment, with the slash behind it. */
  lemma StarsAndSlash(stars: string, r: string)
    requires stars in {"", "*", "**"}
    ensures Literals(Tokens(stars + ("/" + r))) == (if stars == "**" then "" else "/") + Literals(Tokens(r))
  {
    var s := stars + ("/" + r);
    SlashFirst(r);
    if stars == "**" {
      StarsTokens(s, r);
      LiteralsConcat([Directories], Tokens(r));
    } else if stars == "*" {
      assert s[0] == '*' && s[1] == '/' && s[1..] == "/" + r;
      UnfoldTokens(s);
    } else {
      assert s == "/" + r;
    }
  }

  lemma SlashFirst(r: string)
    ensures Literals(Tokens("/" + r)) == "/" + Literals(Tokens(r))
  {
    var s := "/" + r;
    assert s[0] == '/' && s[1..] == r;
    UnfoldTokens(s);
  }

  /** The literals of a pattern, segment by segment: stars at the end of a segment swallow the slash behind it. */
  lemma LiteralsBySegment(p: string, r: string)
    requires '/' !in p && NoTripleStar(p)
    ensures Literals(Tokens(p + ("/" + r)))
            == Unstarred(p) + ((if EndsInStars(p) then "" else "/") + Literals(Tokens(r)))
  {
    hide Tokens, Literals, Unstarred;
    var f, stars := StripStars(p);
    var rest := stars + ("/" + r);
    Regroup(f, stars, "/" + r);
    ConcatTokens(f, rest);
    LiteralsConcat(Tokens(f), Tokens(rest));
    LiteralsOfSegment(f);
    StarsAndSlash(stars, r);
    UnstarredConcat(f, stars);
    NothingButStars(stars);
  }

  lemma Regroup(a: string, b: string, c: string)
    ensures (a + b) + c == a + (b + c)
  {
  }

  lemma NothingButStars(stars: string)
    requires stars in {"", "*", "**"}
    ensures Unstarred(stars) == ""
  {
    if stars == "**" {
      assert stars[1..] == "*";
    }
    assert "*"[1..] == "";
  }

  // ----- how many segments a path needs -------------------------------------

  /** Every segment of a pattern but whole double stars takes one of the path, and so does a double star at the end. */
  function Needed(patterns: seq<string>): nat
    requires patterns != []
  {
    if |patterns| == 1 then 1 else Needed(patterns[1..]) + if patterns[0] == "**" then 0 else 1
  }

  lemma {:induction false} PathMatchNeeds(patterns: seq<string>, segments: seq<string>)
    requires patterns != [] && PathMatch(patterns, segments)
    ensures |segments| >= Needed(patterns)
    decreases |patterns| + |segments|
  {
    if |patterns| > 1 {
      if patterns[0] == "**" {
        if PathMatch(patterns[1..], segments) {
          PathMatchNeeds(patterns[1..], segments);
        } else {
          PathMatchNeeds(patterns, segments[1..]);
        }
      } else {
        PathMatchNeeds(patterns[1..], segments[1..]);
      }
    }
  }

  /** Segments other than a whole double star whose stars swallow the slash behind them. */
  function Swallowed(patterns: seq<string>): nat
    requires patterns != []
  {
    if |patterns| == 1 then 0
    else Swallowed(patterns[1..]) + if patterns[0] != "**" && EndsInStars(patterns[0]) then 1 else 0
  }

  lemma SplitBehind(x: string, y: string)
    requires '/' !in x
    ensures |Split(x + y, '/')| == |Split(y, '/')|
  {
    if Has(y, '/') {
      var f := Find(y, '/');
      assert x + y == (x + First(y, '/')) + ['/'] + After(y, '/') by {
        FirstAfter(y, '/');
      }
      FindAfter(x + First(y, '/'), After(y, '/'), '/');
    } else {
      HasIff(y, '/');
      HasIff(x + y, '/');
    }
  }

  lemma SplitSegment(x: string, y: string)
    requires '/' !in x
    ensures Split(x + ("/" + y), '/') == [x] + Split(y, '/')
  {
    Regroup(x, "/", y);
    FindAfter(x, y, '/');
  }

  /** The parts of a pattern at its first slash. */
  lemma PatternHead(pattern: string) returns (p: string, r: string)
    requires NoTripleStar(pattern) && Has(pattern, '/')
    ensures pattern == p + ("/" + r) && '/' !in p && |r| < |pattern|
    ensures Split(pattern, '/') == [p] + Split(r, '/') && NoTripleStar(p) && NoTripleStar(r)
  {
    hide NoTripleStar, Split;
    p, r := First(pattern, '/'), After(pattern, '/');
    PatternParts(pattern);
    var f := Find(pattern, '/');
    PartNoTriple(pattern, 0, f);
    PartNoTriple(pattern, f + 1, |pattern|);
    assert pattern[0..f] == p && pattern[f + 1..|pattern|] == r;
  }

  lemma NoSlashAtAll(pattern: string)
    requires !Has(pattern, '/')
    ensures '/' !in pattern && Split(pattern, '/') == [pattern]
  {
    HasIff(pattern, '/');
  }

  lemma HeadAndRest(p: string, rest: seq<string>)
    ensures ([p] + rest)[0] == p && ([p] + rest)[1..] == rest
  {
  }

  /** The literals alone are short of one segment for every slash that is swallowed. */
  lemma {:induction false} LiteralSegments(pattern: string)
    requires NoTripleStar(pattern)
    ensures |Split(Literals(Tokens(pattern)), '/')| + Swallowed(Split(pattern, '/')) == Needed(Split(pattern, '/'))
    decreases |pattern|
  {
    if Has(pattern, '/') {
      var p, r := PatternHead(pattern);
      LiteralSegments(r);
      HeadAndRest(p, Split(r, '/'));
      LiteralsBySegment(p, r);
      UnstarredNoSlash(p);
      var spelled := Literals(Tokens(r));
      if EndsInStars(p) {
        SplitBehind(Unstarred(p), spelled);
        assert "" + spelled == spelled;
      } else {
        SplitSegment(Unstarred(p), spelled);
      }
    } else {
      NoSlashAtAll(pattern);
      LiteralsOfSegment(pattern);
      UnstarredNoSlash(pattern);
      HasIff(Unstarred(pattern), '/');
    }
  }

  lemma {:induction false} LiteralsMatch(tokens: seq<Token>)
    ensures MatchesTokens(tokens, Literals(tokens))
  {
    if tokens != [] {
      LiteralsMatch(tokens[1..]);
      var s := Literals(tokens);
      if tokens[0].Literal? {
        assert s[..1] == [tokens[0].c] && s[1..] == Literals(tokens[1..]);
        MatchesBy(tokens, s, 1);
      } else {
        assert s == Literals(tokens[1..]) && s[..0] == "" && s[0..] == s;
        MatchesBy(tokens, s, 0);
      }
    }
  }

  /** A swallowed slash: the literals alone match the expression, and are too few segments for the pattern. */
  lemma SwallowedDiffers(pattern: string)
    requires NoTripleStar(pattern) && Swallowed(Split(pattern, '/')) > 0
    ensures var path := Literals(Tokens(pattern));
            GlobTest(pattern, path) && !PathMatch(Split(pattern, '/'), Split(path, '/'))
  {
    var path := Literals(Tokens(pattern));
    LiteralsMatch(Tokens(pattern));
    GlobTestIsTokens(pattern, path);
    LiteralSegments(pattern);
    if PathMatch(Split(pattern, '/'), Split(path, '/')) {
      PathMatchNeeds(Split(pattern, '/'), Split(path, '/'));
    }
  }

  // ----- a mark that the expression cannot match ----------------------------

  /** No single star behind the last literal. */
  predicate Anchored(tokens: seq<Token>)
  {
    tokens == [] ||
    var last := tokens[|tokens| - 1];
    last.Literal? || (last != WithinSegment && Anchored(tokens[..|tokens| - 1]))
  }

  lemma {:induction false} AnchoredTail(tokens: seq<Token>)
    requires tokens != [] && Anchored(tokens)
    ensures Anchored(tokens[1..])
  {
    var last := |tokens| - 1;
    if last > 0 && !tokens[last].Literal? {
      AnchoredTail(tokens[..last]);
      assert tokens[1..][..last - 1] == tokens[..last][1..];
    }
  }

  lemma {:induction false} AnchoredWithoutLiterals(tokens: seq<Token>)
    requires tokens != [] && Anchored(tokens) && Literals(tokens) == ""
    ensures tokens[0] != WithinSegment
  {
    var last := |tokens| - 1;
    assert tokens == tokens[..last] + [tokens[last]];
    LiteralsConcat(tokens[..last], [tokens[last]]);
    if last > 0 {
      AnchoredWithoutLiterals(tokens[..last]);
    }
  }

  /** Stars and one more character, at the end of a pattern. */
  lemma TokensOfLast(stars: string, c: char)
    requires stars in {"", "*", "**"} && c != '*'
    ensures Tokens(stars + [c]) ==
              if stars == "" then [Literal(c)]
              else if stars == "*" then [WithinSegment, Literal(c)]
              else if c == '/' then [Directories]
              else [Anything, Literal(c)]
  {
    var s := stars + [c];
    OneLiteral(c);
    UnfoldTokens(s);
    if stars == "*" {
      assert s[1..] == [c];
    } else if stars == "**" {
      assert s[2] == c && s[2..] == [c] && s[3..] == "";
    } else {
      assert s == [c];
    }
  }

  lemma OneLiteral(c: char)
    requires c != '*'
    ensures Tokens([c]) == [Literal(c)]
  {
    UnfoldTokens([c]);
    assert [c][1..] == "";
  }

  lemma {:induction false} TokensAnchored(a: string)
    requires NoTripleStar(a) && !EndsInStar(a)
    ensures Anchored(Tokens(a))
    decreases |a|
  {
    if a != "" {
      var n := |a| - 1;
      PartNoTriple(a, 0, n);
      assert a[0..n] == a[..n];
      var f, stars := StripStars(a[..n]);
      TokensAnchored(f);
      assert a == a[..n] + [a[n]];
      Regroup(f, stars, [a[n]]);
      ConcatTokens(f, stars + [a[n]]);
      TokensOfLast(stars, a[n]);
      AnchoredBy(Tokens(f), Tokens(stars + [a[n]]));
    }
  }

  lemma AnchoredBy(front: seq<Token>, end: seq<Token>)
    requires Anchored(front) && end != []
    requires end[|end| - 1].Literal? || end == [Directories]
    ensures Anchored(front + end)
  {
    assert (front + end)[|front + end| - 1] == end[|end| - 1];
    if end == [Directories] {
      assert (front + end)[..|front|] == front;
    }
  }

  /** How many characters are not the mark. */
  function Unmarked(s: string): nat
  {
    if s == "" then 0 else (if s[0] == MARK then 0 else 1) + Unmarked(s[1..])
  }

  lemma {:induction false} UnmarkedSplit(s: string, k: nat)
    requires k <= |s|
    ensures Unmarked(s) == Unmarked(s[..k]) + Unmarked(s[k..])
    decreases k
  {
    if k == 0 {
      assert s[0..] == s && s[..0] == "";
    } else {
      UnmarkedSplit(s[1..], k - 1);
      assert s[1..][..k - 1] == s[..k][1..] && s[1..][k - 1..] == s[k..];
    }
  }

  lemma {:induction false} UnmarkedAll(s: string)
    requires MARK !in s
    ensures Unmarked(s) == |s|
  {
    if s != "" {
      assert s[0] in s;
      UnmarkedAll(s[1..]);
    }
  }

  ghost predicate NoMarkLiteral(tokens: seq<Token>)
  {
    Literal(MARK) !in tokens
  }

  lemma {:induction false} NoMarkInLiterals(tokens: seq<Token>)
    requires NoMarkLiteral(tokens)
    ensures MARK !in Literals(tokens)
  {
    if tokens != [] {
      assert tokens[0] in tokens;
      NoMarkInLiterals(tokens[1..]);
    }
  }

  lemma LiteralCoversOne(c: char, s: string)
    requires TokenCovers(Literal(c), s) && c != MARK
    ensures |s| == 1 && s[0] != MARK && Unmarked(s) == 1
  {
    assert s[1..] == "";
  }

  /** Every literal takes a character of its own, and not the mark. */
  lemma {:induction false} UnmarkedAtLeast(tokens: seq<Token>, s: string)
    requires MatchesTokens(tokens, s) && NoMarkLiteral(tokens)
    ensures Unmarked(s) >= |Literals(tokens)|
    decreases |tokens|
  {
    if tokens != [] {
      var k := MatchesFirst(tokens, s);
      assert tokens[0] in tokens;
      UnmarkedAtLeast(tokens[1..], s[k..]);
      UnmarkedSplit(s, k);
      if tokens[0].Literal? {
        LiteralCoversOne(tokens[0].c, s[..k]);
      }
    }
  }

  function Marked(before: seq<Token>, behind: seq<Token>): string
  {
    Literals(before) + ([MARK] + Literals(behind))
  }

  lemma UnmarkedInMarked(before: seq<Token>, behind: seq<Token>)
    requires NoMarkLiteral(before) && NoMarkLiteral(behind)
    ensures Unmarked(Marked(before, behind)) == |Literals(before)| + |Literals(behind)|
  {
    var s, n := Marked(before, behind), |Literals(before)|;
    NoMarkInLiterals(before);
    NoMarkInLiterals(behind);
    UnmarkedSplit(s, n);
    assert s[..n] == Literals(before) && s[n..] == [MARK] + Literals(behind);
    assert s[n..][1..] == Literals(behind);
    UnmarkedAll(Literals(before));
    UnmarkedAll(Literals(behind));
  }

  /** What the first token takes has no character but marks. */
  lemma TakesMarksOnly(before: seq<Token>, behind: seq<Token>, s: string, k: nat)
    requires before != [] && !before[0].Literal? && NoMarkLiteral(before) && NoMarkLiteral(behind)
    requires s == Marked(before, behind) && k <= |s|
    requires MatchesTokens(before[1..] + ([Anything] + behind), s[k..])
    ensures Unmarked(s[..k]) == 0
  {
    var rest := before[1..] + ([Anything] + behind);
    LiteralsConcat(before[1..], [Anything] + behind);
    LiteralsConcat([Anything], behind);
    UnmarkedAtLeast(rest, s[k..]);
    UnmarkedInMarked(before, behind);
    UnmarkedSplit(s, k);
  }

  lemma FirstOfMarked(before: seq<Token>, behind: seq<Token>)
    requires NoMarkLiteral(before) && Literals(before) != ""
    ensures Marked(before, behind)[0] != MARK
  {
    NoMarkInLiterals(before);
    assert Literals(before)[0] in Literals(before);
  }

  lemma UnmarkedFirst(s: string)
    requires s != "" && Unmarked(s) == 0
    ensures s[0] == MARK
  {
  }

  /** A token other than a literal can take nothing from the front of the marked literals. */
  lemma TakesNothing(before: seq<Token>, behind: seq<Token>, s: string, k: nat)
    requires before != [] && !before[0].Literal? && Anchored(before)
    requires NoMarkLiteral(before) && NoMarkLiteral(behind)
    requires s == Marked(before, behind) && k <= |s| && TokenCovers(before[0], s[..k])
    requires MatchesTokens(before[1..] + ([Anything] + behind), s[k..])
    ensures k == 0
  {
    TakesMarksOnly(before, behind, s, k);
    if k > 0 {
      UnmarkedFirst(s[..k]);
      MarkedStart(before, behind, s, s[..k]);
    }
  }

  /** The mark at the front: there are no literals before it, and only a single star could take it. */
  lemma MarkedStart(before: seq<Token>, behind: seq<Token>, s: string, taken: string)
    requires before != [] && !before[0].Literal? && Anchored(before) && NoMarkLiteral(before)
    requires s == Marked(before, behind) && taken != "" && taken <= s && taken[0] == MARK
    ensures !TokenCovers(before[0], taken)
  {
    if Literals(before) == "" {
      AnchoredWithoutLiterals(before);
    } else {
      FirstOfMarked(before, behind);
    }
    assert taken[0] in taken;
  }

  lemma NotOnOneLine(s: string)
    requires s != "" && s[0] == MARK
    ensures !OneLine(s)
  {
    assert s[0] in s;
  }

  lemma StopsAtMark(behind: seq<Token>)
    requires NoMarkLiteral(behind) && (behind != [] ==> behind[0].Literal?)
    ensures !MatchesTokens([Anything] + behind, Marked([], behind))
  {
    var s, tokens := Marked([], behind), [Anything] + behind;
    assert s == [MARK] + Literals(behind) && tokens[1..] == behind;
    if MatchesTokens(tokens, s) {
      var k := MatchesFirst(tokens, s);
      if k > 0 {
        NotOnOneLine(s[..k]);
      } else {
        assert s[0..] == s;
        NotLiteralFirst(behind, s);
      }
    }
  }

  lemma NotLiteralFirst(behind: seq<Token>, s: string)
    requires NoMarkLiteral(behind) && (behind != [] ==> behind[0].Literal?) && s != "" && s[0] == MARK
    ensures !MatchesTokens(behind, s)
  {
    if behind != [] && MatchesTokens(behind, s) {
      var k := MatchesFirst(behind, s);
      assert behind[0] in behind;
      LiteralCoversOne(behind[0].c, s[..k]);
    }
  }

  /** The marked literals do not match: the mark would fall to a double star, or to stars behind the last literal. */
  lemma {:induction false} MarkedDoesNotMatch(before: seq<Token>, behind: seq<Token>)
    requires Anchored(before) && (behind != [] ==> behind[0].Literal?)
    requires NoMarkLiteral(before) && NoMarkLiteral(behind)
    ensures !MatchesTokens(before + ([Anything] + behind), Marked(before, behind))
    decreases |before|
  {
    var tokens, s := before + ([Anything] + behind), Marked(before, behind);
    if before == [] {
      assert tokens == [Anything] + behind;
      StopsAtMark(behind);
    } else {
      AnchoredTail(before);
      MarkedDoesNotMatch(before[1..], behind);
      ConcatTail(before, [Anything] + behind);
      if MatchesTokens(tokens, s) {
        var k := MatchesFirst(tokens, s);
        MarkedStep(before, behind, s, k);
      }
    }
  }

  /** What is left behind the first token is the marked literals of the others. */
  lemma MarkedStep(before: seq<Token>, behind: seq<Token>, s: string, k: nat)
    requires before != [] && Anchored(before) && NoMarkLiteral(before) && NoMarkLiteral(behind)
    requires s == Marked(before, behind) && k <= |s| && TokenCovers(before[0], s[..k])
    requires MatchesTokens(before[1..] + ([Anything] + behind), s[k..])
    ensures s[k..] == Marked(before[1..], behind)
  {
    hide MatchesTokens, Marked, Anchored;
    if before[0].Literal? {
      AfterLiteral(before, behind);
      assert |s[..k]| == 1;
    } else {
      TakesNothing(before, behind, s, k);
      AfterOther(before, behind);
      assert s[0..] == s;
    }
  }

  lemma AfterOther(before: seq<Token>, behind: seq<Token>)
    requires before != [] && !before[0].Literal?
    ensures Marked(before, behind) == Marked(before[1..], behind)
  {
    assert "" + Literals(before[1..]) == Literals(before[1..]);
  }

  lemma AfterLiteral(before: seq<Token>, behind: seq<Token>)
    requires before != [] && before[0].Literal?
    ensures Marked(before, behind)[1..] == Marked(before[1..], behind)
  {
    assert Marked(before, behind) == [before[0].c] + Marked(before[1..], behind);
  }

  // ----- and that the segments match ----------------------------------------

  lemma {:induction false} UnstarredMatches(p: string)
    ensures SegmentMatch(p, Unstarred(p))
  {
    if p != "" {
      UnstarredMatches(p[1..]);
      var s := Unstarred(p);
      if p[0] == '*' {
        assert s == Unstarred(p[1..]) && s[0..] == s;
      } else {
        assert s[1..] == Unstarred(p[1..]);
      }
    }
  }

  lemma {:induction false} SegmentConcat(p: string, q: string, s: string, t: string)
    requires SegmentMatch(p, s) && SegmentMatch(q, t)
    ensures SegmentMatch(p + q, s + t)
    decreases |p|
  {
    if p == "" {
      assert p + q == q && s + t == t;
    } else {
      assert (p + q)[1..] == p[1..] + q;
      if p[0] == '*' {
        var k :| 0 <= k <= |s| && SegmentMatch(p[1..], s[k..]);
        SegmentConcat(p[1..], q, s[k..], t);
        assert (s + t)[k..] == s[k..] + t;
      } else {
        SegmentConcat(p[1..], q, s[1..], t);
        assert (s + t)[1..] == s[1..] + t;
      }
    }
  }

  lemma MarkMatchesStars()
    ensures SegmentMatch("**", [MARK])
  {
    assert "**"[1..] == "*" && "*"[1..] == "" && [MARK][1..] == "";
    assert ""[0..] == "";
    assert SegmentMatch("", ""[0..]);
    assert SegmentMatch("*", [MARK][1..]);
  }

  lemma MarkedSegmentMatches(f: string, g: string)
    ensures SegmentMatch(f + ("**" + g), Unstarred(f) + ([MARK] + Unstarred(g)))
  {
    MarkMatchesStars();
    UnstarredMatches(f);
    UnstarredMatches(g);
    SegmentConcat("**", g, [MARK], Unstarred(g));
    SegmentConcat(f, "**" + g, Unstarred(f), [MARK] + Unstarred(g));
  }

  /** Where no slash is swallowed, the literals alone match segment by segment. */
  lemma {:induction false} LiteralsMatchSegments(pattern: string)
    requires NoTripleStar(pattern) && Swallowed(Split(pattern, '/')) == 0
    ensures PathMatch(Split(pattern, '/'), Split(Literals(Tokens(pattern)), '/'))
    decreases |pattern|
  {
    if Has(pattern, '/') {
      var p, r := PatternHead(pattern);
      HeadAndRest(p, Split(r, '/'));
      LiteralsMatchSegments(r);
      LiteralsBySegment(p, r);
      if p == "**" {
        NothingButStars(p);
      } else {
        SegmentAlone(p);
      }
      FirstSegmentMatches(p, Split(r, '/'), Unstarred(p), Literals(Tokens(r)));
    } else {
      NoSlashAtAll(pattern);
      LiteralsOfSegment(pattern);
      UnstarredNoSlash(pattern);
      NoSlashOneSegment(Unstarred(pattern));
      UnstarredMatches(pattern);
      LastMatches(pattern, Unstarred(pattern));
    }
  }

  lemma NoSlashOneSegment(s: string)
    requires '/' !in s
    ensures Split(s, '/') == [s]
  {
    HasIff(s, '/');
  }

  lemma LastMatches(p: string, s: string)
    requires SegmentMatch(p, s) && (p == "**" ==> OneLine(s))
    ensures PathMatch([p], [s])
  {
    assert [p][1..] == [] && [s][1..] == [];
  }

  /** Putting a matching segment, or nothing for a whole double star, in front of a match. */
  lemma FirstSegmentMatches(p: string, patterns: seq<string>, first: string, rest: string)
    requires '/' !in first && patterns != [] && PathMatch(patterns, Split(rest, '/'))
    requires if p == "**" then first == "" else SegmentMatch(p, first) && !EndsInStars(p)
    ensures PathMatch([p] + patterns, Split(first + ((if EndsInStars(p) then "" else "/") + rest), '/'))
  {
    if p == "**" {
      assert first + ("" + rest) == rest;
      PathMatchStars(patterns, Split(rest, '/'));
    } else {
      SplitSegment(first, rest);
      HeadAndRest(first, Split(rest, '/'));
      PathMatchSegment(p, patterns, Split(first + ("/" + rest), '/'));
    }
  }

  lemma SegmentAlone(p: string)
    requires NoTripleStar(p) && p != "**" && !EndsInStars(p) && '/' !in p
    ensures SegmentMatch(p, Unstarred(p)) && '/' !in Unstarred(p)
  {
    UnstarredMatches(p);
    UnstarredNoSlash(p);
  }

  // ----- where the mark goes ------------------------------------------------

  lemma {:induction false} FirstDouble(p: string) returns (i: nat)
    requires !NoDoubleStar(p)
    ensures i + 1 < |p| && p[i] == '*' && p[i + 1] == '*' && (i > 0 ==> p[i - 1] != '*')
  {
    if p[0] == '*' && p[1] == '*' {
      i := 0;
    } else {
      var k := FirstDouble(p[1..]);
      i := k + 1;
    }
  }

  /** A double star that is not a whole segment, with what is before and behind it. */
  ghost predicate IsSplit(pattern: string, a: string, b: string)
  {
    && pattern == a + ("**" + b) && !EndsInStar(a) && NoTripleStar(a) && NoTripleStar(b)
    && (b != "" ==> b[0] != '*' && b[0] != '/')
  }

  ghost function MarkedPath(a: string, b: string): string
  {
    Marked(Tokens(a), Tokens(b))
  }

  /** Cutting a segment at its first double star. */
  lemma SplitSegmentAtStars(p: string) returns (f: string, g: string)
    requires NoTripleStar(p) && !NoDoubleStar(p) && '/' !in p
    ensures IsSplit(p, f, g) && '/' !in f && '/' !in g
  {
    var i := FirstDouble(p);
    f, g := p[..i], p[i + 2..];
    PartNoTriple(p, 0, i);
    PartNoTriple(p, i + 2, |p|);
    assert p[0..i] == f && p[i + 2..|p|] == g;
    assert p == f + ("**" + g);
    if g != "" && g[0] == '*' {
      assert StarAt(p, i) && StarAt(p, i + 1) && StarAt(p, i + 2);
    }
    assert g != "" ==> g[0] in p;
  }

  lemma MarkedSegment(f: string, g: string)
    requires '/' !in f && '/' !in g
    ensures MarkedPath(f, g) == Unstarred(f) + ([MARK] + Unstarred(g)) && '/' !in MarkedPath(f, g)
  {
    LiteralsOfSegment(f);
    LiteralsOfSegment(g);
    UnstarredNoSlash(f);
    UnstarredNoSlash(g);
  }

  ghost predicate MarkMatches(pattern: string, a: string, b: string)
  {
    IsSplit(pattern, a, b) && PathMatch(Split(pattern, '/'), Split(MarkedPath(a, b), '/'))
  }

  /** The double star is in the last segment. */
  lemma MarkInLast(p: string) returns (a: string, b: string)
    requires NoTripleStar(p) && !NoDoubleStar(p) && p != "**" && !Has(p, '/')
    ensures MarkMatches(p, a, b)
  {
    NoSlashAtAll(p);
    a, b := SplitSegmentAtStars(p);
    MarkedSegment(a, b);
    MarkedSegmentMatches(a, b);
    NoSlashOneSegment(MarkedPath(a, b));
    LastMatches(p, MarkedPath(a, b));
  }

  /** The double star is in the first segment, and not at its end. */
  lemma MarkInFirst(pattern: string, p: string, r: string) returns (a: string, b: string)
    requires pattern == p + ("/" + r) && NoTripleStar(p) && NoTripleStar(r) && '/' !in p
    requires !NoDoubleStar(p) && !EndsInStars(p) && Split(pattern, '/') == [p] + Split(r, '/')
    requires NoTripleStar(pattern) && Swallowed(Split(r, '/')) == 0
    ensures MarkMatches(pattern, a, b)
  {
    var f, g := SplitSegmentAtStars(p);
    a, b := f, g + ("/" + r);
    BehindStars(pattern, p, r, f, g);
    MarkedSegment(f, g);
    MarkedSegmentMatches(f, g);
    LiteralsMatchSegments(r);
    MarkedPathOfFirst(f, g, r);
    FirstSegmentMatches(p, Split(r, '/'), MarkedPath(f, g), Literals(Tokens(r)));
  }

  lemma MarkedPathOfFirst(f: string, g: string, r: string)
    requires '/' !in g && NoTripleStar(g) && !EndsInStars(g)
    ensures MarkedPath(f, g + ("/" + r)) == MarkedPath(f, g) + ("/" + Literals(Tokens(r)))
  {
    LiteralsBySegment(g, r);
    LiteralsOfSegment(g);
    RegroupFour(Literals(Tokens(f)), [MARK], Unstarred(g), "/" + Literals(Tokens(r)));
  }

  lemma RegroupFour(a: string, b: string, c: string, d: string)
    ensures a + (b + (c + d)) == (a + (b + c)) + d
  {
  }

  lemma EndOfSplit(f: string, g: string)
    ensures g == "" || EndsInStars(g) ==> EndsInStars(f + ("**" + g))
  {
    var p := f + ("**" + g);
    assert g == "" ==> p == f + "**";
    assert |g| >= 2 ==> p[|p| - 1] == g[|g| - 1] && p[|p| - 2] == g[|g| - 2];
  }

  lemma BehindStars(pattern: string, p: string, r: string, f: string, g: string)
    requires pattern == p + ("/" + r) && NoTripleStar(pattern) && IsSplit(p, f, g) && !EndsInStars(p)
    ensures IsSplit(pattern, f, g + ("/" + r)) && !EndsInStars(g) && g != ""
  {
    var b := g + ("/" + r);
    EndOfSplit(f, g);
    RegroupFour(f, "**", g, "/" + r);
    assert pattern == f + ("**" + b);
    PartNoTriple(pattern, |f| + 2, |pattern|);
    assert pattern[|f| + 2..|pattern|] == b;
  }

  /** The double star is in a later segment. */
  lemma MarkBehind(pattern: string, p: string, r: string, a: string, b: string)
    requires pattern == p + ("/" + r) && NoTripleStar(pattern) && NoTripleStar(p) && '/' !in p
    requires Split(pattern, '/') == [p] + Split(r, '/') && (p == "**" || !EndsInStars(p)) && MarkMatches(r, a, b)
    ensures MarkMatches(pattern, p + ("/" + a), b)
  {
    SplitBehindFirst(pattern, p, r, a, b);
    UnstarredNoSlash(p);
    if p == "**" {
      NothingButStars(p);
    } else {
      SegmentAlone(p);
    }
    MarkedPathBehind(p, a, b);
    FirstSegmentMatches(p, Split(r, '/'), Unstarred(p), MarkedPath(a, b));
  }

  lemma SplitBehindFirst(pattern: string, p: string, r: string, a: string, b: string)
    requires pattern == p + ("/" + r) && NoTripleStar(pattern) && IsSplit(r, a, b)
    ensures IsSplit(pattern, p + ("/" + a), b)
  {
    var front := p + ("/" + a);
    RegroupFive(p, "/", a, "**" + b);
    PartNoTriple(pattern, 0, |front|);
    assert pattern[0..|front|] == front;
    assert a != "" ==> front[|front| - 1] == a[|a| - 1];
  }

  lemma RegroupFive(p: string, slash: string, a: string, rest: string)
    ensures p + (slash + (a + rest)) == (p + (slash + a)) + rest
  {
  }

  lemma MarkedPathBehind(p: string, a: string, b: string)
    requires '/' !in p && NoTripleStar(p)
    ensures MarkedPath(p + ("/" + a), b) == Unstarred(p) + ((if EndsInStars(p) then "" else "/") + MarkedPath(a, b))
  {
    LiteralsBySegment(p, a);
    var sep := if EndsInStars(p) then "" else "/";
    RegroupFive(Unstarred(p), sep, Literals(Tokens(a)), [MARK] + Literals(Tokens(b)));
  }

  /** Where no slash is swallowed, some double star can be given the mark, and the segments match. */
  lemma {:induction false} FindMark(pattern: string) returns (a: string, b: string)
    requires NoTripleStar(pattern) && !WholeStars(Split(pattern, '/')) && Swallowed(Split(pattern, '/')) == 0
    ensures MarkMatches(pattern, a, b)
    decreases |pattern|
  {
    if Has(pattern, '/') {
      var p, r := PatternHead(pattern);
      HeadAndRest(p, Split(r, '/'));
      if p != "**" && !NoDoubleStar(p) {
        a, b := MarkInFirst(pattern, p, r);
      } else {
        RestNotWhole(p, Split(r, '/'));
        var c, d := FindMark(r);
        MarkBehind(pattern, p, r, c, d);
        a, b := p + ("/" + c), d;
      }
    } else {
      NoSlashAtAll(pattern);
      a, b := MarkInLast(pattern);
    }
  }

  lemma WholeStarsCons(p: string, rest: seq<string>)
    requires WholeStars(rest) && (p == "**" || NoDoubleStar(p))
    ensures WholeStars([p] + rest)
  {
    forall q | q in [p] + rest ensures q == "**" || NoDoubleStar(q) {
      assert q == p || q in rest;
    }
  }

  lemma RestNotWhole(p: string, rest: seq<string>)
    requires !WholeStars([p] + rest) && (p == "**" || NoDoubleStar(p))
    ensures !WholeStars(rest)
  {
    if WholeStars(rest) {
      WholeStarsCons(p, rest);
    }
  }

  // ----- the exact condition ------------------------------------------------

  lemma {:induction false} LiteralsFromPattern(p: string, c: char)
    requires Literal(c) in Tokens(p)
    ensures c in p
    decreases |p|
  {
    if p != "" {
      UnfoldTokens(p);
      var (token, width) := FirstToken(p);
      assert Tokens(p) == [token] + Tokens(p[width..]);
      if token == Literal(c) {
        assert p[0] in p;
      } else {
        LiteralsFromPattern(p[width..], c);
      }
    }
  }

  lemma NoMarkTokens(p: string)
    requires MARK !in p
    ensures NoMarkLiteral(Tokens(p))
  {
    if Literal(MARK) in Tokens(p) {
      LiteralsFromPattern(p, MARK);
    }
  }

  lemma TokensAtStars(a: string, b: string)
    requires IsSplit(a + ("**" + b), a, b)
    ensures Tokens(a + ("**" + b)) == Tokens(a) + ([Anything] + Tokens(b))
    ensures Tokens(b) != [] ==> Tokens(b)[0].Literal?
  {
    ConcatTokens(a, "**" + b);
    var s := "**" + b;
    assert s[2..] == b && (b != "" ==> s[2] == b[0]);
    UnfoldTokens(s);
    assert Tokens(s) == [Tokens(s)[0]] + Tokens(s)[1..];
    if b != "" {
      UnfoldTokens(b);
    }
  }

  /** A double star inside a segment: the marked path matches by segments, and not the expression. */
  lemma MarkDiffers(pattern: string) returns (path: string)
    requires NoTripleStar(pattern) && OneLine(pattern)
    requires !WholeStars(Split(pattern, '/')) && Swallowed(Split(pattern, '/')) == 0
    ensures !GlobTest(pattern, path) && PathMatch(Split(pattern, '/'), Split(path, '/'))
  {
    var a, b := FindMark(pattern);
    path := MarkedPath(a, b);
    assert MARK !in pattern;
    assert MARK !in a && MARK !in b by {
      assert forall c :: c in a || c in b ==> c in pattern;
    }
    NoMarkTokens(a);
    NoMarkTokens(b);
    TokensAtStars(a, b);
    TokensAnchored(a);
    MarkedDoesNotMatch(Tokens(a), Tokens(b));
    GlobTestIsTokens(pattern, path);
  }

  ghost predicate Agrees(pattern: string, path: string)
  {
    GlobTest(pattern, path) <==> PathMatch(Split(pattern, '/'), Split(path, '/'))
  }

  /**
   * The expression means what the segments say, on every path, exactly when two stars in a row are always a whole
   * segment.
   */
  lemma WholeStarsExact(pattern: string)
    requires NoTripleStar(pattern) && OneLine(pattern)
    ensures WholeStars(Split(pattern, '/')) <==> forall path :: Agrees(pattern, path)
  {
    if WholeStars(Split(pattern, '/')) {
      forall path ensures Agrees(pattern, path) {
        GlobTestMatchesPaths(pattern, path);
      }
    } else if Swallowed(Split(pattern, '/')) > 0 {
      SwallowedDiffers(pattern);
      assert !Agrees(pattern, Literals(Tokens(pattern)));
    } else {
      var path := MarkDiffers(pattern);
      assert !Agrees(pattern, path);
    }
  }

  // ----- three stars in a row -----------------------------------------------

  ghost predicate OneLineButLast(segments: seq<string>)
  {
    forall i :: 0 <= i < |segments| - 1 ==> OneLine(segments[i])
  }

  const TRIPLE: seq<Token> := [Anything, WithinSegment]

  lemma TripleFrom(s: string, k: nat)
    requires k <= |s| && OneLine(s[..k]) && '/' !in s[k..]
    ensures MatchesTokens(TRIPLE, s)
  {
    var t, none: seq<Token> := s[k..], [];
    assert TRIPLE[1..] == [WithinSegment] && [WithinSegment][1..] == none;
    assert t[|t|..] == "" && MatchesTokens(none, t[|t|..]) && t[..|t|] == t;
    MatchesBy([WithinSegment], t, |t|);
    MatchesBy(TRIPLE, s, k);
  }

  lemma TripleCut(s: string) returns (k: nat)
    requires MatchesTokens(TRIPLE, s)
    ensures k <= |s| && OneLine(s[..k]) && '/' !in s[k..]
  {
    assert TRIPLE[1..] == [WithinSegment] && [WithinSegment][1..] == [];
    k := MatchesFirst(TRIPLE, s);
    var m := MatchesFirst([WithinSegment], s[k..]);
    assert m == |s[k..]| && s[k..][..m] == s[k..];
  }

  lemma TripleAlone(s: string)
    requires '/' !in s
    ensures MatchesTokens(TRIPLE, s)
  {
    assert s[..0] == "" && s[0..] == s;
    TripleFrom(s, 0);
  }

  /** What stands for the first two stars reaches over every slash. */
  lemma TripleOverSlash(s: string)
    requires MatchesTokens(TRIPLE, s) && Has(s, '/')
    ensures OneLine(First(s, '/')) && MatchesTokens(TRIPLE, After(s, '/'))
  {
    var f := Find(s, '/');
    var k := TripleCut(s);
    SlashBefore(s, f, k);
    OneLineParts(s, f, k);
    CutTwice(s, f + 1, k);
    TripleFrom(After(s, '/'), k - f - 1);
  }

  lemma SlashBefore(s: string, f: nat, k: nat)
    requires f < |s| && s[f] == '/' && k <= |s| && '/' !in s[k..]
    ensures f < k
  {
    assert forall i :: k <= i < |s| ==> s[i] == s[k..][i - k];
  }

  lemma OneLineParts(s: string, f: nat, k: nat)
    requires f < k <= |s| && OneLine(s[..k])
    ensures OneLine(s[..f]) && OneLine(s[f + 1..][..k - f - 1])
  {
    assert forall c :: c in s[..f] ==> c in s[..k];
    CutTwice(s, f + 1, k);
    assert forall c :: c in s[..k][f + 1..] ==> c in s[..k];
  }

  lemma {:induction false} TripleTokens(s: string)
    ensures MatchesTokens([Directories] + TRIPLE, s) <==> OneLineButLast(Split(s, '/'))
    decreases |s|
  {
    SplitHead(s);
    DirectoriesThen(TRIPLE, s);
    if Has(s, '/') {
      TripleTokens(After(s, '/'));
      DirectoriesThen(TRIPLE, After(s, '/'));
      if MatchesTokens(TRIPLE, s) {
        TripleOverSlash(s);
      }
      OneLineButLastCons(Split(s, '/'));
    } else {
      HasIff(s, '/');
      TripleAlone(s);
    }
  }

  lemma OneLineButLastCons(segments: seq<string>)
    requires |segments| > 1
    ensures OneLineButLast(segments) <==> OneLine(segments[0]) && OneLineButLast(segments[1..])
  {
    if OneLine(segments[0]) && OneLineButLast(segments[1..]) {
      forall i | 0 <= i < |segments| - 1 ensures OneLine(segments[i]) {
        assert i > 0 ==> segments[i] == segments[1..][i - 1];
      }
    }
  }

  lemma {:induction false} TripleSegments(segments: seq<string>)
    requires segments != []
    ensures PathMatch(["**", "***"], segments) <==> OneLineButLast(segments)
    decreases |segments|
  {
    PathMatchStars(["***"], segments);
    assert ["**"] + ["***"] == ["**", "***"];
    ThreeStarsMatch(segments[0]);
    assert PathMatch(["***"], segments) <==> |segments| == 1;
    if |segments| > 1 {
      TripleSegments(segments[1..]);
      OneLineButLastCons(segments);
    } else {
      PathMatchEmpty(["**", "***"]);
    }
  }

  lemma ThreeStarsMatch(s: string)
    ensures SegmentMatch("***", s)
  {
    assert "***"[1..] == "**" && "**"[1..] == "*" && "*"[1..] == "";
    assert s[0..] == s && s[|s|..] == "";
    assert SegmentMatch("", s[|s|..]);
    assert SegmentMatch("*", s[0..]);
    assert SegmentMatch("**", s[0..]);
  }

  /** With three stars in a row the condition is not exact: this pattern breaks it, and yet agrees on every path. */
  lemma TripleStarAgrees(path: string)
    ensures !WholeStars(Split("**/***", '/')) && Agrees("**/***", path)
  {
    var pattern := "**/***";
    TripleSplit();
    assert "***" in ["**", "***"] && !NoDoubleStar("***");
    StarsTokens(pattern, "***");
    assert "***"[2..] == "*" && "*"[1..] == "" && Tokens("***") == TRIPLE;
    TripleTokens(path);
    TripleSegments(Split(path, '/'));
    GlobTestIsTokens(pattern, path);
  }

  lemma TripleSplit()
    ensures Split("**/***", '/') == ["**", "***"]
  {
    assert "**/***" == "**" + ("/" + "***");
    SplitSegment("**", "***");
    NoSlashOneSegment("***");
  }
}
