/** `classifyWorkspacePath` of contracts/workspace.ts, and where the glob compiler leaves the segment-level meaning. */
module WorkspacePolicy {
  import opened Segments
  import opened Text
  import opened Globs
  import opened GlobReading
  import opened GlobSegments

  datatype PathClass = Internal | Secret | Generated | Protected | Normal

  datatype FilePolicy = FilePolicy(
    secretPatterns: seq<string>,
    protectedPatterns: seq<string>,
    generatedPatterns: seq<string>)

  ghost predicate MatchesAny(path: string, patterns: seq<string>)
  {
    exists p :: p in patterns && GlobTest(p, path)
  }

  ghost function ClassifyWorkspacePath(path: string, policy: FilePolicy): PathClass
  {
    var lower := Lower(path);
    if lower == ".git" || ".git/" <= lower then Internal
    else if MatchesAny(path, policy.secretPatterns) then Secret
    else if MatchesAny(path, policy.generatedPatterns) then Generated
    else if MatchesAny(path, policy.protectedPatterns) then Protected
    else Normal
  }

  // ----- the segment-level reading ------------------------------------------

  ghost predicate SomePathMatch(path: string, patterns: seq<string>)
  {
    exists p :: p in patterns && PathMatch(Split(p, '/'), Split(path, '/'))
  }

  ghost predicate WholeStarPatterns(patterns: seq<string>)
  {
    forall p :: p in patterns ==> WholeStars(Split(p, '/'))
  }

  lemma MatchesAnyIsSomePathMatch(path: string, patterns: seq<string>)
    requires WholeStarPatterns(patterns)
    ensures MatchesAny(path, patterns) <==> SomePathMatch(path, patterns)
  {
    forall p | p in patterns ensures GlobTest(p, path) <==> PathMatch(Split(p, '/'), Split(path, '/')) {
      GlobTestMatchesPaths(p, path);
    }
  }

  lemma LowerPrefix(s: string, k: nat)
    requires k <= |s|
    ensures Lower(s[..k]) == Lower(s)[..k]
  {
  }

  lemma LowerSlash(s: string, i: nat)
    requires i < |s|
    ensures Lower(s)[i] == '/' <==> s[i] == '/'
  {
  }

  lemma GitSlash(path: string)
    requires ".git/" <= Lower(path)
    ensures Has(path, '/') && Find(path, '/') == 4 && Lower(First(path, '/')) == ".git"
  {
    var lower := Lower(path);
    assert lower[..5] == ".git/" && lower[..4] == ".git/"[..4];
    forall i | 0 <= i < 5 ensures path[i] == '/' <==> i == 4 {
      LowerSlash(path, i);
      assert lower[i] == ".git/"[i];
    }
    FindAt(path, '/', 4);
    LowerPrefix(path, 4);
  }

  lemma GitSegment(path: string)
    requires Has(path, '/') && Lower(First(path, '/')) == ".git"
    ensures ".git/" <= Lower(path)
  {
    HasIff(path, '/');
    var f := Find(path, '/');
    LowerPrefix(path, f);
    LowerSlash(path, f);
    assert f == 4 && Lower(path)[..5] == Lower(path)[..4] + [Lower(path)[4]];
  }

  lemma InternalIffGitSegment(path: string)
    ensures (Lower(path) == ".git" || ".git/" <= Lower(path)) <==> Lower(Split(path, '/')[0]) == ".git"
  {
    SplitHead(path);
    if ".git/" <= Lower(path) {
      GitSlash(path);
    }
    if Has(path, '/') {
      if Lower(First(path, '/')) == ".git" {
        GitSegment(path);
      }
      if Lower(path) == ".git" {
        NoSlashInGit(path);
      }
    }
  }

  lemma NoSlashInGit(path: string)
    requires Lower(path) == ".git"
    ensures !Has(path, '/')
  {
    HasIff(path, '/');
    forall i | 0 <= i < |path| ensures path[i] != '/' {
      LowerSlash(path, i);
    }
  }

  /** Some pattern's tokens match the path in a row. */
  ghost predicate SomeTokensMatch(path: string, patterns: seq<string>)
  {
    exists p :: p in patterns && MatchesTokens(Tokens(p), path)
  }

  lemma MatchesAnyIsSomeTokensMatch(path: string, patterns: seq<string>)
    ensures MatchesAny(path, patterns) <==> SomeTokensMatch(path, patterns)
    ensures WholeStarPatterns(patterns) ==> (SomeTokensMatch(path, patterns) <==> SomePathMatch(path, patterns))
  {
    forall p | p in patterns ensures GlobTest(p, path) <==> MatchesTokens(Tokens(p), path) {
      GlobTestIsTokens(p, path);
    }
    if WholeStarPatterns(patterns) {
      MatchesAnyIsSomePathMatch(path, patterns);
    }
  }

  /** The lists read segment by segment, where their double stars are whole segments. */
  ghost predicate ReadBySegments(path: string, patterns: seq<string>)
  {
    WholeStarPatterns(patterns) ==> (SomeTokensMatch(path, patterns) <==> SomePathMatch(path, patterns))
  }

  /**
   * The class of a path under any policy: the first list that applies, in the order of severity. A list applies when
   * the tokens of one of its patterns match, which for double stars as whole segments is the match by segments.
   */
  lemma ClassifyExact(path: string, policy: FilePolicy)
    ensures var kind := ClassifyWorkspacePath(path, policy);
            && (kind == Internal <==> Lower(Split(path, '/')[0]) == ".git")
            && (kind == Secret <==> kind != Internal && SomeTokensMatch(path, policy.secretPatterns))
            && (kind == Generated <==> kind !in {Internal, Secret} && SomeTokensMatch(path, policy.generatedPatterns))
            && (kind == Protected <==> kind !in {Internal, Secret, Generated}
                                        && SomeTokensMatch(path, policy.protectedPatterns))
    ensures ReadBySegments(path, policy.secretPatterns) && ReadBySegments(path, policy.generatedPatterns)
            && ReadBySegments(path, policy.protectedPatterns)
  {
    InternalIffGitSegment(path);
    MatchesAnyIsSomeTokensMatch(path, policy.secretPatterns);
    MatchesAnyIsSomeTokensMatch(path, policy.generatedPatterns);
    MatchesAnyIsSomeTokensMatch(path, policy.protectedPatterns);
  }

  // ----- letter case --------------------------------------------------------

  lemma FoldLower(c: char)
    ensures Fold(LowerChar(c)) == Fold(c)
    ensures LowerChar(c) == '/' <==> c == '/'
    ensures IsLineTerminator(LowerChar(c)) <==> IsLineTerminator(c)
  {
  }

  lemma CoversLower(token: Token, s: string)
    ensures TokenCovers(token, Lower(s)) <==> TokenCovers(token, s)
  {
    forall i | 0 <= i < |s|
      ensures Fold(Lower(s)[i]) == Fold(s[i]) && (Lower(s)[i] == '/' <==> s[i] == '/')
      ensures IsLineTerminator(Lower(s)[i]) <==> IsLineTerminator(s[i])
    {
      FoldLower(s[i]);
    }
    assert OneLine(s) <==> OneLine(Lower(s));
  }

  lemma {:induction false} MatchesLower(tokens: seq<Token>, s: string)
    ensures MatchesTokens(tokens, Lower(s)) <==> MatchesTokens(tokens, s)
    decreases |tokens|
  {
    if tokens != [] {
      forall k | 0 <= k <= |s|
        ensures TokenCovers(tokens[0], Lower(s)[..k]) <==> TokenCovers(tokens[0], s[..k])
        ensures MatchesTokens(tokens[1..], Lower(s)[k..]) <==> MatchesTokens(tokens[1..], s[k..])
      {
        assert Lower(s)[..k] == Lower(s[..k]) && Lower(s)[k..] == Lower(s[k..]);
        CoversLower(tokens[0], s[..k]);
        MatchesLower(tokens[1..], s[k..]);
      }
    }
  }

  /** The class of a path does not depend on the case of its letters, whatever the patterns. */
  lemma ClassIgnoresCase(path: string, policy: FilePolicy)
    ensures ClassifyWorkspacePath(Lower(path), policy) == ClassifyWorkspacePath(path, policy)
  {
    forall p: string ensures GlobTest(p, Lower(path)) <==> GlobTest(p, path) {
      GlobTestIsTokens(p, path);
      GlobTestIsTokens(p, Lower(path));
      MatchesLower(Tokens(p), path);
    }
    assert Lower(Lower(path)) == Lower(path);
  }

  // ----- where the meaning ends ---------------------------------------------

  lemma ExampleTokens()
    ensures Tokens("a**/b") == [Literal('a')] + ([Directories] + [Literal('b')])
  {
    assert "a**/b"[1..] == "**/b" && "b"[1..] == "";
    StarsTokens("**/b", "b");
    assert Tokens("b") == [Literal('b')] + Tokens("");
  }

  /** Two stars that are not a whole segment swallow the slash after them: one segment matches a pattern of two. */
  lemma StarsInsideSegmentExample()
    ensures GlobTest("a**/b", "ab") && !Has("ab", '/')
    ensures Split("a**/b", '/') == ["a**", "b"] && !WholeStars(["a**", "b"])
  {
    ExampleTokens();
    LiteralMatches('a', "a");
    LiteralMatches('b', "b");
    assert "b"[..0] == "" && "b"[0..] == "b";
    DirectoriesTake([Literal('b')], "b", 0);
    assert "ab"[..1] == "a" && "ab"[1..] == "b";
    MatchJoins([Literal('a')], [Directories] + [Literal('b')], "ab", 1);
    GlobTestIsTokens("a**/b", "ab");
    ExampleSegments();
  }

  lemma ExampleSegments()
    ensures Split("a**/b", '/') == ["a**", "b"] && !WholeStars(["a**", "b"]) && !Has("ab", '/')
  {
    assert "a**" + ['/'] + "b" == "a**/b";
    SplitJoin(["a**", "b"], '/');
    assert Join(["b"], '/') == "b";
    assert "a**" in ["a**", "b"] && "a**"[1..] == "**" && !NoDoubleStar("**");
    HasIff("ab", '/');
  }

  lemma LiteralMatches(c: char, s: string)
    requires s == [c]
    ensures MatchesTokens([Literal(c)], s)
  {
    var none: seq<Token> := [Literal(c)][1..];
    assert none == [] && s[..1] == s && s[1..] == "";
    assert TokenCovers([Literal(c)][0], s[..1]) && MatchesTokens(none, s[1..]);
  }

  /**
   * A dot of the expression does not match a line terminator: `**` in front of a file name finds the file in a
   * directory exactly when the name of the directory has none in it.
   */
  lemma StarsSkipOneLineDirectories(dir: string, file: string)
    requires '/' !in dir && '/' !in file && '*' !in file
    ensures GlobTest("**" + "/" + file, dir + "/" + file) <==> OneLine(dir)
  {
    TwoSegments("**", file);
    TwoSegments(dir, file);
    NoStars(file);
    GlobTestMatchesPaths("**" + "/" + file, dir + "/" + file);
    StarsThenFile(dir, file);
  }

  lemma StarsThenFile(dir: string, file: string)
    requires '*' !in file
    ensures PathMatch(["**", file], [dir, file]) <==> OneLine(dir)
  {
    var last := [file];
    assert ["**", file][1..] == last && [dir, file][1..] == last && last[1..] == [];
    SegmentMatchesItself(file);
    assert file != "**" by {
      assert '*' in "**";
    }
    assert PathMatch(last, last) && PathMatch(["**", file], last);
    assert !PathMatch(last, [dir, file]);
  }

  lemma {:induction false} NoStars(s: string)
    requires '*' !in s
    ensures NoDoubleStar(s)
  {
    if |s| >= 2 {
      NoStars(s[1..]);
    }
  }

  lemma TwoSegments(a: string, b: string)
    requires '/' !in a && '/' !in b
    ensures Split(a + "/" + b, '/') == [a, b]
  {
    assert [a, b][1..] == [b] && a + ['/'] + Join([b], '/') == a + "/" + b;
    SplitJoin([a, b], '/');
  }

  lemma {:induction false} SegmentMatchesItself(p: string)
    requires '*' !in p
    ensures SegmentMatch(p, p)
  {
    if p != "" {
      SegmentMatchesItself(p[1..]);
    }
  }
}
