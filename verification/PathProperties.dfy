/** Accepted paths are clean and stable, and the scope tests on strings are prefix tests on lists of segments. */
module PathProperties {
  import opened Wrappers
  import opened Text
  import opened Segments
  import opened WorkspacePaths

  // ----- clean segments -----------------------------------------------------

  /** A segment that the canonicaliser leaves as it is. */
  ghost predicate Clean(segment: string)
  {
    && !IsSkipped(segment) && SegmentProblem(segment).None?
    && (forall c :: c in segment ==> !IsSeparator(c) && !IsControl(c) && c != ':')
    && !HasPercentEscape(segment)
  }

  ghost predicate AllClean(segments: seq<string>)
  {
    forall seg :: seg in segments ==> Clean(seg)
  }

  /** What all segments of a text share with it. */
  ghost predicate Inherits(s: string, segment: string)
  {
    && (forall c :: c in segment ==> c in s && !IsSeparator(c))
    && (HasPercentEscape(segment) ==> HasPercentEscape(s))
  }

  lemma {:induction false} EscapeInPrefix(s: string, i: nat)
    requires i <= |s| && HasPercentEscape(s[..i])
    ensures HasPercentEscape(s)
    decreases |s|
  {
    var t := s[..i];
    if EscapeAtFront(t) {
      assert t[1..3] == s[1..3];
    } else {
      assert t[1..] == s[1..][..i - 1];
      EscapeInPrefix(s[1..], i - 1);
    }
  }

  lemma {:induction false} EscapeInSuffix(s: string, i: nat)
    requires i <= |s| && HasPercentEscape(s[i..])
    ensures HasPercentEscape(s)
    decreases |s|
  {
    if i > 0 {
      assert s[i..] == s[1..][i - 1..];
      EscapeInSuffix(s[1..], i - 1);
    }
  }

  lemma {:induction false} DropIsSuffix(s: string) returns (i: nat)
    ensures i <= |s| && DropSeparators(s) == s[i..]
  {
    if s != "" && IsSeparator(s[0]) {
      i := DropIsSuffix(s[1..]);
      i := i + 1;
    } else {
      i := 0;
    }
  }

  lemma SuffixInherits(s: string, i: nat, segment: string)
    requires i <= |s| && Inherits(s[i..], segment)
    ensures Inherits(s, segment)
  {
    if HasPercentEscape(segment) {
      EscapeInSuffix(s, i);
    }
  }

  lemma PrefixInherits(s: string, i: nat)
    requires i <= |s| && forall k :: 0 <= k < i ==> !IsSeparator(s[k])
    ensures Inherits(s, s[..i])
  {
    if HasPercentEscape(s[..i]) {
      EscapeInPrefix(s, i);
    }
  }

  lemma {:induction false} SplitInherits(s: string, segment: string)
    requires segment in SplitRuns(s)
    ensures Inherits(s, segment)
    decreases |s|
  {
    var i := FindSeparator(s);
    PrefixInherits(s, i);
    if i == |s| {
      assert s[..i] == s;
    } else if segment != s[..i] {
      SplitInherits(DropSeparators(s[i..][1..]), segment);
      RestInherits(s, i, segment);
    }
  }

  lemma RestInherits(s: string, i: nat, segment: string)
    requires i < |s| && Inherits(DropSeparators(s[i..][1..]), segment)
    ensures Inherits(s, segment)
  {
    var j := DropIsSuffix(s[i..][1..]);
    assert s[i..][1..][j..] == s[i + 1 + j..];
    SuffixInherits(s, i + 1 + j, segment);
  }

  lemma {:induction false} KeepMember(segments: seq<string>, segment: string)
    requires Keep(segments).Ok? && segment in Keep(segments).value
    ensures segment in segments && !IsSkipped(segment) && SegmentProblem(segment).None?
  {
    if IsSkipped(segments[0]) || segment != segments[0] {
      KeepMember(segments[1..], segment);
    }
  }

  /** Every accepted path resolves to clean segments. */
  lemma ResolvedClean(s: string)
    requires ResolvedSegments(s).Ok?
    ensures AllClean(ResolvedSegments(s).value)
  {
    forall seg | seg in ResolvedSegments(s).value ensures Clean(seg) {
      KeepMember(SplitRuns(s), seg);
      SplitInherits(s, seg);
    }
  }

  // ----- length -------------------------------------------------------------

  lemma {:induction false} KeptNotLonger(s: string)
    ensures Keep(SplitRuns(s)).Ok? ==> |Join(Keep(SplitRuns(s)).value, '/')| <= |s|
    ensures Keep(SplitRuns(s)).Ok? ==> |Keep(SplitRuns(s)).value| <= |SplitRuns(s)|
    decreases |s|
  {
    var i := FindSeparator(s);
    if i < |s| {
      var rest := DropSeparators(s[i..][1..]);
      KeptNotLonger(rest);
      assert SplitRuns(s) == [s[..i]] + SplitRuns(rest);
      assert SplitRuns(s)[1..] == SplitRuns(rest);
    } else {
      assert SplitRuns(s)[1..] == [];
    }
  }

  // ----- resolving again ----------------------------------------------------

  /** Joining clean segments and cutting again gives the segments. */
  lemma {:induction false} SplitRunsJoin(segments: seq<string>)
    requires segments != [] && AllClean(segments)
    ensures SplitRuns(Join(segments, '/')) == segments
  {
    var first := segments[0];
    assert first in segments && Clean(first);
    assert forall k :: 0 <= k < |first| ==> first[k] in first;
    if |segments| == 1 {
      WholeSegment(first);
    } else {
      var rest := Join(segments[1..], '/');
      assert forall seg :: seg in segments[1..] ==> seg in segments;
      SplitRunsJoin(segments[1..]);
      JoinStart(segments[1..]);
      SegmentBefore(first, rest);
      assert segments == [first] + segments[1..];
    }
  }

  lemma {:induction false} FindSeparatorAt(s: string, i: nat)
    requires i <= |s| && (forall k :: 0 <= k < i ==> !IsSeparator(s[k])) && (i < |s| ==> IsSeparator(s[i]))
    ensures FindSeparator(s) == i
  {
  }

  lemma WholeSegment(s: string)
    requires forall k :: 0 <= k < |s| ==> !IsSeparator(s[k])
    ensures SplitRuns(s) == [s]
  {
    FindSeparatorAt(s, |s|);
  }

  lemma SegmentBefore(first: string, rest: string)
    requires forall k :: 0 <= k < |first| ==> !IsSeparator(first[k])
    requires rest != "" && !IsSeparator(rest[0])
    ensures SplitRuns(first + "/" + rest) == [first] + SplitRuns(rest)
  {
    var s := first + "/" + rest;
    FindSeparatorAt(s, |first|);
    assert s[..|first|] == first && s[|first|..][1..] == rest;
  }

  lemma JoinStart(segments: seq<string>)
    requires segments != [] && AllClean(segments)
    ensures var s := Join(segments, '/');
            s != "" && !IsSeparator(s[0])
  {
    assert segments[0] in segments && segments[0][0] in segments[0];
  }

  lemma {:induction false} KeepClean(segments: seq<string>)
    requires AllClean(segments)
    ensures Keep(segments) == Ok(segments)
  {
    if segments != [] {
      assert segments[0] in segments;
      assert forall seg :: seg in segments[1..] ==> seg in segments;
      KeepClean(segments[1..]);
      assert segments == [segments[0]] + segments[1..];
    }
  }

  lemma {:induction false} JoinCharacters(segments: seq<string>)
    requires AllClean(segments)
    ensures forall c :: c in Join(segments, '/') ==> !IsControl(c) && c != ':'
  {
    if segments != [] {
      assert segments[0] in segments;
      if |segments| > 1 {
        assert forall seg :: seg in segments[1..] ==> seg in segments;
        JoinCharacters(segments[1..]);
      }
    }
  }

  /** A percent escape has no slash in it, so it lies on one side of a slash. */
  lemma {:induction false} EscapeBesideSlash(a: string, b: string)
    requires HasPercentEscape(a + "/" + b)
    ensures HasPercentEscape(a) || HasPercentEscape(b)
    decreases |a|
  {
    var s := a + "/" + b;
    if a == "" {
      assert s[1..] == b;
    } else {
      assert s[1..] == a[1..] + "/" + b;
      if EscapeAtFront(s) {
        EscapeWithin(a, b);
      } else {
        EscapeBesideSlash(a[1..], b);
      }
    }
  }

  lemma EscapeWithin(a: string, b: string)
    requires a != "" && EscapeAtFront(a + "/" + b)
    ensures EscapeAtFront(a)
  {
    var s := a + "/" + b;
    var l := Lower(s[1..3]);
    assert '/' !in "2e" && '/' !in "2f" && '/' !in "5c";
    assert l[0] in l && l[1] in l;
    assert s[1] != '/' && s[2] != '/' && s[|a|] == '/';
    assert |a| >= 3 && a[1..3] == s[1..3];
  }

  lemma {:induction false} JoinWithoutEscape(segments: seq<string>)
    requires AllClean(segments)
    ensures !HasPercentEscape(Join(segments, '/'))
  {
    if segments != [] {
      assert segments[0] in segments;
      if |segments| > 1 {
        assert forall seg :: seg in segments[1..] ==> seg in segments;
        JoinWithoutEscape(segments[1..]);
        if HasPercentEscape(Join(segments, '/')) {
          EscapeBesideSlash(segments[0], Join(segments[1..], '/'));
        }
      }
    }
  }

  lemma RootResolves()
    ensures ResolvedSegments(".") == Ok([])
  {
    WholeSegment(".");
    assert ["."][1..] == [];
  }

  lemma OnlyTildeProblem(s: string)
    requires s != "" && |s| <= MAX_PATH_LENGTH && !IsSeparator(s[0]) && |SplitRuns(s)| <= MAX_SEGMENTS
    requires (forall c :: c in s ==> !IsControl(c) && c != ':') && !HasPercentEscape(s)
    ensures TextProblem(s) == if s[0] == '~' then Some(HomeExpansion) else None
  {
    assert |s| > 1 ==> s[1] in s;
  }

  /** A canonical path, other than one that starts with `~`, passes every check and resolves to its segments. */
  lemma CleanResolves(segments: seq<string>)
    requires segments != [] && AllClean(segments) && |segments| <= MAX_SEGMENTS
    requires |Join(segments, '/')| <= MAX_PATH_LENGTH
    ensures var s := Join(segments, '/');
            s != "" && ResolvedSegments(s) == if s[0] == '~' then Err(HomeExpansion) else Ok(segments)
  {
    JoinStart(segments);
    JoinCharacters(segments);
    JoinWithoutEscape(segments);
    SplitRunsJoin(segments);
    KeepClean(segments);
    OnlyTildeProblem(Join(segments, '/'));
  }

  lemma ResolvedBounds(s: string)
    requires ResolvedSegments(s).Ok?
    ensures |ResolvedSegments(s).value| <= MAX_SEGMENTS
    ensures |Assemble(ResolvedSegments(s).value)| <= |s| <= MAX_PATH_LENGTH
  {
    KeptNotLonger(s);
  }

  /** What resolving yields: the root, or clean segments joined by slashes, no longer than what came in. */
  lemma ResolvedForm(s: string)
    requires Resolved(Some(s)).Ok?
    ensures var segments := ResolvedSegments(s).value;
            && Resolved(Some(s)).value == (if segments == [] then "." else Join(segments, '/'))
            && AllClean(segments) && |segments| <= MAX_SEGMENTS && |Resolved(Some(s)).value| <= |s|
  {
    ResolvedClean(s);
    ResolvedBounds(s);
  }

  /** Resolving again is the identity exactly when the result does not start with `~`; then it is refused. */
  lemma ResolveAgain(s: string)
    requires Resolved(Some(s)).Ok?
    ensures var r := Resolved(Some(s)).value;
            && r != ""
            && Resolved(Some(r)) == if r[0] == '~' then Err(HomeExpansion) else Ok(r)
  {
    ResolvedForm(s);
    ResolvedBounds(s);
    var segments := ResolvedSegments(s).value;
    if segments == [] {
      RootResolves();
    } else {
      JoinStart(segments);
      CleanResolves(segments);
    }
  }

  /** The text is looked at before `.` segments are dropped: behind `./` a leading `~` goes unnoticed. */
  lemma DotSlashResolves(segments: seq<string>)
    requires segments != [] && AllClean(segments) && |segments| < MAX_SEGMENTS
    requires |Join(segments, '/')| + 2 <= MAX_PATH_LENGTH
    ensures Resolved(Some("./" + Join(segments, '/'))) == Ok(Join(segments, '/'))
  {
    var r := Join(segments, '/');
    JoinStart(segments);
    JoinCharacters(segments);
    JoinWithoutEscape(segments);
    SplitRunsJoin(segments);
    KeepClean(segments);
    DotSlashText(r);
    assert (["."] + segments)[1..] == segments;
  }

  lemma DotSlashText(r: string)
    requires r != "" && |r| + 2 <= MAX_PATH_LENGTH && !IsSeparator(r[0]) && |SplitRuns(r)| < MAX_SEGMENTS
    requires (forall c :: c in r ==> !IsControl(c) && c != ':') && !HasPercentEscape(r)
    ensures TextProblem("./" + r).None? && SplitRuns("./" + r) == ["."] + SplitRuns(r)
  {
    var s := "./" + r;
    assert s == "." + "/" + r;
    SegmentBefore(".", r);
    DotSlashCharacters(r);
    hide SplitRuns;
    OnlyTildeProblem(s);
  }

  lemma DotSlashCharacters(r: string)
    ensures forall c :: c in "./" + r ==> c == '.' || c == '/' || c in r
    ensures HasPercentEscape("./" + r) ==> HasPercentEscape(r)
  {
    var s := "./" + r;
    assert s[1..] == "/" + r && s[1..][1..] == r;
    assert HasPercentEscape(s) == HasPercentEscape(s[1..]);
    assert HasPercentEscape(s[1..]) == HasPercentEscape(r);
  }

  lemma TildeClean()
    ensures Clean("~a")
  {
    assert "~a"[1..] == "a" && "a"[1..] == "";
    assert forall name :: name in RESERVED ==> |name| >= 3;
    assert forall c :: c in "~a" ==> c in {'~', 'a'};
  }

  /** So `./~a` resolves to `~a`, which is itself refused. */
  lemma HomeExample()
    ensures Resolved(Some("./" + "~a")) == Ok("~a") && Resolved(Some("~a")) == Err(HomeExpansion)
  {
    TildeClean();
    assert AllClean(["~a"]) && Join(["~a"], '/') == "~a";
    DotSlashResolves(["~a"]);
    CleanResolves(["~a"]);
  }
}
