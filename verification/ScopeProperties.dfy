/** The scope tests of contracts/workspace-paths.ts compare strings; here they are prefix tests on segments. */
module ScopeProperties {
  import opened Wrappers
  import opened Text
  import opened Segments
  import opened WorkspacePaths
  import opened PathProperties

  /** `a` is `b` or is followed by a separator in it, exactly when the segments of `a` are a prefix of those of `b`. */
  lemma {:induction false} PrefixBySegments(a: string, b: string, c: char)
    ensures (a == b || a + [c] <= b) <==> Split(a, c) <= Split(b, c)
    decreases |a|
  {
    HasIff(a, c);
    HasIff(b, c);
    if !Has(a, c) {
      WholeBeforeSeparator(a, b, c);
    } else {
      var x, rest := First(a, c), After(a, c);
      FirstAfter(a, c);
      if Has(b, c) && First(b, c) == x {
        FirstAfter(b, c);
        PrefixBySegments(rest, After(b, c), c);
        CommonStart(x + [c], rest, After(b, c), c);
        PrefixCons(x, Split(rest, c), Split(After(b, c), c));
      } else {
        DifferentStart(x, rest, b, c);
      }
    }
  }

  lemma StartsWithSegment(x: string, b: string, c: char)
    requires c !in x
    ensures x + [c] <= b <==> Has(b, c) && First(b, c) == x
  {
    if x + [c] <= b {
      assert b == x + [c] + b[|x| + 1..];
      FindAfter(x, b[|x| + 1..], c);
    }
    if Has(b, c) && First(b, c) == x {
      FirstAfter(b, c);
    }
  }

  lemma WholeBeforeSeparator(a: string, b: string, c: char)
    requires c !in a
    ensures (a == b || a + [c] <= b) <==> Split(a, c) <= Split(b, c)
  {
    HasIff(a, c);
    HasIff(b, c);
    StartsWithSegment(a, b, c);
    assert Split(a, c) == [a];
    assert Split(b, c)[0] == if Has(b, c) then First(b, c) else b;
  }

  lemma CommonStart(start: string, a: string, b: string, c: char)
    ensures start + a == start + b <==> a == b
    ensures (start + a) + [c] <= start + b <==> a + [c] <= b
  {
    assert (start + a) + [c] == start + (a + [c]);
    assert (start + a)[|start|..] == a && (start + b)[|start|..] == b;
    if start + (a + [c]) <= start + b {
      assert a + [c] == (start + (a + [c]))[|start|..] == (start + b)[|start|..][..|a| + 1];
    }
  }

  lemma PrefixCons(x: string, a: seq<string>, b: seq<string>)
    ensures [x] + a <= [x] + b <==> a <= b
  {
    if [x] + a <= [x] + b {
      assert a == ([x] + a)[1..] == ([x] + b)[..|a| + 1][1..] == b[..|a|];
    }
  }

  lemma DifferentStart(x: string, rest: string, b: string, c: char)
    requires c !in x && (!Has(b, c) || First(b, c) != x)
    ensures var a := x + [c] + rest;
            a != b && !(a + [c] <= b) && !(Split(a, c) <= Split(b, c))
  {
    var a := x + [c] + rest;
    FindAfter(x, rest, c);
    StartsWithSegment(x, b, c);
    assert a <= b ==> x + [c] <= b;
    assert Split(a, c)[0] == x && |Split(a, c)| >= 2;
    assert Split(b, c)[0] == if Has(b, c) then First(b, c) else b;
    assert !Has(b, c) ==> |Split(b, c)| == 1;
  }

  // ----- scopes -------------------------------------------------------------

  function LowerAll(segments: seq<string>): (r: seq<string>)
    ensures |r| == |segments| && forall i :: 0 <= i < |r| ==> r[i] == Lower(segments[i])
  {
    seq(|segments|, i requires 0 <= i < |segments| => Lower(segments[i]))
  }

  lemma {:induction false} LowerJoin(segments: seq<string>)
    ensures Lower(Join(segments, '/')) == Join(LowerAll(segments), '/')
  {
    if |segments| > 1 {
      LowerJoin(segments[1..]);
      assert LowerAll(segments)[1..] == LowerAll(segments[1..]);
    }
  }

  lemma CleanHasNoSlash(segments: seq<string>)
    requires AllClean(segments)
    ensures forall seg :: seg in LowerAll(segments) ==> '/' !in seg && seg != "."
  {
    forall i | 0 <= i < |segments| ensures '/' !in LowerAll(segments)[i] && LowerAll(segments)[i] != "." {
      var seg := segments[i];
      assert seg in segments && Clean(seg);
      forall k | 0 <= k < |seg| ensures Lower(seg)[k] != '/' {
        assert seg[k] in seg;
      }
      assert |seg| == 1 ==> Lower(seg)[0] == LowerChar(seg[0]) && (seg[0] == '.' ==> seg == ".");
    }
  }

  /** On lists of clean segments the string test of `isWithinScope` is the prefix test, letter case aside. */
  lemma ScopeTestOnSegments(p: seq<string>, s: seq<string>)
    requires AllClean(p) && AllClean(s) && s != []
    ensures var pl, sl := Lower(Assemble(p)), Lower(Assemble(s));
            (pl == sl || sl + "/" <= pl) <==> LowerAll(s) <= LowerAll(p)
  {
    LowerJoin(p);
    LowerJoin(s);
    CleanHasNoSlash(p);
    CleanHasNoSlash(s);
    SplitJoin(LowerAll(s), '/');
    var sl := Join(LowerAll(s), '/');
    if p == [] {
      assert LowerAll(s)[0] in LowerAll(s);
      HasIff(".", '/');
      PrefixBySegments(sl, ".", '/');
      assert Split(".", '/') == ["."] && Lower(".") == ".";
    } else {
      SplitJoin(LowerAll(p), '/');
      PrefixBySegments(sl, Join(LowerAll(p), '/'), '/');
    }
  }

  /** Within scope: the folded segments of the scope are a prefix of those of the path; errors come from resolving. */
  lemma IsWithinScopeExact(path: string, scope: string)
    ensures var p, s := ResolvedSegments(path), ResolvedSegments(scope);
            IsWithinScope(path, scope) ==
              if p.Err? then Err(p.error)
              else if s.Err? then Err(s.error)
              else Ok(LowerAll(s.value) <= LowerAll(p.value))
  {
    var p, s := ResolvedSegments(path), ResolvedSegments(scope);
    if p.Ok? && s.Ok? {
      ResolvedClean(path);
      ResolvedClean(scope);
      if s.value == [] {
        assert LowerAll(s.value) == [];
      } else {
        ScopeTestOnSegments(p.value, s.value);
        AssembledIsNotRoot(s.value);
      }
    }
  }

  lemma AssembledIsNotRoot(segments: seq<string>)
    requires segments != [] && AllClean(segments)
    ensures Assemble(segments) != "."
  {
    assert segments[0] in segments && Clean(segments[0]);
    assert |segments| > 1 ==> |Join(segments, '/')| >= |segments[0]| + 1 >= 2;
  }

  /** Being within is reflexive and transitive on accepted paths. */
  lemma WithinScopePreorder(a: string, b: string, c: string)
    requires ResolvedSegments(a).Ok? && ResolvedSegments(b).Ok? && ResolvedSegments(c).Ok?
    ensures IsWithinScope(a, a) == Ok(true)
    ensures IsWithinScope(a, b) == Ok(true) && IsWithinScope(b, c) == Ok(true) ==> IsWithinScope(a, c) == Ok(true)
  {
    IsWithinScopeExact(a, a);
    IsWithinScopeExact(a, b);
    IsWithinScopeExact(b, c);
    IsWithinScopeExact(a, c);
  }

  // ----- real paths ---------------------------------------------------------

  /** The components of a normalised path: a separator at the very end does not start another one. */
  function Components(v: string, sep: char): seq<string>
  {
    Split(if EndsWith(v, sep) then v[..|v| - 1] else v, sep)
  }

  lemma SameEnd(a: string, b: string, c: char)
    ensures a + [c] == b + [c] <==> a == b
    ensures a + [c] <= b + [c] <==> a == b || a + [c] <= b
  {
    assert (a + [c])[..|a|] == a && (b + [c])[..|b|] == b;
    if a + [c] <= b + [c] && |a| < |b| {
      assert a + [c] == (b + [c])[..|a| + 1] == b[..|a| + 1];
    }
  }

  /**
   * The string test holds exactly when the components of the root are a prefix of those of the path, save for one
   * case: the path is the root without the separator the root ends with.
   */
  lemma InsideByComponents(root: string, path: string, sep: char)
    ensures Inside(root, path, sep) <==> Components(root, sep) <= Components(path, sep) && root != path + [sep]
  {
    var r := if EndsWith(root, sep) then root[..|root| - 1] else root;
    var p := if EndsWith(path, sep) then path[..|path| - 1] else path;
    PrefixBySegments(r, p, sep);
    SameEnd(r, p, sep);
    if EndsWith(root, sep) {
      assert root == r + [sep];
      InsideWithEnd(r, p, path, sep);
    } else {
      InsideWithoutEnd(root, p, path, sep);
    }
  }

  lemma InsideWithEnd(r: string, p: string, path: string, sep: char)
    requires p == if EndsWith(path, sep) then path[..|path| - 1] else path
    ensures Inside(r + [sep], path, sep) <==> (r == p || r + [sep] <= p) && r + [sep] != path + [sep]
  {
    SameEnd(r, p, sep);
    SameEnd(r, path, sep);
    if EndsWith(path, sep) {
      assert path == p + [sep];
      assert r == path ==> r + [sep] <= p || r != p;
    }
  }

  lemma InsideWithoutEnd(root: string, p: string, path: string, sep: char)
    requires !EndsWith(root, sep) && p == if EndsWith(path, sep) then path[..|path| - 1] else path
    ensures Inside(root, path, sep) <==> root == p || root + [sep] <= p
    ensures root != path + [sep]
  {
    SameEnd(root, p, sep);
    if EndsWith(path, sep) {
      assert path == p + [sep];
    }
    assert (path + [sep])[|path|] == sep;
  }

  /** What normalising keeps: on POSIX every character, on Windows all but case and the kind of slash. */
  function RealChar(c: char, platform: Platform): char
  {
    if platform.Posix? then c else if c == '/' then '\\' else LowerChar(c)
  }

  lemma {:induction false} StripEndKeeps(v: string, sep: char)
    ensures var r := StripEnd(v, sep);
            && r == v[..|r|] && (forall i :: |r| <= i < |v| ==> v[i] == sep) && (v != "" ==> r != "")
  {
    if |v| > 1 && EndsWith(v, sep) && !IsDriveRoot(v) {
      StripEndKeeps(v[..|v| - 1], sep);
    }
  }

  /** A normalised path is the path, character by character, without separators at its end. */
  lemma NormalizedRealKeeps(v: string, platform: Platform)
    ensures var r := NormalizedReal(v, platform);
            && |r| <= |v| && (v != "" ==> r != "")
            && (forall i :: 0 <= i < |r| ==> r[i] == RealChar(v[i], platform))
            && (forall i :: |r| <= i < |v| ==> v[i] == '/' || (platform.Windows? && v[i] == '\\'))
  {
    if platform.Windows? {
      var w := ReplaceSlashes(v);
      assert forall i :: 0 <= i < |v| ==> w[i] == if v[i] == '/' then '\\' else v[i];
      StripEndKeeps(w, '\\');
    } else {
      StripEndKeeps(v, '/');
    }
  }
}
