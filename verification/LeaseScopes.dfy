/** The scopes of write leases, core/orchestrator/lease-manager.ts: the string tests, in terms of segments. */
module LeaseScopes {
  import opened Wrappers
  import opened Text
  import opened Segments
  import opened WorkspacePaths
  import opened PathMeaning
  import opened ScopeProperties

  type Scope = seq<string>

  /** `path.replace(/\\/g, "/")` */
  function ToSlashes(s: string): (r: string)
    ensures |r| == |s| && forall i :: 0 <= i < |s| ==> r[i] == if s[i] == '\\' then '/' else s[i]
  {
    seq(|s|, i requires 0 <= i < |s| => if s[i] == '\\' then '/' else s[i])
  }

  /** `path.replace(/\/+$/, "")` */
  function StripSlashes(s: string): (r: string)
    ensures !EndsWith(r, '/')
    ensures !EndsWith(s, '/') ==> r == s
  {
    if EndsWith(s, '/') then StripSlashes(s[..|s| - 1]) else s
  }

  /** `path.replace(/^\.\//, "")` */
  function StripDot(s: string): string
  {
    if "./" <= s then s[2..] else s
  }

  function Normalize(path: string): string
  {
    StripSlashes(StripDot(ToSlashes(path)))
  }

  predicate RootCovers(root: string, path: string)
  {
    root == "*" ||
    var r, p := Normalize(root), Normalize(path);
    p == r || r + "/" <= p
  }

  predicate ScopeCovers(scope: Scope, path: string)
  {
    exists entry :: entry in scope && RootCovers(entry, path)
  }

  predicate ScopesConflict(a: Scope, b: Scope)
  {
    "*" in a || "*" in b || SomeRootsMeet(a, b)
  }

  predicate SomeRootsMeet(a: Scope, b: Scope)
  {
    exists left, right :: left in a && right in b && (RootCovers(left, right) || RootCovers(right, left))
  }

  // ----- segments -----------------------------------------------------------

  /** The names a path is made of. */
  function Names(path: string): (r: seq<string>)
    ensures r != []
  {
    Split(Normalize(path), '/')
  }

  /** A root covers what has its names in front. */
  lemma CoversBySegments(root: string, path: string)
    ensures RootCovers(root, path) <==> root == "*" || Names(root) <= Names(path)
  {
    PrefixBySegments(Normalize(root), Normalize(path), '/');
  }

  /** A path that both scopes cover. */
  ghost predicate SharePath(a: Scope, b: Scope)
  {
    exists path :: ScopeCovers(a, path) && ScopeCovers(b, path)
  }

  /** Two scopes conflict exactly when they share a path, or one is empty and the other is the whole workspace. */
  lemma ConflictIffSharedPath(a: Scope, b: Scope)
    ensures ScopesConflict(a, b)
            <==> SharePath(a, b) || ("*" in a && b == []) || ("*" in b && a == [])
  {
    if path :| ScopeCovers(a, path) && ScopeCovers(b, path) {
      SharedPathConflicts(a, b, path);
    }
    if "*" in a && b != [] {
      WholeSharesAny(a, b, b[0]);
    }
    if "*" in b && a != [] {
      WholeSharesAny(b, a, a[0]);
    }
    if left, right :| left in a && right in b && (RootCovers(left, right) || RootCovers(right, left)) {
      CoversItself(left);
      CoversItself(right);
      if RootCovers(left, right) {
        assert ScopeCovers(a, right) && ScopeCovers(b, right);
      } else {
        assert ScopeCovers(a, left) && ScopeCovers(b, left);
      }
    }
  }

  lemma CoversItself(entry: string)
    ensures RootCovers(entry, entry)
  {
  }

  lemma WholeSharesAny(a: Scope, b: Scope, entry: string)
    requires "*" in a && entry in b
    ensures ScopeCovers(a, entry) && ScopeCovers(b, entry)
  {
    CoversItself(entry);
    assert RootCovers("*", entry);
  }

  lemma SharedPathConflicts(a: Scope, b: Scope, path: string)
    requires ScopeCovers(a, path) && ScopeCovers(b, path)
    ensures ScopesConflict(a, b)
  {
    var left :| left in a && RootCovers(left, path);
    var right :| right in b && RootCovers(right, path);
    if left != "*" && right != "*" {
      CoversBySegments(left, path);
      CoversBySegments(right, path);
      CoversBySegments(left, right);
      CoversBySegments(right, left);
      PrefixesNest(Names(left), Names(right), Names(path));
    }
  }

  /** Two beginnings of one list: the shorter is a beginning of the longer. */
  lemma PrefixesNest(a: seq<string>, b: seq<string>, whole: seq<string>)
    requires a <= whole && b <= whole
    ensures a <= b || b <= a
  {
  }

  lemma ConflictSymmetric(a: Scope, b: Scope)
    ensures ScopesConflict(a, b) <==> ScopesConflict(b, a)
  {
  }

  // ----- places -------------------------------------------------------------

  /** Where a path leads. */
  function Place(path: string): seq<string>
  {
    Unskipped(Names(path))
  }

  /** No empty name and no dot between the names. */
  predicate Plain(path: string)
  {
    forall name :: name in Names(path) ==> !IsSkipped(name)
  }

  ghost predicate Nested(a: seq<string>, b: seq<string>)
  {
    a <= b || b <= a
  }

  lemma {:induction false} UnskippedAppend(a: seq<string>, b: seq<string>)
    ensures Unskipped(a + b) == Unskipped(a) + Unskipped(b)
  {
    if a == [] {
      assert a + b == b;
    } else {
      assert (a + b)[1..] == a[1..] + b;
      UnskippedAppend(a[1..], b);
    }
  }

  lemma {:induction false} SplitBeforeSlash(s: string)
    ensures Split(s + "/", '/') == Split(s, '/') + [""]
    decreases |s|
  {
    HasIff(s, '/');
    if Has(s, '/') {
      var first, rest := First(s, '/'), After(s, '/');
      FirstAfter(s, '/');
      assert s + "/" == first + "/" + (rest + "/");
      FindAfter(first, rest + "/", '/');
      SplitBeforeSlash(rest);
    } else {
      assert s + "/" == s + "/" + "";
      FindAfter(s, "", '/');
      HasIff("", '/');
    }
  }

  lemma {:induction false} StrippedPlace(s: string)
    ensures Unskipped(Split(StripSlashes(s), '/')) == Unskipped(Split(s, '/'))
    decreases |s|
  {
    if EndsWith(s, '/') {
      var t := s[..|s| - 1];
      assert s == t + "/";
      StrippedPlace(t);
      SplitBeforeSlash(t);
      UnskippedAppend(Split(t, '/'), [""]);
    }
  }

  lemma DotStrippedPlace(s: string)
    ensures Unskipped(Split(StripDot(s), '/')) == Unskipped(Split(s, '/'))
  {
    if "./" <= s {
      assert s == "." + "/" + s[2..];
      FindAfter(".", s[2..], '/');
      assert Split(s, '/') == ["."] + Split(s[2..], '/');
      UnskippedAppend(["."], Split(s[2..], '/'));
    }
  }

  lemma SlashInFront(t: string)
    ensures Unskipped(Split("/" + t, '/')) == Unskipped(Split(t, '/'))
  {
    assert "/" + t == "" + "/" + t;
    FindAfter("", t, '/');
    assert Split("/" + t, '/') == [""] + Split(t, '/');
    UnskippedAppend([""], Split(t, '/'));
  }

  lemma {:induction false} DroppedPlace(s: string)
    ensures Unskipped(Split(ToSlashes(DropSeparators(s)), '/')) == Unskipped(Split(ToSlashes(s), '/'))
    decreases |s|
  {
    if s != "" && IsSeparator(s[0]) {
      DroppedPlace(s[1..]);
      assert ToSlashes(s) == "/" + ToSlashes(s[1..]);
      SlashInFront(ToSlashes(s[1..]));
    }
  }

  /** The two ways of cutting at separators differ in skipped names alone. */
  lemma {:induction false} RunsPlace(s: string)
    ensures Unskipped(SplitRuns(s)) == Unskipped(Split(ToSlashes(s), '/'))
    decreases |s|
  {
    hide Unskipped;
    var i, t := FindSeparator(s), ToSlashes(s);
    assert t[..i] == s[..i];
    assert forall k :: 0 <= k < i ==> s[..i][k] == s[k];
    FindAt(t, '/', i);
    if i < |s| {
      var rest := s[i..][1..];
      assert After(t, '/') == ToSlashes(rest);
      DroppedPlace(rest);
      RunsPlace(DropSeparators(rest));
      SameFirstPlace(s[..i], SplitRuns(DropSeparators(rest)), Split(ToSlashes(rest), '/'));
    } else {
      assert t == s;
    }
  }

  lemma SameFirstPlace(first: string, a: seq<string>, b: seq<string>)
    requires Unskipped(a) == Unskipped(b)
    ensures Unskipped([first] + a) == Unskipped([first] + b)
  {
    UnskippedAppend([first], a);
    UnskippedAppend([first], b);
  }

  /** For a path that the canonicaliser accepts, the place is what it resolves to. */
  lemma PlaceIsResolved(path: string)
    requires ResolvedSegments(path).Ok?
    ensures Place(path) == ResolvedSegments(path).value
  {
    KeptUnskipped(SplitRuns(path));
    RunsPlace(path);
    DotStrippedPlace(ToSlashes(path));
    StrippedPlace(StripDot(ToSlashes(path)));
  }

  // ----- conflicts and places -----------------------------------------------

  lemma SingleConflict(a: string, b: string)
    ensures ScopesConflict([a], [b]) <==> a == "*" || b == "*" || Nested(Names(a), Names(b))
  {
    CoversBySegments(a, b);
    CoversBySegments(b, a);
    assert a in [a] && b in [b];
  }

  /**
   * An entry conflicts with every plain entry for a place below or above its own exactly when it is plain itself:
   * with an empty name or a dot inside it is held next to a lease on the same place.
   */
  lemma ConflictByPlaceIff(a: string)
    ensures (forall b :: Plain(b) && Nested(Place(a), Place(b)) ==> ScopesConflict([a], [b])) <==> Plain(a)
  {
    hide Names, Place;
    if Plain(a) {
      forall b | Plain(b) && Nested(Place(a), Place(b)) ensures ScopesConflict([a], [b]) {
        PlainPlace(a);
        PlainPlace(b);
        SingleConflict(a, b);
      }
    } else {
      MissedBelow(a);
    }
  }

  lemma PlainPlace(path: string)
    requires Plain(path)
    ensures Place(path) == Names(path)
  {
  }

  /** A plain path one name below the place of `a`. */
  function Below(a: string): string
  {
    Join(Place(a) + ["a"], '/')
  }

  lemma BelowIsPlain(a: string)
    ensures Below(a) != "*" && Names(Below(a)) == Place(a) + ["a"] && Plain(Below(a))
    ensures Place(Below(a)) == Place(a) + ["a"]
  {
    var names := Place(a) + ["a"];
    NamesWithoutSlash(a);
    assert forall name :: name in Place(a) ==> name in Names(a);
    JoinNames(names);
    WholeIsPlain();
    assert names[|names| - 1] != "*";
  }

  /** The plain path below a path that is not plain meets no conflict. */
  lemma MissedBelow(a: string)
    requires !Plain(a)
    ensures var b := Below(a);
            Plain(b) && Nested(Place(a), Place(b)) && !ScopesConflict([a], [b])
  {
    hide Names, Below, Place;
    var b := Below(a);
    BelowIsPlain(a);
    WholeIsPlain();
    assert Place(a) <= Place(b);
    NotPlainNotNested(a);
    SingleConflict(a, b);
  }

  lemma WholeIsPlain()
    ensures Plain("*") && Names("*") == ["*"]
  {
    assert ToSlashes("*") == "*";
    assert Normalize("*") == "*";
    HasIff("*", '/');
  }

  lemma NotPlainNotNested(a: string)
    requires !Plain(a)
    ensures !Nested(Names(a), Place(a) + ["a"])
  {
    hide Names;
    SkippedNotNested(Names(a), "a");
  }

  lemma SkippedNotNested(names: seq<string>, last: string)
    requires (exists name :: name in names && IsSkipped(name)) && !IsSkipped(last)
    ensures !Nested(names, Unskipped(names) + [last])
  {
    var kept := Unskipped(names) + [last];
    if kept <= names {
      var rest := names[|kept|..];
      assert names == kept + rest;
      UnskippedAppend(kept, rest);
      assert forall name :: name in kept ==> !IsSkipped(name);
    }
  }

  ghost predicate Named(names: seq<string>)
  {
    forall name :: name in names ==> '/' !in name && '\\' !in name
  }

  lemma {:induction false} PiecesHold(s: string, c: char)
    ensures forall piece, x :: piece in Split(s, c) && x in piece ==> x != c && x in s
    decreases |s|
  {
    HasIff(s, c);
    if Has(s, c) {
      PiecesHold(After(s, c), c);
    }
  }

  lemma NamesWithoutSlash(path: string)
    ensures Named(Names(path))
  {
    var t := StripDot(ToSlashes(path));
    StrippedWithin(t);
    PiecesHold(Normalize(path), '/');
  }

  lemma {:induction false} StrippedWithin(s: string)
    ensures forall x :: x in StripSlashes(s) ==> x in s
  {
    if EndsWith(s, '/') {
      StrippedWithin(s[..|s| - 1]);
    }
  }

  /** Names joined with slashes are read as these names. */
  lemma JoinNames(names: seq<string>)
    requires names != [] && Named(names) && !IsSkipped(names[0]) && names[|names| - 1] != ""
    ensures Names(Join(names, '/')) == names
  {
    var s := Join(names, '/');
    SlashedJoin(names);
    JoinStartsNamed(names);
    JoinEndsNamed(names);
    SplitJoin(names, '/');
  }

  lemma {:induction false} SlashedJoin(names: seq<string>)
    requires Named(names)
    ensures ToSlashes(Join(names, '/')) == Join(names, '/')
  {
    if |names| > 0 {
      assert names[0] in names;
      assert forall i :: 0 <= i < |names[0]| ==> names[0][i] in names[0];
      assert forall name :: name in names[1..] ==> name in names;
      SlashedJoin(names[1..]);
    }
  }

  lemma JoinStartsNamed(names: seq<string>)
    requires names != [] && Named(names) && !IsSkipped(names[0])
    ensures !("./" <= Join(names, '/'))
  {
    assert names[0] in names;
    var s, first := Join(names, '/'), names[0];
    assert first <= s;
    if |first| >= 2 {
      assert s[1] == first[1] && first[1] in first;
    }
  }

  lemma {:induction false} JoinEndsNamed(names: seq<string>)
    requires names != [] && Named(names) && names[|names| - 1] != ""
    ensures Join(names, '/') != "" && !EndsWith(Join(names, '/'), '/')
  {
    assert names[0] in names;
    if |names| == 1 {
      assert names[0][|names[0]| - 1] in names[0];
    } else {
      JoinEndsNamed(names[1..]);
    }
  }

  /** A directory and a file in it, without a conflict. */
  lemma SpellingExample()
    ensures Place("a/.") == ["a"] && Place("a/b") == ["a", "b"] && !ScopesConflict(["a/."], ["a/b"])
  {
    hide Names;
    assert "a/." == "a" + "/" + "." && "a/b" == "a" + "/" + "b";
    TwoNames("a", ".");
    TwoNames("a", "b");
    UnskippedTwo("a", ".");
    UnskippedTwo("a", "b");
    SingleConflict("a/.", "a/b");
    assert ["a", "."][1] != ["a", "b"][1];
  }

  lemma TwoNames(a: string, b: string)
    requires Named([a, b]) && !IsSkipped(a) && b != ""
    ensures Names(a + "/" + b) == [a, b]
  {
    assert [a, b][1..] == [b];
    JoinNames([a, b]);
  }

  lemma UnskippedTwo(a: string, b: string)
    requires !IsSkipped(a)
    ensures Unskipped([a, b]) == if IsSkipped(b) then [a] else [a, b]
  {
    assert [a, b][1..] == [b];
  }

  // ----- spellings that make no difference ----------------------------------

  /** Already normalised: slashes only, none at the end, no dot segment in front. */
  predicate Canonical(s: string)
  {
    '\\' !in s && !EndsWith(s, '/') && !("./" <= s)
  }

  /** On such texts a root covers itself and what goes on with a slash. */
  lemma CanonicalCovers(root: string, path: string)
    requires Canonical(root) && Canonical(path)
    ensures RootCovers(root, path) <==> root == "*" || path == root || root + "/" <= path
  {
    CanonicalStays(root);
    CanonicalStays(path);
  }

  lemma CanonicalStays(s: string)
    requires Canonical(s)
    ensures Normalize(s) == s
  {
    assert forall i :: 0 <= i < |s| ==> s[i] in s;
    assert ToSlashes(s) == s;
  }

  /** A dot segment in front of `p`, a separator behind it, or other separators in it. */
  predicate Respelled(p: string, q: string)
  {
    && p != "*" && q != "*"
    && (|| (q == "./" + p && !("./" <= p) && !(".\\" <= p))
        || ((q == p + "/" || q == p + "\\") && p != ".")
        || q == ToSlashes(p))
  }

  lemma RespelledSame(p: string, q: string)
    requires Respelled(p, q)
    ensures Normalize(p) == Normalize(q)
  {
    if q == "./" + p && !("./" <= p) && !(".\\" <= p) {
      DotInFront(p);
    } else if q == ToSlashes(p) {
      assert ToSlashes(q) == q;
    } else {
      assert ToSlashes(q) == ToSlashes(p) + "/";
      SlashBehind(p, ToSlashes(p));
    }
  }

  lemma DotInFront(p: string)
    requires !("./" <= p) && !(".\\" <= p)
    ensures Normalize("./" + p) == Normalize(p)
  {
    var t := ToSlashes(p);
    assert ToSlashes("./" + p) == "./" + t && ("./" + t)[2..] == t;
    DotSlashFront(p);
  }

  lemma DotSlashFront(p: string)
    ensures "./" <= ToSlashes(p) <==> "./" <= p || ".\\" <= p
  {
    if |p| >= 2 {
      assert p[..2] == [p[0], p[1]];
    }
  }

  lemma SlashBehind(p: string, t: string)
    requires t == ToSlashes(p) && p != "."
    ensures StripSlashes(StripDot(t + "/")) == StripSlashes(StripDot(t))
  {
    assert |t| == 1 && t[0] == '.' ==> p == ".";
    if "./" <= t {
      assert (t + "/")[2..] == t[2..] + "/";
      assert (t[2..] + "/")[..|t[2..]|] == t[2..];
    } else {
      assert (t + "/")[..|t|] == t;
    }
  }

  /** Another spelling covers, and is covered by, the same paths. */
  lemma RespelledCovers(p: string, q: string, x: string)
    requires Respelled(p, q)
    ensures RootCovers(p, x) <==> RootCovers(q, x)
    ensures RootCovers(x, p) <==> RootCovers(x, q)
  {
    hide Normalize;
    RespelledSame(p, q);
  }

  /** So a scope may be spelled either way without a difference to what it conflicts with. */
  lemma RespelledConflicts(a: Scope, i: nat, q: string, b: Scope)
    requires i < |a| && Respelled(a[i], q)
    ensures ScopesConflict(a[i := q], b) <==> ScopesConflict(a, b)
    ensures ScopesConflict(b, a[i := q]) <==> ScopesConflict(b, a)
  {
    var c := a[i := q];
    assert a == c[i := a[i]];
    forall x | x in a && x != a[i] ensures x in c {
    }
    forall x | x in c && x != q ensures x in a {
    }
    assert c[i] == q && q in c && a[i] in a;
    hide RootCovers;
    MeetsRespelled(a, c, a[i], q, b);
    ConflictSymmetric(a, b);
    ConflictSymmetric(c, b);
  }

  lemma MeetsRespelled(a: Scope, c: Scope, p: string, q: string, b: Scope)
    requires Respelled(p, q) && p in a && q in c
    requires forall x :: x in a && x != p ==> x in c
    requires forall x :: x in c && x != q ==> x in a
    ensures SomeRootsMeet(a, b) <==> SomeRootsMeet(c, b)
  {
    hide RootCovers, Respelled;
    forall x {
      RespelledCovers(p, q, x);
    }
  }

  /** A directory with a dot in front, and a file in it. */
  lemma DotConflictExample()
    ensures ScopesConflict(["./src"], ["src/a"])
  {
    assert "./src" == "./" + "src" && "src"[0] == 's';
    RespelledCovers("src", "./src", "src/a");
    assert Canonical("src") && Canonical("src/a");
    assert "src" + "/" <= "src/a";
    CanonicalCovers("src", "src/a");
    assert "./src" in ["./src"] && "src/a" in ["src/a"];
  }

  lemma SliceOfRest(s: string, f: nat, i: nat, n: nat)
    requires f + i + n <= |s|
    ensures s[f..][i..i + n] == s[f + i..f + i + n]
  {
  }

  lemma SplitMember(s: string, piece: string, c: char)
    requires piece in Split(s, c)
    ensures if Has(s, c) then piece == s[..Find(s, c)] || piece in Split(s[Find(s, c) + 1..], c) else piece == s
  {
    if Has(s, c) {
      assert Split(s, c) == [First(s, c)] + Split(After(s, c), c);
      hide Split, Find;
      FirstOrRest(First(s, c), Split(After(s, c), c), piece);
    }
  }

  lemma FirstOrRest(first: string, rest: seq<string>, x: string)
    requires x in [first] + rest
    ensures x == first || x in rest
  {
  }

  lemma {:induction false} PieceOccurs(s: string, piece: string, c: char) returns (i: nat)
    requires piece in Split(s, c)
    ensures i + |piece| <= |s| && s[i..i + |piece|] == piece
    decreases |s|
  {
    hide Split;
    var f := Find(s, c);
    SplitMember(s, piece, c);
    if !Has(s, c) || piece == s[..f] {
      i := 0;
    } else {
      i := PieceOccurs(s[f + 1..], piece, c);
      SliceOfRest(s, f + 1, i, |piece|);
      i := f + 1 + i;
    }
  }

  lemma {:induction false} StrippedPrefix(s: string)
    ensures StripSlashes(s) <= s
  {
    if EndsWith(s, '/') {
      StrippedPrefix(s[..|s| - 1]);
    }
  }

  /** Every name of a path stands in it. */
  lemma NamesOccur(path: string, name: string) returns (i: nat)
    requires name in Names(path)
    ensures i + |name| <= |path| && ToSlashes(path)[i..i + |name|] == name
  {
    hide *;
    NamesAreOf(path);
    var t, u := ToSlashes(path), StripDot(ToSlashes(path));
    StrippedPrefix(u);
    WithoutDot(t);
    i := PieceOccurs(StripSlashes(u), name, '/');
    SliceOfPrefix(StripSlashes(u), u, i, |name|);
    SliceOfRest(t, |t| - |u|, i, |name|);
    i := |t| - |u| + i;
  }

  lemma NamesAreOf(path: string)
    ensures Names(path) == Split(StripSlashes(StripDot(ToSlashes(path))), '/')
  {
  }

  lemma WithoutDot(t: string)
    ensures |StripDot(t)| <= |t| && StripDot(t) == t[|t| - |StripDot(t)|..]
  {
  }

  lemma SliceOfPrefix(front: string, s: string, i: nat, n: nat)
    requires front <= s && i + n <= |front|
    ensures front[i..i + n] == s[i..i + n]
  {
  }
}
