/** The path canonicaliser and the scope tests of contracts/workspace-paths.ts. */
module WorkspacePaths {
  import opened Wrappers
  import opened Text
  import opened Segments

  datatype Violation =
    | NotAString | Empty | TooLong | ControlCharacter | HomeExpansion | Absolute | Rooted | DriveLetter | Colon
    | PercentEncoded | TooDeep | Traversal | TrailingDotOrSpace | ReservedName | InvalidCharacter | EscapesRoot

  const MAX_PATH_LENGTH: nat := 1024
  const MAX_SEGMENTS: nat := 64

  predicate IsControl(c: char)
  {
    c < ' ' || c == '\U{007F}'
  }

  predicate IsSeparator(c: char)
  {
    c == '/' || c == '\\'
  }

  predicate IsLetter(c: char)
  {
    'A' <= c <= 'Z' || 'a' <= c <= 'z'
  }

  /** `%2e`, `%2f` or `%5c` at the front, in either case. */
  predicate EscapeAtFront(s: string)
  {
    |s| >= 3 && s[0] == '%' && Lower(s[1..3]) in {"2e", "2f", "5c"}
  }

  predicate HasPercentEscape(s: string)
  {
    s != "" && (EscapeAtFront(s) || HasPercentEscape(s[1..]))
  }

  function DropSeparators(s: string): (r: string)
    ensures |r| <= |s|
  {
    if s != "" && IsSeparator(s[0]) then DropSeparators(s[1..]) else s
  }

  function FindSeparator(s: string): (i: nat)
    ensures i <= |s| && (forall k :: 0 <= k < i ==> !IsSeparator(s[k])) && (i < |s| ==> IsSeparator(s[i]))
  {
    if s == "" || IsSeparator(s[0]) then 0 else 1 + FindSeparator(s[1..])
  }

  /** `s.split(/[\\/]+/)` */
  function SplitRuns(s: string): (segments: seq<string>)
    ensures segments != []
    decreases |s|
  {
    var i := FindSeparator(s);
    if i == |s| then [s] else [s[..i]] + SplitRuns(DropSeparators(s[i..][1..]))
  }

  const RESERVED: set<string> := {
    "con", "prn", "aux", "nul",
    "com0", "com1", "com2", "com3", "com4", "com5", "com6", "com7", "com8", "com9",
    "com\U{00B9}", "com\U{00B2}", "com\U{00B3}",
    "lpt0", "lpt1", "lpt2", "lpt3", "lpt4", "lpt5", "lpt6", "lpt7", "lpt8", "lpt9",
    "lpt\U{00B9}", "lpt\U{00B2}", "lpt\U{00B3}"
  }

  /** A Windows device name, alone or with an extension. */
  predicate IsReserved(segment: string)
  {
    var dot := Find(segment, '.');
    Lower(segment[..dot]) in RESERVED && OneLine(segment[dot..])
  }

  function SegmentProblem(segment: string): Option<Violation>
  {
    if segment == ".." then Some(Traversal)
    else if segment != "" && segment[|segment| - 1] in ". " then Some(TrailingDotOrSpace)
    else if IsReserved(segment) then Some(ReservedName)
    else if exists c :: c in segment && c in "<>\"|?*" then Some(InvalidCharacter)
    else None
  }

  predicate IsSkipped(segment: string)
  {
    segment == "" || segment == "."
  }

  /** The segments that stay, or the first problem met. */
  function Keep(segments: seq<string>): Result<seq<string>, Violation>
  {
    if segments == [] then Ok([])
    else if IsSkipped(segments[0]) then Keep(segments[1..])
    else if SegmentProblem(segments[0]).Some? then Err(SegmentProblem(segments[0]).value)
    else
      var rest := Keep(segments[1..]);
      if rest.Err? then rest else Ok([segments[0]] + rest.value)
  }

  /** The checks on a text of allowed length without control characters, in order. */
  function FormProblem(s: string): Option<Violation>
    requires s != ""
  {
    if s[0] == '~' then Some(HomeExpansion)
    else if s[0] == '/' then Some(Absolute)
    else if s[0] == '\\' then Some(Rooted)
    else if |s| > 1 && IsLetter(s[0]) && s[1] == ':' then Some(DriveLetter)
    else if ':' in s then Some(Colon)
    else if HasPercentEscape(s) then Some(PercentEncoded)
    else if |SplitRuns(s)| > MAX_SEGMENTS then Some(TooDeep)
    else None
  }

  /** The checks on the text as a whole, in order. */
  function TextProblem(s: string): Option<Violation>
  {
    if s == "" then Some(Empty)
    else if |s| > MAX_PATH_LENGTH then Some(TooLong)
    else if exists c :: c in s && IsControl(c) then Some(ControlCharacter)
    else FormProblem(s)
  }

  function ResolvedSegments(requested: string): Result<seq<string>, Violation>
  {
    if TextProblem(requested).Some? then Err(TextProblem(requested).value) else Keep(SplitRuns(requested))
  }

  function Assemble(segments: seq<string>): string
  {
    if segments == [] then "." else Join(segments, '/')
  }

  function Resolved(requested: Option<string>): Result<string, Violation>
  {
    if requested.None? then Err(NotAString)
    else
      var segments := ResolvedSegments(requested.value);
      if segments.Err? then Err(segments.error) else Ok(Assemble(segments.value))
  }

  method FindControl(s: string) returns (found: bool)
    ensures found <==> exists c :: c in s && IsControl(c)
  {
    for i := 0 to |s|
      invariant forall j :: 0 <= j < i ==> !IsControl(s[j])
    {
      if IsControl(s[i]) {
        assert s[i] in s;
        return true;
      }
    }
    return false;
  }

  /** What was kept so far in front of what is still to come. */
  function Behind(out: seq<string>, rest: Result<seq<string>, Violation>): Result<seq<string>, Violation>
  {
    if rest.Err? then rest else Ok(out + rest.value)
  }

  lemma BehindNothing(rest: Result<seq<string>, Violation>)
    ensures Behind([], rest) == rest
  {
    if rest.Ok? {
      assert [] + rest.value == rest.value;
    }
  }

  lemma KeepStep(segments: seq<string>, k: nat, out: seq<string>)
    requires k < |segments|
    ensures var next := Keep(segments[k + 1..]);
            Behind(out, Keep(segments[k..])) ==
              if IsSkipped(segments[k]) then Behind(out, next)
              else if SegmentProblem(segments[k]).Some? then Err(SegmentProblem(segments[k]).value)
              else Behind(out + [segments[k]], next)
  {
    assert segments[k..][1..] == segments[k + 1..];
    var next := Keep(segments[k + 1..]);
    if next.Ok? {
      assert out + ([segments[k]] + next.value) == (out + [segments[k]]) + next.value;
    }
  }

  method KeepSegments(segments: seq<string>) returns (r: Result<seq<string>, Violation>)
    ensures r == Keep(segments)
  {
    var out: seq<string> := [];
    BehindNothing(Keep(segments));
    for k := 0 to |segments|
      invariant Behind(out, Keep(segments[k..])) == Keep(segments)
    {
      var segment := segments[k];
      KeepStep(segments, k, out);
      if IsSkipped(segment) {
        continue;
      }
      var problem := SegmentProblem(segment);
      if problem.Some? {
        return Err(problem.value);
      }
      out := out + [segment];
    }
    assert out + [] == out;
    return Ok(out);
  }

  method ResolveWorkspacePath(requested: Option<string>) returns (r: Result<string, Violation>)
    ensures r == Resolved(requested)
  {
    if requested.None? {
      return Err(NotAString);
    }
    var s := requested.value;
    if s == "" {
      return Err(Empty);
    }
    if |s| > MAX_PATH_LENGTH {
      return Err(TooLong);
    }
    var control := FindControl(s);
    if control {
      return Err(ControlCharacter);
    }
    if FormProblem(s).Some? {
      return Err(FormProblem(s).value);
    }
    var kept := KeepSegments(SplitRuns(s));
    if kept.Err? {
      return Err(kept.error);
    }
    return Ok(Assemble(kept.value));
  }

  /** Whether canonical `path` lies within canonical `scope`; both are resolved first. */
  function IsWithinScope(path: string, scope: string): Result<bool, Violation>
  {
    var p := Resolved(Some(path));
    var s := Resolved(Some(scope));
    if p.Err? then Err(p.error)
    else if s.Err? then Err(s.error)
    else if s.value == "." then Ok(true)
    else
      var pl, sl := Lower(p.value), Lower(s.value);
      Ok(pl == sl || sl + "/" <= pl)
  }

  // ----- real paths ---------------------------------------------------------

  datatype Platform = Windows | Posix

  function Separator(platform: Platform): char
  {
    if platform.Windows? then '\\' else '/'
  }

  /** `C:\` */
  predicate IsDriveRoot(v: string)
  {
    |v| == 3 && IsLetter(v[0]) && v[1] == ':' && v[2] == '\\'
  }

  predicate EndsWith(v: string, c: char)
  {
    v != "" && v[|v| - 1] == c
  }

  function StripEnd(v: string, sep: char): (r: string)
    ensures r <= v
    ensures EndsWith(r, sep) ==> |r| == 1 || IsDriveRoot(r)
  {
    if |v| > 1 && EndsWith(v, sep) && !IsDriveRoot(v) then StripEnd(v[..|v| - 1], sep) else v
  }

  function ReplaceSlashes(v: string): (r: string)
    ensures |r| == |v|
  {
    seq(|v|, i requires 0 <= i < |v| => if v[i] == '/' then '\\' else v[i])
  }

  function NormalizedReal(v: string, platform: Platform): string
  {
    if platform.Windows? then Lower(StripEnd(ReplaceSlashes(v), '\\')) else StripEnd(v, '/')
  }

  method NormalizeReal(value: string, platform: Platform) returns (v: string)
    ensures v == NormalizedReal(value, platform)
  {
    v := if platform.Windows? then ReplaceSlashes(value) else value;
    var sep := Separator(platform);
    ghost var start := v;
    while |v| > 1 && EndsWith(v, sep) && !IsDriveRoot(v)
      invariant StripEnd(v, sep) == StripEnd(start, sep)
    {
      v := v[..|v| - 1];
    }
    if platform.Windows? {
      v := Lower(v);
    }
  }

  /** The string test on normalised paths. */
  predicate Inside(root: string, path: string, sep: char)
  {
    path == root || (if EndsWith(root, sep) then root else root + [sep]) <= path
  }

  method AssertRealPathWithinRoot(realRoot: string, realPath: string, platform: Platform)
    returns (r: Result<(), Violation>)
    ensures r.Ok?
            <==> Inside(NormalizedReal(realRoot, platform), NormalizedReal(realPath, platform), Separator(platform))
    ensures r.Err? ==> r.error == EscapesRoot
  {
    var root := NormalizeReal(realRoot, platform);
    var path := NormalizeReal(realPath, platform);
    var sep := Separator(platform);
    if path != root && !((if EndsWith(root, sep) then root else root + [sep]) <= path) {
      return Err(EscapesRoot);
    }
    return Ok(());
  }
}
