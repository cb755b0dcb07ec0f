/** Which requests the path canonicaliser accepts, and why it refuses the others, in terms of their characters. */
module PathMeaning {
  import opened Wrappers
  import opened Text
  import opened Segments
  import opened WorkspacePaths

  // ----- the text -----------------------------------------------------------

  /** `%2e`, `%2f` or `%5c` from `i` on, in either case. */
  predicate EscapeAt(s: string, i: nat)
  {
    && i + 2 < |s| && s[i] == '%'
    && ((s[i + 1] == '2' && s[i + 2] in "eEfF") || (s[i + 1] == '5' && s[i + 2] in "cC"))
  }

  /** What the text as a whole can be refused for. */
  predicate TextViolation(s: string, v: Violation)
  {
    match v
    case Empty => s == ""
    case TooLong => |s| > 1024
    case ControlCharacter => exists i :: 0 <= i < |s| && (s[i] < '\U{0020}' || s[i] == '\U{007F}')
    case HomeExpansion => s != "" && s[0] == '~'
    case Absolute => s != "" && s[0] == '/'
    case Rooted => s != "" && s[0] == '\\'
    case DriveLetter => |s| > 1 && ('A' <= s[0] <= 'Z' || 'a' <= s[0] <= 'z') && s[1] == ':'
    case Colon => exists i :: 0 <= i < |s| && s[i] == ':'
    case PercentEncoded => exists i :: 0 <= i < |s| && EscapeAt(s, i)
    case TooDeep => |SplitRuns(s)| > 64
    case _ => false
  }

  /** The order of the checks. */
  function Rank(v: Violation): nat
  {
    match v
    case NotAString => 0
    case Empty => 1
    case TooLong => 2
    case ControlCharacter => 3
    case HomeExpansion => 4
    case Absolute => 5
    case Rooted => 6
    case DriveLetter => 7
    case Colon => 8
    case PercentEncoded => 9
    case TooDeep => 10
    case Traversal => 11
    case TrailingDotOrSpace => 12
    case ReservedName => 13
    case InvalidCharacter => 14
    case EscapesRoot => 15
  }

  ghost predicate TextAllowed(s: string)
  {
    forall v: Violation :: !TextViolation(s, v)
  }

  /** The first violation in the order of the checks. */
  ghost predicate TextRefused(s: string, v: Violation)
  {
    TextViolation(s, v) && forall w: Violation :: Rank(w) < Rank(v) ==> !TextViolation(s, w)
  }

  // ----- the segments -------------------------------------------------------

  predicate DeviceStem(t: string)
  {
    || (|t| == 3 && Lower(t) in {"con", "prn", "aux", "nul"})
    || (|t| == 4 && Lower(t[..3]) in {"com", "lpt"} && t[3] in "0123456789\U{00B9}\U{00B2}\U{00B3}")
  }

  /** A device name, or one before a dot and anything on the same line. */
  predicate DeviceName(segment: string)
  {
    exists n :: && 0 <= n <= |segment| && DeviceStem(segment[..n])
                && (n == |segment| || (segment[n] == '.' && OneLine(segment[n..])))
  }

  predicate SegmentViolation(segment: string, v: Violation)
  {
    match v
    case Traversal => segment == ".."
    case TrailingDotOrSpace => segment != "" && (segment[|segment| - 1] == '.' || segment[|segment| - 1] == ' ')
    case ReservedName => DeviceName(segment)
    case InvalidCharacter => exists i :: 0 <= i < |segment| && segment[i] in "<>\"|?*"
    case _ => false
  }

  /** Empty segments and dots are passed over; the others must have no violation. */
  ghost predicate SegmentAllowed(segment: string)
  {
    segment == "" || segment == "." || forall v: Violation :: !SegmentViolation(segment, v)
  }

  ghost predicate SegmentRefused(segment: string, v: Violation)
  {
    && segment != "" && segment != "." && SegmentViolation(segment, v)
    && forall w: Violation :: Rank(w) < Rank(v) ==> !SegmentViolation(segment, w)
  }

  // ----- the checks mean this -----------------------------------------------

  lemma {:induction false} EscapeMeans(s: string)
    ensures HasPercentEscape(s) <==> exists i :: 0 <= i < |s| && EscapeAt(s, i)
  {
    if s != "" {
      EscapeMeans(s[1..]);
      EscapeAtFrontMeans(s);
      assert forall i :: 0 <= i < |s| - 1 ==> (EscapeAt(s[1..], i) <==> EscapeAt(s, i + 1));
      if i :| 0 <= i < |s| && EscapeAt(s, i) {
        assert i > 0 ==> EscapeAt(s[1..], i - 1);
      }
      if i :| 0 <= i < |s[1..]| && EscapeAt(s[1..], i) {
        assert EscapeAt(s, i + 1);
      }
    }
  }

  lemma EscapeAtFrontMeans(s: string)
    ensures EscapeAtFront(s) <==> EscapeAt(s, 0)
  {
    if |s| >= 3 {
      var t := Lower(s[1..3]);
      assert t == [LowerChar(s[1]), LowerChar(s[2])];
    }
  }

  lemma CharactersMean(s: string)
    ensures (exists c :: c in s && IsControl(c)) <==> TextViolation(s, ControlCharacter)
    ensures ':' in s <==> TextViolation(s, Colon)
    ensures HasPercentEscape(s) <==> TextViolation(s, PercentEncoded)
  {
    EscapeMeans(s);
    if c :| c in s && IsControl(c) {
      var i :| 0 <= i < |s| && s[i] == c;
    }
    if i :| 0 <= i < |s| && (s[i] < '\U{0020}' || s[i] == '\U{007F}') {
      assert s[i] in s && IsControl(s[i]);
    }
  }

  lemma TextProblemMeans(s: string)
    ensures TextProblem(s).Some? ==> TextRefused(s, TextProblem(s).value)
    ensures TextProblem(s).None? ==> TextAllowed(s)
  {
    CharactersMean(s);
    hide HasPercentEscape, SplitRuns, EscapeAt;
  }

  lemma ThreeLetters(u: string)
    requires |u| == 3
    ensures u in RESERVED <==> u in {"con", "prn", "aux", "nul"}
  {
  }

  lemma FourLetters(u: string)
    requires |u| == 4
    ensures u in RESERVED <==> u[..3] in {"com", "lpt"} && u[3] in "0123456789\U{00B9}\U{00B2}\U{00B3}"
  {
    assert u == u[..3] + [u[3]];
    assert "com" + ['0'] == "com0" && "com" + ['1'] == "com1" && "com" + ['2'] == "com2" && "com" + ['3'] == "com3";
    assert "com" + ['4'] == "com4" && "com" + ['5'] == "com5" && "com" + ['6'] == "com6" && "com" + ['7'] == "com7";
    assert "com" + ['8'] == "com8" && "com" + ['9'] == "com9" && "com" + ['\U{00B9}'] == "com\U{00B9}";
    assert "com" + ['\U{00B2}'] == "com\U{00B2}" && "com" + ['\U{00B3}'] == "com\U{00B3}";
    assert "lpt" + ['0'] == "lpt0" && "lpt" + ['1'] == "lpt1" && "lpt" + ['2'] == "lpt2" && "lpt" + ['3'] == "lpt3";
    assert "lpt" + ['4'] == "lpt4" && "lpt" + ['5'] == "lpt5" && "lpt" + ['6'] == "lpt6" && "lpt" + ['7'] == "lpt7";
    assert "lpt" + ['8'] == "lpt8" && "lpt" + ['9'] == "lpt9" && "lpt" + ['\U{00B9}'] == "lpt\U{00B9}";
    assert "lpt" + ['\U{00B2}'] == "lpt\U{00B2}" && "lpt" + ['\U{00B3}'] == "lpt\U{00B3}";
  }

  lemma StemMeans(t: string)
    ensures Lower(t) in RESERVED <==> DeviceStem(t)
  {
    if |t| == 3 {
      ThreeLetters(Lower(t));
    } else if |t| == 4 {
      FourLetters(Lower(t));
      assert Lower(t)[..3] == Lower(t[..3]);
    }
  }

  lemma ReservedMeans(segment: string)
    ensures IsReserved(segment) <==> DeviceName(segment)
  {
    var dot := Find(segment, '.');
    StemMeans(segment[..dot]);
    hide DeviceStem;
    forall n | 0 <= n <= |segment| && DeviceStem(segment[..n]) && (n == |segment| || segment[n] == '.')
      ensures n == dot
    {
      StemHasNoDot(segment[..n]);
      FindAt(segment, '.', n);
    }
  }

  lemma StemHasNoDot(t: string)
    requires DeviceStem(t)
    ensures '.' !in t
  {
    if |t| == 3 {
      assert Lower(t) == [LowerChar(t[0]), LowerChar(t[1]), LowerChar(t[2])];
    } else {
      assert Lower(t[..3]) == [LowerChar(t[0]), LowerChar(t[1]), LowerChar(t[2])];
    }
  }

  lemma SegmentProblemMeans(segment: string)
    requires !IsSkipped(segment)
    ensures SegmentProblem(segment).Some? ==> SegmentRefused(segment, SegmentProblem(segment).value)
    ensures SegmentProblem(segment).None? ==> SegmentAllowed(segment)
  {
    ReservedMeans(segment);
    hide IsReserved, DeviceName;
    if c :| c in segment && c in "<>\"|?*" {
      var i :| 0 <= i < |segment| && segment[i] == c;
    }
    if i :| 0 <= i < |segment| && segment[i] in "<>\"|?*" {
      assert segment[i] in segment;
    }
  }

  // ----- what is kept -------------------------------------------------------

  /** The names without those that a file system skips. */
  function Unskipped(names: seq<string>): (r: seq<string>)
    ensures forall name :: name in r ==> name in names && !IsSkipped(name)
    ensures (forall name :: name in names ==> !IsSkipped(name)) ==> r == names
  {
    if names == [] then []
    else
      assert forall name :: name in names[1..] ==> name in names;
      assert names == [names[0]] + names[1..];
      (if IsSkipped(names[0]) then [] else [names[0]]) + Unskipped(names[1..])
  }

  lemma {:induction false} KeptUnskipped(segments: seq<string>)
    requires Keep(segments).Ok?
    ensures Keep(segments).value == Unskipped(segments)
  {
    if segments != [] {
      KeptUnskipped(segments[1..]);
    }
  }

  // ----- accepted and refused -----------------------------------------------

  /** The first segment with a violation has this one first. */
  ghost predicate FirstRefused(segments: seq<string>, v: Violation)
  {
    exists k :: && 0 <= k < |segments| && SegmentRefused(segments[k], v)
                && forall j :: 0 <= j < k ==> SegmentAllowed(segments[j])
  }

  lemma RefusedNotAllowed(segment: string, v: Violation)
    requires SegmentRefused(segment, v)
    ensures !SegmentAllowed(segment)
    ensures forall w: Violation :: SegmentRefused(segment, w) ==> w == v
  {
    forall w: Violation | SegmentRefused(segment, w) ensures w == v {
      assert !(Rank(w) < Rank(v)) && !(Rank(v) < Rank(w));
    }
  }

  lemma {:induction false} KeepMeans(segments: seq<string>)
    ensures Keep(segments).Err? ==> FirstRefused(segments, Keep(segments).error)
    ensures Keep(segments).Ok? ==> forall segment :: segment in segments ==> SegmentAllowed(segment)
  {
    if segments != [] {
      hide SegmentAllowed, SegmentRefused, SegmentProblem;
      var rest := segments[1..];
      KeepMeans(rest);
      FirstMeans(segments[0]);
      assert segments == [segments[0]] + rest;
      if Keep(segments).Err? && Keep(rest).Err? && Keep(segments) == Keep(rest) && SegmentAllowed(segments[0]) {
        LaterRefused(segments, Keep(rest).error);
      }
    }
  }

  lemma FirstMeans(segment: string)
    ensures IsSkipped(segment) || SegmentProblem(segment).None? <==> SegmentAllowed(segment)
    ensures !IsSkipped(segment) && SegmentProblem(segment).Some? ==>
              SegmentRefused(segment, SegmentProblem(segment).value)
  {
    if !IsSkipped(segment) {
      SegmentProblemMeans(segment);
      if SegmentProblem(segment).Some? {
        RefusedNotAllowed(segment, SegmentProblem(segment).value);
      }
    }
  }

  lemma LaterRefused(segments: seq<string>, v: Violation)
    requires segments != [] && SegmentAllowed(segments[0]) && FirstRefused(segments[1..], v)
    ensures FirstRefused(segments, v)
  {
    hide SegmentAllowed, SegmentRefused;
    var k :| && 0 <= k < |segments[1..]| && SegmentRefused(segments[1..][k], v)
             && forall j :: 0 <= j < k ==> SegmentAllowed(segments[1..][j]);
    assert SegmentRefused(segments[k + 1], v);
    forall j | 0 <= j < k + 1 ensures SegmentAllowed(segments[j]) {
      if j > 0 {
        assert segments[j] == segments[1..][j - 1];
      }
    }
  }

  lemma FirstRefusedOnce(segments: seq<string>, v: Violation, w: Violation)
    requires FirstRefused(segments, v) && FirstRefused(segments, w)
    ensures v == w && exists segment :: segment in segments && !SegmentAllowed(segment)
  {
    var i :| && 0 <= i < |segments| && SegmentRefused(segments[i], v)
             && forall j :: 0 <= j < i ==> SegmentAllowed(segments[j]);
    var k :| && 0 <= k < |segments| && SegmentRefused(segments[k], w)
             && forall j :: 0 <= j < k ==> SegmentAllowed(segments[j]);
    hide SegmentAllowed, SegmentRefused;
    RefusedNotAllowed(segments[i], v);
    RefusedNotAllowed(segments[k], w);
    assert segments[i] in segments;
  }

  /** A request is accepted exactly when its text and all its segments are allowed, and then keeps the others. */
  lemma AcceptedExactly(s: string)
    ensures ResolvedSegments(s).Ok?
            <==> TextAllowed(s) && forall segment :: segment in SplitRuns(s) ==> SegmentAllowed(segment)
    ensures ResolvedSegments(s).Ok? ==> ResolvedSegments(s).value == Unskipped(SplitRuns(s))
  {
    hide TextProblem, SplitRuns, SegmentAllowed, Keep, Unskipped;
    TextProblemMeans(s);
    if TextProblem(s).None? {
      KeepMeans(SplitRuns(s));
      if Keep(SplitRuns(s)).Ok? {
        KeptUnskipped(SplitRuns(s));
      } else {
        FirstRefusedOnce(SplitRuns(s), Keep(SplitRuns(s)).error, Keep(SplitRuns(s)).error);
      }
    }
  }

  /** And it is refused for the first violation: of the text, or else of the first segment that has one. */
  lemma RefusedExactly(s: string, v: Violation)
    ensures ResolvedSegments(s) == Err(v)
            <==> TextRefused(s, v) || (TextAllowed(s) && FirstRefused(SplitRuns(s), v))
  {
    AcceptedExactly(s);
    TextProblemMeans(s);
    if TextProblem(s).Some? {
      TextRefusedOnce(s, TextProblem(s).value, v);
    } else {
      assert !TextRefused(s, v);
      hide TextProblem, TextAllowed, TextRefused, SplitRuns, SegmentAllowed, Keep;
      KeepMeans(SplitRuns(s));
      if FirstRefused(SplitRuns(s), v) {
        FirstRefusedOnce(SplitRuns(s), v, v);
        if Keep(SplitRuns(s)).Err? {
          FirstRefusedOnce(SplitRuns(s), Keep(SplitRuns(s)).error, v);
        }
      }
    }
  }

  lemma TextRefusedOnce(s: string, v: Violation, w: Violation)
    requires TextRefused(s, v)
    ensures !TextAllowed(s) && (TextRefused(s, w) <==> v == w)
  {
    assert TextViolation(s, v);
    if TextRefused(s, w) {
      assert !(Rank(w) < Rank(v)) && !(Rank(v) < Rank(w));
    }
  }
}
