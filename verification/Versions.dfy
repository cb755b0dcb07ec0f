/** Version numbers of contracts/environments.ts: reading, printing and comparing them. */
module Versions {
  import opened Wrappers
  import opened Decimal
  import Text

  /** Absent suffixes are `None`. */
  datatype VersionInfo = VersionInfo(
    major: nat,
    minor: nat,
    patch: nat,
    preRelease: Option<string>,
    build: Option<string>)

  // ----- the pattern --------------------------------------------------------

  /** What the groups of the pattern capture. */
  datatype Parts = Parts(
    major: string,
    minor: Option<string>,
    patch: Option<string>,
    preRelease: Option<string>,
    build: Option<string>)

  predicate IsSuffixChar(c: char)
  {
    IsDigit(c) || 'A' <= c <= 'Z' || 'a' <= c <= 'z' || c == '.' || c == '-'
  }

  predicate AllSuffixChars(s: string)
  {
    forall i :: 0 <= i < |s| ==> IsSuffixChar(s[i])
  }

  predicate IsNumber(s: string)
  {
    s != "" && AllDigits(s)
  }

  predicate IsSuffix(s: string)
  {
    s != "" && AllSuffixChars(s)
  }

  /** Captures of the pattern; the first dotted group is tried first, so the second needs it. */
  predicate WellFormed(parts: Parts)
  {
    && IsNumber(parts.major)
    && (parts.minor.Some? ==> IsNumber(parts.minor.value))
    && (parts.patch.Some? ==> parts.minor.Some? && IsNumber(parts.patch.value))
    && (parts.preRelease.Some? ==> IsSuffix(parts.preRelease.value))
    && (parts.build.Some? ==> IsSuffix(parts.build.value))
  }

  /** An optional part behind its mark, and what follows it. */
  function Marked(mark: char, part: Option<string>, rest: string): string
  {
    if part.None? then rest else [mark] + (part.value + rest)
  }

  /** The text that the pattern matches with these captures. */
  function TextOf(parts: Parts): string
  {
    parts.major + Marked('.', parts.minor, Marked('.', parts.patch, SuffixText(parts.preRelease, parts.build)))
  }

  function SuffixText(preRelease: Option<string>, build: Option<string>): string
  {
    Marked('-', preRelease, Marked('+', build, ""))
  }

  function SuffixPrefix(s: string): (r: string)
    ensures r <= s && AllSuffixChars(r) && (|r| < |s| ==> !IsSuffixChar(s[|r|]))
  {
    if s == [] || !IsSuffixChar(s[0]) then [] else [s[0]] + SuffixPrefix(s[1..])
  }

  /** An optional group at the front of a text, and the rest of the text. */
  function ReadDotted(s: string): (Option<string>, string)
  {
    if s != "" && s[0] == '.' && DigitPrefix(s[1..]) != "" then
      var digits := DigitPrefix(s[1..]);
      (Some(digits), s[1..][|digits|..])
    else
      (None, s)
  }

  function ReadSuffix(s: string, mark: char): (Option<string>, string)
  {
    if s != "" && s[0] == mark && SuffixPrefix(s[1..]) != "" then
      var run := SuffixPrefix(s[1..]);
      (Some(run), s[1..][|run|..])
    else
      (None, s)
  }

  /** The match of the pattern against a whole text. */
  function Match(s: string): Option<Parts>
  {
    var major := DigitPrefix(s);
    var (minor, afterMinor) := ReadDotted(s[|major|..]);
    var (patch, afterPatch) := ReadDotted(afterMinor);
    var (preRelease, afterPre) := ReadSuffix(afterPatch, '-');
    var (build, end) := ReadSuffix(afterPre, '+');
    if major != "" && end == "" then Some(Parts(major, minor, patch, preRelease, build)) else None
  }

  lemma {:induction false} SuffixPrefixOf(run: string, rest: string)
    requires AllSuffixChars(run) && (rest == [] || !IsSuffixChar(rest[0]))
    ensures SuffixPrefix(run + rest) == run
  {
    if run == [] {
      assert run + rest == rest;
    } else {
      assert (run + rest)[1..] == run[1..] + rest;
      SuffixPrefixOf(run[1..], rest);
    }
  }

  lemma ReadDottedOf(part: Option<string>, rest: string)
    requires part.Some? ==> IsNumber(part.value)
    requires rest == "" || !IsDigit(rest[0])
    requires part.None? ==> rest == "" || rest[0] != '.'
    ensures ReadDotted(Marked('.', part, rest)) == (part, rest)
  {
    if part.Some? {
      var s := ['.'] + (part.value + rest);
      assert s[1..] == part.value + rest;
      DigitPrefixOf(part.value, rest);
      assert (part.value + rest)[|part.value|..] == rest;
    }
  }

  lemma ReadSuffixOf(part: Option<string>, rest: string, mark: char)
    requires part.Some? ==> IsSuffix(part.value)
    requires rest == "" || !IsSuffixChar(rest[0])
    requires part.None? ==> rest == "" || rest[0] != mark
    ensures ReadSuffix(Marked(mark, part, rest), mark) == (part, rest)
  {
    if part.Some? {
      var s := [mark] + (part.value + rest);
      assert s[1..] == part.value + rest;
      SuffixPrefixOf(part.value, rest);
      assert (part.value + rest)[|part.value|..] == rest;
    }
  }

  lemma ReadDottedText(s: string)
    ensures var (part, rest) := ReadDotted(s);
            Marked('.', part, rest) == s && (part.Some? ==> IsNumber(part.value))
            && (part.None? ==> ReadDotted(rest).0.None?)
  {
  }

  lemma ReadSuffixText(s: string, mark: char)
    ensures var (part, rest) := ReadSuffix(s, mark);
            Marked(mark, part, rest) == s && (part.Some? ==> IsSuffix(part.value))
  {
  }

  /** Every text the pattern describes is matched, with the captures it was described by. */
  lemma MatchComplete(parts: Parts)
    requires WellFormed(parts)
    ensures Match(TextOf(parts)) == Some(parts)
  {
    var build := Marked('+', parts.build, "");
    var suffix := Marked('-', parts.preRelease, build);
    var patch := Marked('.', parts.patch, suffix);
    var minor := Marked('.', parts.minor, patch);
    DigitPrefixOf(parts.major, minor);
    assert (parts.major + minor)[|parts.major|..] == minor;
    ReadDottedOf(parts.minor, patch);
    ReadDottedOf(parts.patch, suffix);
    ReadSuffixOf(parts.preRelease, build, '-');
    ReadSuffixOf(parts.build, "", '+');
  }

  /** Whatever is matched is described by the captures. */
  lemma MatchSound(s: string)
    requires Match(s).Some?
    ensures WellFormed(Match(s).value) && TextOf(Match(s).value) == s
  {
    var major := DigitPrefix(s);
    ReadDottedText(s[|major|..]);
    var (minor, afterMinor) := ReadDotted(s[|major|..]);
    ReadDottedText(afterMinor);
    var (patch, afterPatch) := ReadDotted(afterMinor);
    ReadSuffixText(afterPatch, '-');
    var (preRelease, afterPre) := ReadSuffix(afterPatch, '-');
    ReadSuffixText(afterPre, '+');
    assert major + s[|major|..] == s;
  }

  /** The pattern is unambiguous. */
  lemma CapturesUnique(a: Parts, b: Parts)
    requires WellFormed(a) && WellFormed(b) && TextOf(a) == TextOf(b)
    ensures a == b
  {
    MatchComplete(a);
    MatchComplete(b);
  }

  // ----- reading and printing -----------------------------------------------

  function NumberOr0(part: Option<string>): nat
    requires part.Some? ==> IsNumber(part.value)
  {
    if part.Some? then ValueOf(part.value) else 0
  }

  function VersionOf(parts: Parts): VersionInfo
    requires WellFormed(parts)
  {
    VersionInfo(ValueOf(parts.major), NumberOr0(parts.minor), NumberOr0(parts.patch), parts.preRelease, parts.build)
  }

  function ParseVersion(value: Option<string>): (v: Option<VersionInfo>)
    ensures v.Some? ==> value.Some? && Printable(v.value)
  {
    if value.None? || Text.Trim(value.value) == "" then None
    else
      var parts := Match(Text.Trim(value.value));
      if parts.None? then None
      else
        MatchSound(Text.Trim(value.value));
        Some(VersionOf(parts.value))
  }

  /** A suffix that is printed: absent and empty ones are not. */
  function SuffixIfAny(mark: char, part: Option<string>): string
  {
    if part.Some? && part.value != "" then [mark] + part.value else ""
  }

  function FormatVersion(v: VersionInfo): string
  {
    Digits(v.major) + ['.'] + Digits(v.minor) + ['.'] + Digits(v.patch)
    + SuffixIfAny('-', v.preRelease) + SuffixIfAny('+', v.build)
  }

  /** Suffixes are absent or made of the characters the pattern allows. */
  predicate Printable(v: VersionInfo)
  {
    && (v.preRelease.Some? ==> IsSuffix(v.preRelease.value))
    && (v.build.Some? ==> IsSuffix(v.build.value))
  }

  function PrintedParts(v: VersionInfo): Parts
  {
    Parts(Digits(v.major), Some(Digits(v.minor)), Some(Digits(v.patch)), v.preRelease, v.build)
  }

  lemma FormatText(v: VersionInfo)
    requires Printable(v)
    ensures FormatVersion(v) == TextOf(PrintedParts(v))
  {
    var suffix := SuffixText(v.preRelease, v.build);
    assert suffix == SuffixIfAny('-', v.preRelease) + SuffixIfAny('+', v.build);
    Reassociate(Digits(v.major), Digits(v.minor), Digits(v.patch), SuffixIfAny('-', v.preRelease),
      SuffixIfAny('+', v.build));
  }

  lemma Reassociate(a: string, b: string, c: string, d: string, e: string)
    ensures a + ['.'] + b + ['.'] + c + d + e == a + (['.'] + (b + (['.'] + (c + (d + e)))))
  {
  }

  lemma NothingToTrim(v: VersionInfo)
    requires Printable(v)
    ensures FormatVersion(v) != "" && Text.Trim(FormatVersion(v)) == FormatVersion(v)
  {
    var s := FormatVersion(v);
    assert s[0] == Digits(v.major)[0];
    var last := s[|s| - 1];
    assert IsSuffixChar(last);
    Text.TrimTrimmed(s);
  }

  /** A printed version reads back exactly when its suffixes are absent or in the alphabet of the pattern. */
  lemma RoundTripIff(v: VersionInfo)
    ensures ParseVersion(Some(FormatVersion(v))) == Some(v) <==> Printable(v)
  {
    if Printable(v) {
      NothingToTrim(v);
      FormatText(v);
      MatchComplete(PrintedParts(v));
      ValueOfDigits(v.major);
      ValueOfDigits(v.minor);
      ValueOfDigits(v.patch);
    }
  }

  /** What is accepted: the pattern's texts, with any white space around them. */
  lemma AcceptedIff(s: string)
    ensures ParseVersion(Some(s)).Some? <==> exists parts :: WellFormed(parts) && TextOf(parts) == Text.Trim(s)
    ensures forall parts :: WellFormed(parts) && TextOf(parts) == Text.Trim(s) ==>
              ParseVersion(Some(s)) == Some(VersionOf(parts))
  {
    if ParseVersion(Some(s)).Some? {
      MatchSound(Text.Trim(s));
    }
    forall parts | WellFormed(parts) && TextOf(parts) == Text.Trim(s)
      ensures ParseVersion(Some(s)) == Some(VersionOf(parts))
    {
      MatchComplete(parts);
    }
  }

  /** A number on its own is a version, with the missing parts 0. */
  lemma BareNumber(n: nat)
    ensures ParseVersion(Some(Digits(n))) == Some(VersionInfo(n, 0, 0, None, None))
    ensures ParseVersion(Some(Digits(n) + ".0.0")) == ParseVersion(Some(Digits(n)))
  {
    var bare, full := Parts(Digits(n), None, None, None, None), Parts(Digits(n), Some("0"), Some("0"), None, None);
    assert TextOf(bare) == Digits(n);
    assert TextOf(full) == Digits(n) + ".0.0";
    DigitsNotTrimmed(n);
    ReadsAs(Digits(n), bare);
    ReadsAs(Digits(n) + ".0.0", full);
    ValueOfDigits(n);
    ZeroIsZero();
  }

  /** Two numbers are major and minor. */
  lemma TwoNumbers(n: nat, m: nat)
    ensures ParseVersion(Some(Digits(n) + "." + Digits(m))) == Some(VersionInfo(n, m, 0, None, None))
  {
    var parts := Parts(Digits(n), Some(Digits(m)), None, None, None);
    var s := Digits(n) + "." + Digits(m);
    assert TextOf(parts) == s;
    assert s[0] == Digits(n)[0] && s[|s| - 1] == Digits(m)[|Digits(m)| - 1];
    Text.TrimTrimmed(s);
    ReadsAs(s, parts);
    ValueOfDigits(n);
    ValueOfDigits(m);
  }

  /** The characters of a suffix: letters, digits, dots and hyphens, and at least one. */
  lemma BuildIs(build: string)
    ensures ParseVersion(Some("1+" + build)) == Some(VersionInfo(1, 0, 0, None, Some(build))) <==>
            build != "" && forall c :: c in build ==>
              'a' <= c <= 'z' || 'A' <= c <= 'Z' || '0' <= c <= '9' || c == '.' || c == '-'
  {
    hide ParseVersion, IsSuffixChar;
    if AllSuffixChars(build) {
      assert forall c :: c in build ==> IsSuffixChar(c);
    } else {
      assert forall i :: 0 <= i < |build| ==> build[i] in build;
    }
    SuffixChars();
    if IsSuffix(build) {
      BuildReads(build);
    }
  }

  lemma SuffixChars()
    ensures forall c :: IsSuffixChar(c) <==>
              'a' <= c <= 'z' || 'A' <= c <= 'Z' || '0' <= c <= '9' || c == '.' || c == '-'
  {
  }

  lemma BuildReads(build: string)
    requires IsSuffix(build)
    ensures ParseVersion(Some("1+" + build)) == Some(VersionInfo(1, 0, 0, None, Some(build)))
  {
    var s, parts := "1+" + build, Parts("1", None, None, None, Some(build));
    assert s[|s| - 1] == build[|build| - 1] && IsSuffixChar(build[|build| - 1]);
    assert TextOf(parts) == s;
    assert Digits(1) == "1";
    ValueOfDigits(1);
    Text.TrimTrimmed(s);
    hide ParseVersion;
    ReadsAs(s, parts);
  }

  /** A suffix is printed exactly when it is there and not empty. */
  lemma EmptyIsNotPrinted(v: VersionInfo)
    ensures v.preRelease == Some("") ==> FormatVersion(v) == FormatVersion(v.(preRelease := None))
    ensures v.build == Some("") ==> FormatVersion(v) == FormatVersion(v.(build := None))
  {
  }

  lemma DigitsNotTrimmed(n: nat)
    ensures Text.Trim(Digits(n)) == Digits(n) && Text.Trim(Digits(n) + ".0.0") == Digits(n) + ".0.0"
  {
    Text.TrimTrimmed(Digits(n));
    var s := Digits(n) + ".0.0";
    assert s[0] == Digits(n)[0];
    Text.TrimTrimmed(s);
  }

  lemma ZeroIsZero()
    ensures IsNumber("0") && ValueOf("0") == 0
  {
    assert Digits(0) == "0";
    ValueOfDigits(0);
  }

  lemma ReadsAs(s: string, parts: Parts)
    requires WellFormed(parts) && TextOf(parts) == s && Text.Trim(s) == s
    ensures ParseVersion(Some(s)) == Some(VersionOf(parts))
  {
    AcceptedIff(s);
  }

  /** Printing what was read. */
  function Normalized(s: string): Option<string>
  {
    var v := ParseVersion(Some(s));
    if v.Some? then Some(FormatVersion(v.value)) else None
  }

  /** Printing what was read keeps the version, and doing it again changes nothing. */
  lemma NormalizedIdempotent(s: string)
    requires Normalized(s).Some?
    ensures ParseVersion(Normalized(s)) == ParseVersion(Some(s))
    ensures Normalized(Normalized(s).value) == Normalized(s)
  {
    RoundTripIff(ParseVersion(Some(s)).value);
  }

  // ----- comparing ----------------------------------------------------------

  /** The first difference that is not zero; an absent version is lowest. */
  function CompareVersions(a: Option<VersionInfo>, b: Option<VersionInfo>): int
  {
    if a.None? && b.None? then 0
    else if a.None? then -1
    else if b.None? then 1
    else if a.value.major != b.value.major then a.value.major - b.value.major
    else if a.value.minor != b.value.minor then a.value.minor - b.value.minor
    else a.value.patch - b.value.patch
  }

  predicate VersionAtLeast(actual: Option<VersionInfo>, minimum: VersionInfo)
  {
    actual.Some? &&
    (actual.value.major > minimum.major ||
     (actual.value.major == minimum.major &&
      (actual.value.minor > minimum.minor ||
       (actual.value.minor == minimum.minor && actual.value.patch >= minimum.patch))))
  }

  predicate SameNumbers(a: Option<VersionInfo>, b: Option<VersionInfo>)
  {
    if a.Some? && b.Some? then
      a.value.major == b.value.major && a.value.minor == b.value.minor && a.value.patch == b.value.patch
    else
      a.None? && b.None?
  }

  /** A total preorder, whose equivalence is equality of the three numbers, and which `versionAtLeast` agrees with. */
  lemma CompareIsTotalPreorder(a: Option<VersionInfo>, b: Option<VersionInfo>, c: Option<VersionInfo>)
    ensures CompareVersions(a, b) == 0 <==> SameNumbers(a, b)
    ensures CompareVersions(a, b) < 0 <==> CompareVersions(b, a) > 0
    ensures CompareVersions(a, b) <= 0 && CompareVersions(b, c) <= 0 ==> CompareVersions(a, c) <= 0
    ensures b.Some? ==> (VersionAtLeast(a, b.value) <==> CompareVersions(a, b) >= 0)
  {
  }
}
