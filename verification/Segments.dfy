/** Cutting a text at a separator character, and putting the pieces back together. */
module Segments {

  /** The position of the first `c`, or the length when there is none. */
  function Find(s: string, c: char): (i: nat)
    ensures i <= |s| && c !in s[..i] && (i < |s| ==> s[i] == c)
  {
    if s == [] || s[0] == c then 0 else
      var i := 1 + Find(s[1..], c);
      assert s[..i] == [s[0]] + s[1..][..i - 1];
      i
  }

  predicate Has(s: string, c: char)
  {
    Find(s, c) < |s|
  }

  /** The part before the first separator. */
  function First(s: string, c: char): (r: string)
    ensures c !in r
  {
    s[..Find(s, c)]
  }

  /** The part behind the first separator. */
  function After(s: string, c: char): string
    requires Has(s, c)
  {
    s[Find(s, c) + 1..]
  }

  /** `s.split(c)` */
  function Split(s: string, c: char): (segments: seq<string>)
    ensures segments != []
    decreases |s|
  {
    if Has(s, c) then [First(s, c)] + Split(After(s, c), c) else [s]
  }

  /** `segments.join(c)` */
  function Join(segments: seq<string>, c: char): string
  {
    if segments == [] then ""
    else if |segments| == 1 then segments[0]
    else segments[0] + [c] + Join(segments[1..], c)
  }

  lemma FindAt(s: string, c: char, i: nat)
    requires i <= |s| && c !in s[..i] && (i < |s| ==> s[i] == c)
    ensures Find(s, c) == i
  {
    var f := Find(s, c);
    assert forall k :: 0 <= k < i ==> s[..i][k] == s[k] && s[k] != c;
    assert forall k :: 0 <= k < f ==> s[..f][k] == s[k] && s[k] != c;
  }

  lemma FindNotBeyond(s: string, c: char, i: nat)
    requires i < |s| && s[i] == c
    ensures Find(s, c) <= i
  {
    var f := Find(s, c);
    assert forall k :: 0 <= k < f ==> s[..f][k] == s[k] && s[k] != c;
  }

  lemma FindAfter(a: string, b: string, c: char)
    requires c !in a
    ensures Find(a + [c] + b, c) == |a| && Find(a, c) == |a|
    ensures Has(a + [c] + b, c) && First(a + [c] + b, c) == a && After(a + [c] + b, c) == b
  {
    var s := a + [c] + b;
    assert s[..|a|] == a;
    FindAt(s, c, |a|);
    FindAt(a, c, |a|);
  }

  lemma HasIff(s: string, c: char)
    ensures Has(s, c) <==> c in s
  {
    if !Has(s, c) {
      assert s[..Find(s, c)] == s;
    }
  }

  lemma FirstAfter(s: string, c: char)
    requires Has(s, c)
    ensures s == First(s, c) + [c] + After(s, c)
  {
  }

  lemma {:induction false} SplitJoin(segments: seq<string>, c: char)
    requires segments != [] && forall seg :: seg in segments ==> c !in seg
    ensures Split(Join(segments, c), c) == segments
  {
    assert segments[0] in segments;
    if |segments| == 1 {
      HasIff(segments[0], c);
    } else {
      FindAfter(segments[0], Join(segments[1..], c), c);
      SplitJoin(segments[1..], c);
      assert segments == [segments[0]] + segments[1..];
    }
  }
}
