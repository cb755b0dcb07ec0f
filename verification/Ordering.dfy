/** The order of `Array.prototype.sort` on strings: lexicographic, element by element. */
module Ordering {

  predicate Less(a: string, b: string)
  {
    b != [] && (a == [] || a[0] < b[0] || (a[0] == b[0] && Less(a[1..], b[1..])))
  }

  lemma {:induction false} LessIrreflexive(a: string)
    ensures !Less(a, a)
  {
    if a != [] {
      LessIrreflexive(a[1..]);
    }
  }

  lemma {:induction false} LessTransitive(a: string, b: string, c: string)
    requires Less(a, b) && Less(b, c)
    ensures Less(a, c)
  {
    if a != [] && a[0] == b[0] && b[0] == c[0] {
      LessTransitive(a[1..], b[1..], c[1..]);
    }
  }

  lemma {:induction false} LessTotal(a: string, b: string)
    requires a != b
    ensures Less(a, b) || Less(b, a)
  {
    if a != [] && b != [] && a[0] == b[0] {
      assert a == [a[0]] + a[1..] && b == [b[0]] + b[1..];
      LessTotal(a[1..], b[1..]);
    }
  }

  lemma LessAsymmetric(a: string, b: string)
    requires Less(a, b)
    ensures !Less(b, a)
  {
    if Less(b, a) {
      LessTransitive(a, b, a);
      LessIrreflexive(a);
    }
  }

  /** Up to `k` the same, and there the first text is at its end or has the smaller character. */
  ghost predicate LessAt(a: string, b: string, k: nat)
  {
    k <= |a| && k < |b| && a[..k] == b[..k] && (k == |a| || a[k] < b[k])
  }

  /** The order is decided by the characters at the first place where the texts differ. */
  lemma {:induction false} LessExactly(a: string, b: string)
    ensures Less(a, b) <==> exists k: nat :: LessAt(a, b, k)
  {
    if a != [] && b != [] && a[0] == b[0] {
      LessExactly(a[1..], b[1..]);
      forall k: nat ensures LessAt(a[1..], b[1..], k) <==> LessAt(a, b, k + 1) {
        OneFurther(a, b, k);
      }
      assert !LessAt(a, b, 0);
      if Less(a, b) {
        var k: nat :| LessAt(a[1..], b[1..], k);
        assert LessAt(a, b, k + 1);
      }
      forall k: nat | LessAt(a, b, k) ensures Less(a, b) {
        assert LessAt(a[1..], b[1..], k - 1);
      }
    } else if Less(a, b) {
      assert LessAt(a, b, 0);
    } else {
      forall k: nat ensures !LessAt(a, b, k) {
        assert k > 0 && k <= |a| && k < |b| ==> a[..k][0] != b[..k][0];
      }
    }
  }

  lemma OneFurther(a: string, b: string, k: nat)
    requires a != [] && b != [] && a[0] == b[0]
    ensures LessAt(a[1..], b[1..], k) <==> LessAt(a, b, k + 1)
  {
    if k < |a| && k < |b| {
      assert a[..k + 1] == [a[0]] + a[1..][..k] && b[..k + 1] == [b[0]] + b[1..][..k];
      if a[..k + 1] == b[..k + 1] {
        assert a[..k + 1][1..] == b[..k + 1][1..];
      }
    }
  }

  ghost predicate NoDuplicates<T>(s: seq<T>)
  {
    forall i, j :: 0 <= i < j < |s| ==> s[i] != s[j]
  }

  ghost predicate Sorted(s: seq<string>)
  {
    forall i, j :: 0 <= i < j < |s| ==> !Less(s[j], s[i])
  }

  function Insert(x: string, s: seq<string>): (r: seq<string>)
    ensures multiset(r) == multiset(s) + multiset{x}
  {
    if s == [] then [x]
    else if Less(s[0], x) then
      var r := [s[0]] + Insert(x, s[1..]);
      assert s == [s[0]] + s[1..];
      r
    else [x] + s
  }

  /** `s.sort()`. */
  function Sort(s: seq<string>): (r: seq<string>)
    ensures multiset(r) == multiset(s)
  {
    if s == [] then [] else
      assert s == [s[0]] + s[1..];
      Insert(s[0], Sort(s[1..]))
  }

  lemma {:induction false} InsertSorted(x: string, s: seq<string>)
    requires Sorted(s)
    ensures Sorted(Insert(x, s))
  {
    if s != [] {
      if Less(s[0], x) {
        var r := Insert(x, s[1..]);
        InsertSorted(x, s[1..]);
        forall j | 0 <= j < |r| ensures !Less(r[j], s[0]) {
          assert r[j] in multiset(r);
          if r[j] == x {
            LessAsymmetric(s[0], x);
          } else {
            assert r[j] in s[1..];
          }
        }
      } else {
        forall j | 0 <= j < |s| ensures !Less(s[j], x) {
          if Less(s[j], x) && j > 0 {
            if s[0] == x {
            } else {
              LessTotal(s[0], x);
              LessTransitive(s[j], x, s[0]);
            }
          }
        }
      }
    }
  }

  lemma {:induction false} SortSorted(s: seq<string>)
    ensures Sorted(Sort(s))
  {
    if s != [] {
      SortSorted(s[1..]);
      InsertSorted(s[0], Sort(s[1..]));
    }
  }

  lemma SortSameElements(s: seq<string>)
    ensures forall x :: x in Sort(s) <==> x in s
  {
    forall x ensures x in Sort(s) <==> x in s {
      assert x in Sort(s) <==> x in multiset(Sort(s));
      assert x in s <==> x in multiset(s);
    }
  }

  lemma NoDuplicatesMultiset<T>(s: seq<T>)
    ensures NoDuplicates(s) <==> forall x :: multiset(s)[x] <= 1
  {
    if NoDuplicates(s) {
      if |s| > 0 {
        var k := |s| - 1;
        assert s == s[..k] + [s[k]];
        NoDuplicatesMultiset(s[..k]);
        assert s[k] !in multiset(s[..k]);
      }
    } else {
      var i, j :| 0 <= i < j < |s| && s[i] == s[j];
      assert s == s[..i] + [s[i]] + s[i + 1..j] + [s[j]] + s[j + 1..];
      assert multiset(s)[s[i]] >= 2;
    }
  }

  lemma SortNoDuplicates(s: seq<string>)
    requires NoDuplicates(s)
    ensures NoDuplicates(Sort(s))
  {
    NoDuplicatesMultiset(s);
    NoDuplicatesMultiset(Sort(s));
  }

  /** A sorted sequence is determined by its elements, so sorting does not depend on the order given. */
  lemma {:induction false} SortedUnique(a: seq<string>, b: seq<string>)
    requires Sorted(a) && Sorted(b)
    requires multiset(a) == multiset(b)
    ensures a == b
  {
    if a == [] {
      assert |multiset(b)| == 0;
    } else {
      assert a[0] in multiset(b) && |multiset(b)| > 0;
      assert b[0] in multiset(a);
      if a[0] != b[0] {
        LessTotal(a[0], b[0]);
      }
      assert a == [a[0]] + a[1..] && b == [b[0]] + b[1..];
      assert multiset(a[1..]) == multiset(a) - multiset{a[0]};
      assert multiset(b[1..]) == multiset(b) - multiset{b[0]};
      SortedUnique(a[1..], b[1..]);
    }
  }
}
