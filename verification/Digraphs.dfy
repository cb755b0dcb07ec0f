/** Finite directed graphs: walks, cycles, reachability, and the counting argument that finds a cycle. */
module Digraphs {
  import opened Ordering

  type Id = string
  type Relation = set<(Id, Id)>

  ghost predicate IsWalk(edges: Relation, walk: seq<Id>)
  {
    walk != [] && forall i, j :: 0 <= i && j == i + 1 && j < |walk| ==> (walk[i], walk[j]) in edges
  }

  /** A closed walk along at least one edge. */
  ghost predicate IsCycle(edges: Relation, walk: seq<Id>)
  {
    |walk| >= 2 && IsWalk(edges, walk) && walk[0] == walk[|walk| - 1]
  }

  ghost predicate Acyclic(edges: Relation)
  {
    forall walk :: !IsCycle(edges, walk)
  }

  ghost predicate WalkFromTo(edges: Relation, walk: seq<Id>, a: Id, b: Id)
  {
    IsWalk(edges, walk) && walk[0] == a && walk[|walk| - 1] == b
  }

  ghost predicate Reaches(edges: Relation, a: Id, b: Id)
  {
    exists walk :: WalkFromTo(edges, walk, a, b)
  }

  function Reverse(edges: Relation): Relation
  {
    set e | e in edges :: (e.1, e.0)
  }

  function ReverseSeq<T>(s: seq<T>): (r: seq<T>)
    ensures |r| == |s| && forall i :: 0 <= i < |s| ==> r[i] == s[|s| - 1 - i]
  {
    seq(|s|, i requires 0 <= i < |s| => s[|s| - 1 - i])
  }

  lemma SliceWalk(edges: Relation, walk: seq<Id>, i: nat, j: nat)
    requires IsWalk(edges, walk) && i < j <= |walk|
    ensures IsWalk(edges, walk[i..j])
  {
    var part := walk[i..j];
    forall k | 0 <= k < |part| - 1 ensures (part[k], part[k + 1]) in edges {
      assert (walk[i + k], walk[i + k + 1]) in edges;
    }
  }

  lemma ShorterWalk(edges: Relation, walk: seq<Id>)
    requires IsWalk(edges, walk) && |walk| > 1
    ensures IsWalk(edges, walk[..|walk| - 1])
  {
  }

  lemma ReachesSelf(edges: Relation, a: Id)
    ensures Reaches(edges, a, a)
  {
    assert WalkFromTo(edges, [a], a, a);
  }

  lemma ReachesStep(edges: Relation, a: Id, b: Id, c: Id)
    requires Reaches(edges, a, b) && (b, c) in edges
    ensures Reaches(edges, a, c)
  {
    var walk :| WalkFromTo(edges, walk, a, b);
    assert WalkFromTo(edges, walk + [c], a, c);
  }

  lemma JoinWalks(edges: Relation, v: seq<Id>, w: seq<Id>, a: Id, b: Id, c: Id)
    requires WalkFromTo(edges, v, a, b) && WalkFromTo(edges, w, b, c)
    ensures WalkFromTo(edges, v + w[1..], a, c) && b in v + w[1..]
  {
    assert v[|v| - 1] in v;
  }

  lemma ReachesTransitive(edges: Relation, a: Id, b: Id, c: Id)
    requires Reaches(edges, a, b) && Reaches(edges, b, c)
    ensures Reaches(edges, a, c)
  {
    var v :| WalkFromTo(edges, v, a, b);
    var w :| WalkFromTo(edges, w, b, c);
    JoinWalks(edges, v, w, a, b, c);
  }

  lemma ReverseWalk(edges: Relation, walk: seq<Id>)
    requires IsWalk(edges, walk)
    ensures IsWalk(Reverse(edges), ReverseSeq(walk))
  {
    var r := ReverseSeq(walk);
    forall i | 0 <= i < |r| - 1 ensures (r[i], r[i + 1]) in Reverse(edges) {
      var j := |walk| - 2 - i;
      assert (walk[j], walk[j + 1]) in edges;
    }
  }

  lemma ReverseReverse(edges: Relation)
    ensures Reverse(Reverse(edges)) == edges
  {
    forall e | e in edges ensures e in Reverse(Reverse(edges)) {
      assert (e.1, e.0) in Reverse(edges);
    }
  }

  lemma ReverseReaches(edges: Relation, a: Id, b: Id)
    ensures Reaches(edges, a, b) <==> Reaches(Reverse(edges), b, a)
  {
    ReverseReverse(edges);
    if walk :| WalkFromTo(edges, walk, a, b) {
      ReverseWalk(edges, walk);
      assert WalkFromTo(Reverse(edges), ReverseSeq(walk), b, a);
    }
    if walk :| WalkFromTo(Reverse(edges), walk, b, a) {
      ReverseWalk(Reverse(edges), walk);
      assert WalkFromTo(edges, ReverseSeq(walk), a, b);
    }
  }

  lemma ReverseAcyclic(edges: Relation)
    ensures Acyclic(edges) <==> Acyclic(Reverse(edges))
  {
    ReverseReverse(edges);
    if walk :| IsCycle(edges, walk) {
      ReverseWalk(edges, walk);
      assert IsCycle(Reverse(edges), ReverseSeq(walk));
    }
    if walk :| IsCycle(Reverse(edges), walk) {
      ReverseWalk(Reverse(edges), walk);
      assert IsCycle(edges, ReverseSeq(walk));
    }
  }

  /** A set that the relation does not leave contains everything reachable from its members. */
  lemma {:induction false} ClosedUnderWalk(edges: Relation, closed: set<Id>, walk: seq<Id>)
    requires forall e :: e in edges && e.0 in closed ==> e.1 in closed
    requires IsWalk(edges, walk) && walk[0] in closed
    ensures walk[|walk| - 1] in closed
  {
    if |walk| > 1 {
      assert (walk[0], walk[1]) in edges;
      SliceWalk(edges, walk, 1, |walk|);
      ClosedUnderWalk(edges, closed, walk[1..]);
    }
  }

  lemma ClosedUnderReaches(edges: Relation, closed: set<Id>, a: Id, b: Id)
    requires forall e :: e in edges && e.0 in closed ==> e.1 in closed
    requires a in closed && Reaches(edges, a, b)
    ensures b in closed
  {
    var walk :| WalkFromTo(edges, walk, a, b);
    ClosedUnderWalk(edges, closed, walk);
  }

  // ----- orders -------------------------------------------------------------

  /** The position of the first occurrence: `s.indexOf(x)` for an element that is present. */
  function IndexOf<T(==)>(s: seq<T>, x: T): (i: nat)
    requires x in s
    ensures i < |s| && s[i] == x && x !in s[..i]
  {
    if s[0] == x then 0 else
      assert s == [s[0]] + s[1..];
      1 + IndexOf(s[1..], x)
  }

  lemma ReversedIndex(order: seq<Id>, x: Id)
    requires NoDuplicates(order) && x in order
    ensures x in ReverseSeq(order) && IndexOf(ReverseSeq(order), x) == |order| - 1 - IndexOf(order, x)
  {
    var backwards := ReverseSeq(order);
    assert backwards[|order| - 1 - IndexOf(order, x)] == x;
    assert order[|order| - 1 - IndexOf(backwards, x)] == x;
  }

  /** Every edge joins two members of `order`, the source strictly before the target. */
  ghost predicate Forward(edges: Relation, order: seq<Id>)
  {
    && NoDuplicates(order)
    && forall e :: e in edges ==> e.0 in order && e.1 in order && IndexOf(order, e.0) < IndexOf(order, e.1)
  }

  lemma {:induction false} ForwardWalk(edges: Relation, order: seq<Id>, walk: seq<Id>)
    requires Forward(edges, order) && IsWalk(edges, walk) && |walk| >= 2
    ensures walk[0] in order && walk[|walk| - 1] in order
    ensures IndexOf(order, walk[0]) < IndexOf(order, walk[|walk| - 1])
  {
    assert (walk[0], walk[1]) in edges;
    if |walk| > 2 {
      SliceWalk(edges, walk, 1, |walk|);
      ForwardWalk(edges, order, walk[1..]);
    }
  }

  lemma ForwardAcyclic(edges: Relation, order: seq<Id>)
    requires Forward(edges, order)
    ensures Acyclic(edges)
  {
    forall walk ensures !IsCycle(edges, walk) {
      if IsCycle(edges, walk) {
        ForwardWalk(edges, order, walk);
      }
    }
  }

  // ----- counting -----------------------------------------------------------

  ghost function Elements<T>(s: seq<T>): set<T>
  {
    set x | x in s
  }

  lemma ElementsAppend<T>(s: seq<T>, x: T)
    ensures Elements(s + [x]) == Elements(s) + {x}
  {
  }

  lemma ElementsDropLast<T>(s: seq<T>)
    requires s != [] && NoDuplicates(s)
    ensures Elements(s[..|s| - 1]) == Elements(s) - {s[|s| - 1]}
  {
    ElementsAppend(s[..|s| - 1], s[|s| - 1]);
    assert s == s[..|s| - 1] + [s[|s| - 1]];
  }

  lemma {:induction false} NoDuplicatesSize<T>(s: seq<T>)
    requires NoDuplicates(s)
    ensures |Elements(s)| == |s|
  {
    if s != [] {
      var k := |s| - 1;
      NoDuplicatesSize(s[..k]);
      assert Elements(s) == Elements(s[..k]) + {s[k]};
      assert s[k] !in Elements(s[..k]);
    }
  }

  lemma SubsetSize<T>(a: set<T>, b: set<T>)
    requires a <= b
    ensures |a| <= |b|
  {
    assert b == a + (b - a);
  }

  /** More places than members: some member occurs twice. */
  lemma Pigeonhole<T>(s: seq<T>, members: set<T>) returns (i: nat, j: nat)
    requires |s| > |members| && forall x :: x in s ==> x in members
    ensures i < j < |s| && s[i] == s[j]
  {
    if NoDuplicates(s) {
      NoDuplicatesSize(s);
      assert Elements(s) <= members;
      SubsetSize(Elements(s), members);
      assert false;
    }
    i, j :| 0 <= i < j < |s| && s[i] == s[j];
  }

  ghost predicate HasPredecessorIn(edges: Relation, inside: set<Id>, x: Id)
  {
    exists p :: p in inside && (p, x) in edges
  }

  /** Where every member has a predecessor inside, walks inside can be extended backwards for ever. */
  lemma {:induction false} LongWalk(edges: Relation, inside: set<Id>, v: Id, length: nat) returns (walk: seq<Id>)
    requires v in inside
    requires forall x :: x in inside ==> HasPredecessorIn(edges, inside, x)
    ensures |walk| == length + 1 && IsWalk(edges, walk) && walk[length] == v
    ensures forall x :: x in walk ==> x in inside
    decreases length
  {
    if length == 0 {
      walk := [v];
    } else {
      assert HasPredecessorIn(edges, inside, v);
      var p :| p in inside && (p, v) in edges;
      var shorter := LongWalk(edges, inside, p, length - 1);
      walk := shorter + [v];
    }
  }

  /** In a finite set where every member has a predecessor inside, every member descends from a cycle. */
  lemma DescendsFromCycle(edges: Relation, inside: set<Id>, v: Id) returns (cycle: seq<Id>)
    requires v in inside
    requires forall x :: x in inside ==> HasPredecessorIn(edges, inside, x)
    ensures IsCycle(edges, cycle) && Reaches(edges, cycle[0], v)
  {
    var walk := LongWalk(edges, inside, v, |inside|);
    var i, j := Pigeonhole(walk, inside);
    cycle := walk[i..j + 1];
    SliceWalk(edges, walk, i, j + 1);
    SliceWalk(edges, walk, i, |walk|);
    assert WalkFromTo(edges, walk[i..], cycle[0], v);
  }

  /** Without cycles no nonempty finite set can have, for every member, a predecessor inside. */
  lemma NoSelfSustainingSet(edges: Relation, inside: set<Id>)
    requires Acyclic(edges)
    requires forall x :: x in inside ==> HasPredecessorIn(edges, inside, x)
    ensures inside == {}
  {
    if v :| v in inside {
      var cycle := DescendsFromCycle(edges, inside, v);
    }
  }
}
