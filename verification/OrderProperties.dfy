/** What a greedy order is worth: it is unique, complete exactly without cycles, and lexicographically least. */
module OrderProperties {
  import opened Ordering
  import opened Digraphs
  import opened WorkflowGraphs
  import opened TopologicalOrder

  ghost predicate EdgesWithin(ids: set<Id>, edges: Relation)
  {
    forall e :: e in edges ==> e.0 in ids && e.1 in ids
  }

  /** All nodes, once each, with every edge going forward. */
  ghost predicate IsTopological(ids: set<Id>, edges: Relation, order: seq<Id>)
  {
    Elements(order) == ids && Forward(edges, order)
  }

  /** Lexicographic order on sequences of ids. */
  ghost predicate ComesBefore(a: seq<Id>, b: seq<Id>)
  {
    exists k :: 0 <= k < |a| && k < |b| && a[..k] == b[..k] && Less(a[k], b[k])
  }

  lemma {:induction false} GreedyAt(ids: set<Id>, edges: Relation, order: seq<Id>, k: nat)
    requires Greedy(ids, edges, order) && k < |order|
    ensures LeastAvailable(ids, edges, Elements(order[..k]), order[k])
  {
    var last := |order| - 1;
    if k < last {
      assert order[..last][..k] == order[..k];
      GreedyAt(ids, edges, order[..last], k);
    }
  }

  lemma {:induction false} GreedyDistinct(ids: set<Id>, edges: Relation, order: seq<Id>)
    requires Greedy(ids, edges, order)
    ensures NoDuplicates(order) && Elements(order) <= ids
  {
    if order != [] {
      var last := |order| - 1;
      GreedyDistinct(ids, edges, order[..last]);
      assert order[last] !in Elements(order[..last]) && order[last] in ids;
      ElementsAppend(order[..last], order[last]);
      assert order == order[..last] + [order[last]];
    }
  }

  // ----- determinism --------------------------------------------------------

  lemma LeastAvailableUnique(ids: set<Id>, edges: Relation, done: set<Id>, v: Id, w: Id)
    requires LeastAvailable(ids, edges, done, v) && LeastAvailable(ids, edges, done, w)
    ensures v == w
  {
    if v != w {
      LessTotal(v, w);
    }
  }

  lemma {:induction false} GreedyPrefix(ids: set<Id>, edges: Relation, a: seq<Id>, b: seq<Id>, k: nat)
    requires Greedy(ids, edges, a) && Greedy(ids, edges, b) && k <= |a| && k <= |b|
    ensures a[..k] == b[..k]
  {
    if k > 0 {
      GreedyPrefix(ids, edges, a, b, k - 1);
      GreedyAt(ids, edges, a, k - 1);
      GreedyAt(ids, edges, b, k - 1);
      LeastAvailableUnique(ids, edges, Elements(a[..k - 1]), a[k - 1], b[k - 1]);
      assert a[..k] == a[..k - 1] + [a[k - 1]] && b[..k] == b[..k - 1] + [b[k - 1]];
    }
  }

  lemma GreedyNotLonger(ids: set<Id>, edges: Relation, a: seq<Id>, b: seq<Id>)
    requires IsGreedyOrder(ids, edges, a) && Greedy(ids, edges, b)
    ensures |b| <= |a|
  {
    if |a| < |b| {
      GreedyPrefix(ids, edges, a, b, |a|);
      assert a == a[..|a|];
      GreedyAt(ids, edges, b, |a|);
    }
  }

  lemma GreedyOrderUnique(ids: set<Id>, edges: Relation, a: seq<Id>, b: seq<Id>)
    requires IsGreedyOrder(ids, edges, a) && IsGreedyOrder(ids, edges, b)
    ensures a == b
  {
    GreedyNotLonger(ids, edges, a, b);
    GreedyNotLonger(ids, edges, b, a);
    GreedyPrefix(ids, edges, a, b, |a|);
    assert a == a[..|a|] && b == b[..|b|];
  }

  ghost function JoinedPairs(graph: WorkflowGraph): Relation
  {
    set e | e in graph.edges && e.from != e.to :: (e.from, e.to)
  }

  /**
   * The result depends only on which ids there are and which different ids are joined: not on the order of the
   * nodes or edges, not on repeated edges or ids, not on self loops, and not on labels or edge ids.
   */
  lemma OrderDependsOnlyOnJoins(g: WorkflowGraph, h: WorkflowGraph, a: seq<Id>, b: seq<Id>)
    requires NodeIds(g) == NodeIds(h) && JoinedPairs(g) == JoinedPairs(h)
    requires IsGreedyOrder(NodeIds(g), ProperEdges(g), a) && IsGreedyOrder(NodeIds(h), ProperEdges(h), b)
    ensures a == b
  {
    ProperEdgesFromJoins(g);
    ProperEdgesFromJoins(h);
    GreedyOrderUnique(NodeIds(g), ProperEdges(g), a, b);
  }

  lemma ProperEdgesFromJoins(g: WorkflowGraph)
    ensures ProperEdges(g) == set p | p in JoinedPairs(g) && p.0 in NodeIds(g) && p.1 in NodeIds(g)
  {
    forall p | p in JoinedPairs(g) && p.0 in NodeIds(g) && p.1 in NodeIds(g) ensures p in ProperEdges(g) {
      var e :| e in g.edges && e.from != e.to && p == (e.from, e.to);
      assert IsProper(NodeIds(g), e);
    }
  }

  // ----- edges go forward ---------------------------------------------------

  lemma PredecessorsEarlier(ids: set<Id>, edges: Relation, order: seq<Id>, p: Id, v: Id)
    requires Greedy(ids, edges, order) && v in order && (p, v) in edges
    ensures p in order && IndexOf(order, p) < IndexOf(order, v)
  {
    var k := IndexOf(order, v);
    GreedyAt(ids, edges, order, k);
    GreedyDistinct(ids, edges, order);
    assert p in Elements(order[..k]);
    var j :| 0 <= j < k && order[j] == p;
  }

  // ----- completeness -------------------------------------------------------

  lemma OmittedHavePredecessors(ids: set<Id>, edges: Relation, order: seq<Id>, x: Id)
    requires EdgesWithin(ids, edges) && IsGreedyOrder(ids, edges, order) && x in ids - Elements(order)
    ensures HasPredecessorIn(edges, ids - Elements(order), x)
  {
    assert !Available(ids, edges, Elements(order), x);
    var p :| (p, x) in edges && p !in Elements(order);
    assert p in ids - Elements(order);
  }

  lemma EmittedAncestors(ids: set<Id>, edges: Relation, order: seq<Id>, a: Id, v: Id)
    requires Greedy(ids, edges, order) && v in order && Reaches(edges, a, v)
    ensures a in order
  {
    forall e | e in Reverse(edges) && e.0 in Elements(order) ensures e.1 in Elements(order) {
      PredecessorsEarlier(ids, edges, order, e.1, e.0);
    }
    ReverseReaches(edges, a, v);
    ClosedUnderReaches(Reverse(edges), Elements(order), v, a);
  }

  lemma {:induction false} WalkInOrder(ids: set<Id>, edges: Relation, order: seq<Id>, walk: seq<Id>)
    requires Greedy(ids, edges, order) && IsWalk(edges, walk) && |walk| >= 2 && walk[|walk| - 1] in order
    ensures walk[0] in order && IndexOf(order, walk[0]) < IndexOf(order, walk[|walk| - 1])
  {
    var last := |walk| - 1;
    PredecessorsEarlier(ids, edges, order, walk[last - 1], walk[last]);
    if last > 1 {
      ShorterWalk(edges, walk);
      WalkInOrder(ids, edges, order, walk[..last]);
    }
  }

  /** The nodes left out are exactly those on a cycle or below one. */
  lemma OmittedExactlyBelowCycles(ids: set<Id>, edges: Relation, order: seq<Id>, v: Id)
    requires EdgesWithin(ids, edges) && IsGreedyOrder(ids, edges, order) && v in ids
    ensures v !in order <==> exists cycle :: IsCycle(edges, cycle) && Reaches(edges, cycle[0], v)
  {
    if v !in order {
      var omitted := ids - Elements(order);
      forall x | x in omitted ensures HasPredecessorIn(edges, omitted, x) {
        OmittedHavePredecessors(ids, edges, order, x);
      }
      var cycle := DescendsFromCycle(edges, omitted, v);
    } else if cycle :| IsCycle(edges, cycle) && Reaches(edges, cycle[0], v) {
      EmittedAncestors(ids, edges, order, cycle[0], v);
      WalkInOrder(ids, edges, order, cycle);
    }
  }

  /** All nodes are emitted exactly when there is no cycle. */
  lemma CompleteIffAcyclic(ids: set<Id>, edges: Relation, order: seq<Id>)
    requires EdgesWithin(ids, edges) && IsGreedyOrder(ids, edges, order)
    ensures Elements(order) == ids <==> Acyclic(edges)
  {
    GreedyDistinct(ids, edges, order);
    if Acyclic(edges) {
      forall v | v in ids ensures v in order {
        OmittedExactlyBelowCycles(ids, edges, order, v);
      }
    }
    if Elements(order) == ids {
      forall cycle ensures !IsCycle(edges, cycle) {
        if IsCycle(edges, cycle) {
          assert (cycle[0], cycle[1]) in edges;
          ReachesSelf(edges, cycle[0]);
          assert cycle[0] in Elements(order);
          OmittedExactlyBelowCycles(ids, edges, order, cycle[0]);
        }
      }
    }
  }

  lemma AcyclicOrderIsTopological(ids: set<Id>, edges: Relation, order: seq<Id>)
    requires EdgesWithin(ids, edges) && IsGreedyOrder(ids, edges, order) && Acyclic(edges)
    ensures IsTopological(ids, edges, order)
  {
    CompleteIffAcyclic(ids, edges, order);
    GreedyDistinct(ids, edges, order);
    forall e | e in edges
      ensures e.0 in order && e.1 in order && IndexOf(order, e.0) < IndexOf(order, e.1)
    {
      assert e.1 in Elements(order);
      PredecessorsEarlier(ids, edges, order, e.0, e.1);
    }
  }

  // ----- minimality ---------------------------------------------------------

  lemma TopologicalAvailable(ids: set<Id>, edges: Relation, t: seq<Id>, k: nat)
    requires IsTopological(ids, edges, t) && k < |t|
    ensures Available(ids, edges, Elements(t[..k]), t[k])
  {
    assert t[k] in Elements(t);
    forall p | (p, t[k]) in edges ensures p in Elements(t[..k]) {
      assert t[..k][IndexOf(t, p)] == p;
    }
  }

  /** No topological order comes lexicographically before the greedy one. */
  lemma GreedyOrderIsLeast(ids: set<Id>, edges: Relation, order: seq<Id>, t: seq<Id>)
    requires EdgesWithin(ids, edges) && IsGreedyOrder(ids, edges, order) && IsTopological(ids, edges, t)
    ensures order == t || ComesBefore(order, t)
  {
    ForwardAcyclic(edges, t);
    AcyclicOrderIsTopological(ids, edges, order);
    NoDuplicatesSize(order);
    NoDuplicatesSize(t);
    if order != t {
      var k := FirstDifference(order, t);
      GreedyAt(ids, edges, order, k);
      TopologicalAvailable(ids, edges, t, k);
      LessTotal(order[k], t[k]);
    }
  }

  lemma {:induction false} FirstDifference(a: seq<Id>, b: seq<Id>) returns (k: nat)
    requires |a| == |b| && a != b
    ensures k < |a| && a[..k] == b[..k] && a[k] != b[k]
  {
    var last := |a| - 1;
    assert a == a[..last] + [a[last]] && b == b[..last] + [b[last]];
    if a[..last] == b[..last] {
      k := last;
    } else {
      k := FirstDifference(a[..last], b[..last]);
      assert a[..last][..k] == a[..k] && b[..last][..k] == b[..k];
    }
  }

  lemma ProperEdgesWithin(graph: WorkflowGraph)
    ensures EdgesWithin(NodeIds(graph), ProperEdges(graph))
  {
  }
}
