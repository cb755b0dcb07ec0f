/** Kahn's algorithm as `topologicalOrder` of contracts/workflow-definitions.ts runs it. */
module TopologicalOrder {
  import opened Ordering
  import opened Digraphs
  import opened WorkflowGraphs

  /** A node that is not yet done although everything before it is. */
  ghost predicate Available(ids: set<Id>, edges: Relation, done: set<Id>, v: Id)
  {
    v in ids && v !in done && forall p :: (p, v) in edges ==> p in done
  }

  ghost predicate LeastAvailable(ids: set<Id>, edges: Relation, done: set<Id>, v: Id)
  {
    Available(ids, edges, done, v) && forall w :: Available(ids, edges, done, w) ==> !Less(w, v)
  }

  /** Every node was the least one available when its turn came. */
  ghost predicate Greedy(ids: set<Id>, edges: Relation, order: seq<Id>)
  {
    order == [] ||
    var last := |order| - 1;
    Greedy(ids, edges, order[..last]) && LeastAvailable(ids, edges, Elements(order[..last]), order[last])
  }

  ghost predicate Exhausted(ids: set<Id>, edges: Relation, done: set<Id>)
  {
    forall v :: !Available(ids, edges, done, v)
  }

  /** What `topologicalOrder` promises of its result: greedy, and only ending when nothing is available. */
  ghost predicate IsGreedyOrder(ids: set<Id>, edges: Relation, order: seq<Id>)
  {
    Greedy(ids, edges, order) && Exhausted(ids, edges, Elements(order))
  }

  lemma GreedyAppend(ids: set<Id>, edges: Relation, order: seq<Id>, id: Id)
    requires Greedy(ids, edges, order) && LeastAvailable(ids, edges, Elements(order), id)
    ensures Greedy(ids, edges, order + [id]) && Elements(order + [id]) == Elements(order) + {id}
    ensures ids - Elements(order + [id]) < ids - Elements(order)
  {
    assert (order + [id])[..|order|] == order;
    ElementsAppend(order, id);
    assert id in ids - Elements(order);
  }

  // ----- the counters -------------------------------------------------------

  type Pairs = seq<(Id, Id)>

  ghost function KeptPairs(ids: set<Id>, edges: seq<WorkflowEdge>): Pairs
  {
    if edges == [] then [] else
      var last := |edges| - 1;
      var rest := KeptPairs(ids, edges[..last]);
      if IsProper(ids, edges[last]) then rest + [(edges[last].from, edges[last].to)] else rest
  }

  /** How many of the pairs lead to `v` from a node outside `done`. */
  ghost function InDegree(pairs: Pairs, v: Id, done: set<Id>): nat
  {
    if pairs == [] then 0 else
      var last := |pairs| - 1;
      InDegree(pairs[..last], v, done) + (if pairs[last].1 == v && pairs[last].0 !in done then 1 else 0)
  }

  ghost function Targets(pairs: Pairs, u: Id): seq<Id>
  {
    if pairs == [] then [] else
      var last := |pairs| - 1;
      Targets(pairs[..last], u) + (if pairs[last].0 == u then [pairs[last].1] else [])
  }

  lemma {:induction false} KeptPairsMember(ids: set<Id>, edges: seq<WorkflowEdge>, p: (Id, Id))
    ensures p in KeptPairs(ids, edges) <==> exists e :: e in edges && IsProper(ids, e) && p == (e.from, e.to)
  {
    if edges != [] {
      var last := |edges| - 1;
      KeptPairsMember(ids, edges[..last], p);
      assert edges == edges[..last] + [edges[last]];
    }
  }

  lemma KeptPairsAreProperEdges(graph: WorkflowGraph)
    ensures Elements(KeptPairs(NodeIds(graph), graph.edges)) == ProperEdges(graph)
  {
    forall p ensures p in KeptPairs(NodeIds(graph), graph.edges) <==> p in ProperEdges(graph) {
      KeptPairsMember(NodeIds(graph), graph.edges, p);
    }
  }

  lemma AppendPair(pairs: Pairs, p: (Id, Id))
    ensures forall v, done :: InDegree(pairs + [p], v, done)
              == InDegree(pairs, v, done) + (if p.1 == v && p.0 !in done then 1 else 0)
    ensures forall u :: Targets(pairs + [p], u) == Targets(pairs, u) + (if p.0 == u then [p.1] else [])
  {
    assert (pairs + [p])[..|pairs|] == pairs;
  }

  lemma {:induction false} InDegreeZero(pairs: Pairs, v: Id, done: set<Id>)
    ensures InDegree(pairs, v, done) == 0 <==> forall p :: (p, v) in Elements(pairs) ==> p in done
  {
    if pairs != [] {
      var last := |pairs| - 1;
      InDegreeZero(pairs[..last], v, done);
      ElementsAppend(pairs[..last], pairs[last]);
      assert pairs == pairs[..last] + [pairs[last]];
    }
  }

  /** Finishing `u` takes away one from the in-degree of `v` for each time `v` is a target of `u`. */
  lemma {:induction false} InDegreeFinish(pairs: Pairs, u: Id, v: Id, done: set<Id>)
    requires u !in done
    ensures InDegree(pairs, v, done) == InDegree(pairs, v, done + {u}) + multiset(Targets(pairs, u))[v]
  {
    if pairs != [] {
      InDegreeFinish(pairs[..|pairs| - 1], u, v, done);
    }
  }

  lemma {:induction false} TargetsAreNodes(ids: set<Id>, edges: seq<WorkflowEdge>, u: Id)
    ensures forall v :: v in Targets(KeptPairs(ids, edges), u) ==> v in ids
  {
    if edges != [] {
      var last := |edges| - 1;
      TargetsAreNodes(ids, edges[..last], u);
      var rest := KeptPairs(ids, edges[..last]);
      if IsProper(ids, edges[last]) {
        assert (rest + [(edges[last].from, edges[last].to)])[..|rest|] == rest;
      }
    }
  }

  // ----- the algorithm ------------------------------------------------------

  ghost function Zeros(ids: set<Id>, indeg: map<Id, int>, done: set<Id>): set<Id>
    requires indeg.Keys == ids
  {
    set v | v in ids && v !in done && indeg[v] == 0
  }

  /** `indeg` counts the edges from unfinished nodes, plus those of `pending` not yet taken off. */
  ghost predicate Counts(ids: set<Id>, pairs: Pairs, done: set<Id>, pending: seq<Id>, indeg: map<Id, int>)
  {
    && indeg.Keys == ids
    && forall v :: v in ids ==> indeg[v] == InDegree(pairs, v, done) + multiset(pending)[v]
  }

  /** `ready` lists, in order and once each, the unfinished nodes whose count is zero. */
  ghost predicate IsReady(ids: set<Id>, indeg: map<Id, int>, done: set<Id>, ready: seq<Id>)
    requires indeg.Keys == ids
  {
    && Sorted(ready) && NoDuplicates(ready)
    && Elements(ready) == Zeros(ids, indeg, done)
    && forall v :: v in done && v in ids ==> indeg[v] == 0
  }

  function Lookup(out: map<Id, seq<Id>>, u: Id): seq<Id>
  {
    if u in out then out[u] else []
  }

  ghost predicate ListsTargets(pairs: Pairs, out: map<Id, seq<Id>>)
  {
    forall u :: Lookup(out, u) == Targets(pairs, u)
  }

  method CountEdge(ghost ids: set<Id>, ghost pairs: Pairs, indeg0: map<Id, int>, out0: map<Id, seq<Id>>, from: Id,
      to: Id)
    returns (indeg: map<Id, int>, out: map<Id, seq<Id>>)
    requires Counts(ids, pairs, {}, [], indeg0) && ListsTargets(pairs, out0) && to in ids
    ensures Counts(ids, pairs + [(from, to)], {}, [], indeg) && ListsTargets(pairs + [(from, to)], out)
  {
    AppendPair(pairs, (from, to));
    indeg := indeg0[to := indeg0[to] + 1];
    out := out0[from := Lookup(out0, from) + [to]];
  }

  lemma KeptPairsStep(ids: set<Id>, edges: seq<WorkflowEdge>, k: nat)
    requires k < |edges|
    ensures var kept := KeptPairs(ids, edges[..k]);
            KeptPairs(ids, edges[..k + 1])
            == if IsProper(ids, edges[k]) then kept + [(edges[k].from, edges[k].to)] else kept
  {
    assert edges[..k + 1][..k] == edges[..k];
  }

  /** The first loop: in-degrees and adjacency lists, skipping dangling edges and self loops. */
  method CountEdges(ids: set<Id>, edges: seq<WorkflowEdge>) returns (indeg: map<Id, int>, out: map<Id, seq<Id>>)
    ensures Counts(ids, KeptPairs(ids, edges), {}, [], indeg) && ListsTargets(KeptPairs(ids, edges), out)
  {
    indeg := map v | v in ids :: 0;
    out := map[];
    for k := 0 to |edges|
      invariant Counts(ids, KeptPairs(ids, edges[..k]), {}, [], indeg)
      invariant ListsTargets(KeptPairs(ids, edges[..k]), out)
    {
      KeptPairsStep(ids, edges, k);
      if IsProper(ids, edges[k]) {
        indeg, out := CountEdge(ids, KeptPairs(ids, edges[..k]), indeg, out, edges[k].from, edges[k].to);
      }
    }
    assert edges[..|edges|] == edges;
  }

  /** Adds a node whose count has just reached zero to the sorted ready list. */
  method PushReady(ghost ids: set<Id>, ghost indeg: map<Id, int>, ghost done: set<Id>, ready: seq<Id>, next: Id)
    returns (longer: seq<Id>)
    requires indeg.Keys == ids && next in ids && next !in done && indeg[next] == 1
    requires IsReady(ids, indeg, done, ready)
    ensures IsReady(ids, indeg[next := 0], done, longer)
  {
    longer := Sort(ready + [next]);
    SortSorted(ready + [next]);
    assert next !in Elements(ready);
    SortNoDuplicates(ready + [next]);
    SortSameElements(ready + [next]);
    ElementsAppend(ready, next);
    assert Elements(longer) == Elements(ready + [next]);
    assert Zeros(ids, indeg[next := 0], done) == Zeros(ids, indeg, done) + {next};
  }

  /** The inner loop: takes the edges of a finished node off the counts. */
  method Release(ghost ids: set<Id>, ghost pairs: Pairs, ghost done: set<Id>, nexts: seq<Id>, indeg0: map<Id, int>,
      ready0: seq<Id>)
    returns (indeg: map<Id, int>, ready: seq<Id>)
    requires Counts(ids, pairs, done, nexts, indeg0) && IsReady(ids, indeg0, done, ready0)
    requires forall v :: v in nexts ==> v in ids
    ensures Counts(ids, pairs, done, [], indeg) && IsReady(ids, indeg, done, ready)
  {
    indeg, ready := indeg0, ready0;
    for j := 0 to |nexts|
      invariant Counts(ids, pairs, done, nexts[j..], indeg) && IsReady(ids, indeg, done, ready)
    {
      var next := nexts[j];
      assert nexts[j..] == [next] + nexts[j + 1..];
      assert multiset(nexts[j..])[next] > 0;
      var d := indeg[next] - 1;
      if d == 0 {
        ready := PushReady(ids, indeg, done, ready, next);
      } else {
        assert Zeros(ids, indeg[next := d], done) == Zeros(ids, indeg, done);
      }
      indeg := indeg[next := d];
    }
    assert nexts[|nexts|..] == [];
  }

  lemma ReadyMeansAvailable(ids: set<Id>, pairs: Pairs, done: set<Id>, indeg: map<Id, int>, ready: seq<Id>)
    requires Counts(ids, pairs, done, [], indeg) && IsReady(ids, indeg, done, ready)
    ensures forall v :: v in ready <==> Available(ids, Elements(pairs), done, v)
  {
    forall v ensures v in ready <==> Available(ids, Elements(pairs), done, v) {
      InDegreeZero(pairs, v, done);
      assert v in ready <==> v in Elements(ready);
    }
  }

  /** The first ready node is the least available one, and moving it to the finished nodes readies the counts. */
  lemma FinishFirst(ids: set<Id>, pairs: Pairs, done: set<Id>, indeg: map<Id, int>, ready: seq<Id>)
    requires Counts(ids, pairs, done, [], indeg) && IsReady(ids, indeg, done, ready) && ready != []
    ensures LeastAvailable(ids, Elements(pairs), done, ready[0])
    ensures Counts(ids, pairs, done + {ready[0]}, Targets(pairs, ready[0]), indeg)
    ensures IsReady(ids, indeg, done + {ready[0]}, ready[1..])
  {
    var id := ready[0];
    ReadyMeansAvailable(ids, pairs, done, indeg, ready);
    assert id in Elements(ready);
    forall w | Available(ids, Elements(pairs), done, w) ensures !Less(w, id) {
      var k :| 0 <= k < |ready| && ready[k] == w;
      LessIrreflexive(id);
    }
    forall v | v in ids
      ensures indeg[v] == InDegree(pairs, v, done + {id}) + multiset(Targets(pairs, id))[v]
    {
      InDegreeFinish(pairs, id, v, done);
    }
    assert Elements(ready[1..]) == Elements(ready) - {id};
    assert Zeros(ids, indeg, done + {id}) == Zeros(ids, indeg, done) - {id};
  }

  method TopologicalOrder(graph: WorkflowGraph) returns (order: seq<Id>)
    ensures IsGreedyOrder(NodeIds(graph), ProperEdges(graph), order)
  {
    var ids := NodeIds(graph);
    ghost var pairs := KeptPairs(ids, graph.edges);
    KeptPairsAreProperEdges(graph);
    var indeg, out := CountEdges(ids, graph.edges);
    var ready := InitialReady(graph, indeg);
    order := [];
    assert Elements(order) == {};
    while ready != []
      invariant Greedy(ids, Elements(pairs), order)
      invariant Counts(ids, pairs, Elements(order), [], indeg)
      invariant IsReady(ids, indeg, Elements(order), ready)
      decreases ids - Elements(order)
    {
      var id := ready[0];
      FinishFirst(ids, pairs, Elements(order), indeg, ready);
      TargetsAreNodes(ids, graph.edges, id);
      GreedyAppend(ids, Elements(pairs), order, id);
      order := order + [id];
      indeg, ready := Release(ids, pairs, Elements(order), Lookup(out, id), indeg, ready[1..]);
    }
    ReadyMeansAvailable(ids, pairs, Elements(order), indeg, ready);
  }

  /** `[...indeg].filter(([, d]) => d === 0).map(([id]) => id).sort()` */
  method InitialReady(graph: WorkflowGraph, indeg: map<Id, int>) returns (ready: seq<Id>)
    requires indeg.Keys == NodeIds(graph)
    ensures IsReady(NodeIds(graph), indeg, {}, ready)
  {
    var zeros: seq<Id> := [];
    for k := 0 to |graph.nodes|
      invariant NoDuplicates(zeros)
      invariant forall v ::
                  v in zeros <==> v in indeg && indeg[v] == 0 && exists i :: 0 <= i < k && graph.nodes[i].id == v
    {
      var id := graph.nodes[k].id;
      assert id in NodeIds(graph);
      if indeg[id] == 0 && id !in zeros {
        zeros := zeros + [id];
      }
    }
    ready := Sort(zeros);
    SortSorted(zeros);
    SortNoDuplicates(zeros);
    SortSameElements(zeros);
    assert Elements(ready) == Zeros(NodeIds(graph), indeg, {});
  }
}
