/** What a graph that `validateWorkflowGraph` calls valid is worth, and how its parts agree with each other. */
module ValidGraphs {
  import opened Wrappers
  import opened Digraphs
  import opened WorkflowGraphs
  import opened TopologicalOrder
  import opened OrderProperties
  import opened GraphValidation

  // ----- which edges are kept -----------------------------------------------

  function KeyOf(p: (Id, Id)): string
  {
    EdgeKey(p.0, p.1)
  }

  /** Two different connections that are remembered under the same string. */
  ghost predicate KeyCollision(edges: Relation)
  {
    exists p, q :: p in edges && q in edges && p != q && KeyOf(p) == KeyOf(q)
  }

  ghost function ProperPairs(ids: set<Id>, edges: seq<WorkflowEdge>): Relation
  {
    set e | e in edges && IsProper(ids, e) :: (e.from, e.to)
  }

  lemma ProperPairsStep(ids: set<Id>, edges: seq<WorkflowEdge>)
    requires edges != []
    ensures var last := |edges| - 1;
            ProperPairs(ids, edges) == ProperPairs(ids, edges[..last])
              + if IsProper(ids, edges[last]) then {(edges[last].from, edges[last].to)} else {}
  {
    var last := |edges| - 1;
    assert edges == edges[..last] + [edges[last]];
  }

  /** For every proper edge the one kept under its key is the first, and there is only one. */
  lemma {:induction false} KeptPerKey(ids: set<Id>, edges: seq<WorkflowEdge>)
    ensures KeptEdges(ids, edges) <= ProperPairs(ids, edges)
    ensures forall p :: p in ProperPairs(ids, edges) ==> KeyOf(p) in SeenKeys(ids, edges)
    ensures forall key :: key in SeenKeys(ids, edges) ==> exists p :: p in KeptEdges(ids, edges) && KeyOf(p) == key
    ensures forall p, q :: p in KeptEdges(ids, edges) && q in KeptEdges(ids, edges) && KeyOf(p) == KeyOf(q) ==> p == q
  {
    if edges != [] {
      var last := |edges| - 1;
      KeptPerKey(ids, edges[..last]);
      KeptStep(ids, edges, last);
      ProperPairsStep(ids, edges);
      assert edges[..last + 1] == edges;
    }
  }

  /** Nothing but repetitions is dropped exactly when no two different connections share a key. */
  lemma KeptAllIffNoCollision(graph: WorkflowGraph)
    ensures Kept(graph) == ProperEdges(graph) <==> !KeyCollision(ProperEdges(graph))
  {
    KeptPerKey(NodeIds(graph), graph.edges);
    assert ProperEdges(graph) == ProperPairs(NodeIds(graph), graph.edges);
    if !KeyCollision(ProperEdges(graph)) {
      forall p | p in ProperEdges(graph) ensures p in Kept(graph) {
        var q :| q in Kept(graph) && KeyOf(q) == KeyOf(p);
      }
    }
  }

  /** Ids without `>`, as every normalised graph has them, cannot collide. */
  lemma NoCollisionWithoutArrow(edges: Relation)
    requires forall e :: e in edges ==> '>' !in e.0 && '>' !in e.1
    ensures !KeyCollision(edges)
  {
    forall p, q | p in edges && q in edges && KeyOf(p) == KeyOf(q) ensures p == q {
      KeySplits(p.0, p.1, q.0, q.1);
    }
  }

  lemma KeySplits(a: Id, b: Id, c: Id, d: Id)
    requires '>' !in a && '>' !in b && '>' !in c && '>' !in d
    requires EdgeKey(a, b) == EdgeKey(c, d)
    ensures a == c && b == d
  {
    OnlyArrow(a, b);
    OnlyArrow(c, d);
    var key := EdgeKey(a, b);
    assert key[|a| + 1] == '>' && key[|c| + 1] == '>';
    assert a == key[..|a|] && c == key[..|a|];
    assert b == key[|a| + 2..] && d == key[|a| + 2..];
  }

  lemma OnlyArrow(a: Id, b: Id)
    requires '>' !in a && '>' !in b
    ensures forall i :: 0 <= i < |EdgeKey(a, b)| && EdgeKey(a, b)[i] == '>' ==> i == |a| + 1
  {
    var key := EdgeKey(a, b);
    assert forall i :: 0 <= i < |a| ==> key[i] == a[i];
    assert forall i :: |a| + 2 <= i < |key| ==> key[i] == b[i - |a| - 2];
  }

  /** Without the restriction on ids a real connection can be mistaken for a repetition. */
  lemma CollisionExample()
    ensures EdgeKey("a->b", "c") == EdgeKey("a", "b->c")
    ensures KeyCollision({("a->b", "c"), ("a", "b->c")})
  {
    var p, q := ("a->b", "c"), ("a", "b->c");
    assert KeyOf(p) == "a->b->c" && KeyOf(q) == "a->b->c";
    assert p.0 != q.0;
  }

  function PlainNode(id: Id, kind: NodeKind): WorkflowNode
  {
    WorkflowNode(id, kind, id, None, NodeConfig(None, None, None, None, [], []), Position(0, 0))
  }

  /** Two flows without a node in common. */
  function ArrowGraph(): WorkflowGraph
  {
    WorkflowGraph(
      [PlainNode("a->b", Trigger), PlainNode("c", Terminal), PlainNode("a", Trigger), PlainNode("b->c", Terminal)],
      [WorkflowEdge("e1", "a->b", "c"), WorkflowEdge("e2", "a", "b->c")])
  }

  lemma ArrowGraphEdges()
    ensures ProperEdges(ArrowGraph()) == {("a->b", "c"), ("a", "b->c")}
  {
    var graph := ArrowGraph();
    var a, b := graph.nodes[0], graph.nodes[1];
    var c, d := graph.nodes[2], graph.nodes[3];
    assert a in graph.nodes && b in graph.nodes && c in graph.nodes && d in graph.nodes;
    assert NodeIds(graph) == {"a->b", "c", "a", "b->c"};
    var e, f := graph.edges[0], graph.edges[1];
    assert e.from != e.to && f.from != f.to;
    assert graph.edges == [e, f];
    assert ProperEdges(graph) == {(e.from, e.to), (f.from, f.to)};
  }

  /** The validator loses a connection between two nodes of this graph. */
  lemma LostConnection()
    ensures Kept(ArrowGraph()) != ProperEdges(ArrowGraph())
  {
    ArrowGraphEdges();
    CollisionExample();
    KeptAllIffNoCollision(ArrowGraph());
  }

  /** The depth-first search behind CYCLE and Kahn's algorithm agree on what is cyclic. */
  lemma CycleReportAgreesWithOrder(graph: WorkflowGraph, order: seq<Id>)
    requires !KeyCollision(ProperEdges(graph))
    requires IsGreedyOrder(NodeIds(graph), ProperEdges(graph), order)
    ensures Acyclic(Kept(graph)) <==> Elements(order) == NodeIds(graph)
  {
    KeptAllIffNoCollision(graph);
    ProperEdgesWithin(graph);
    CompleteIffAcyclic(NodeIds(graph), ProperEdges(graph), order);
  }

  // ----- valid graphs -------------------------------------------------------

  /** What `valid` means by the validator's contract: nothing is reported. */
  ghost predicate Valid(graph: WorkflowGraph, ctx: Context)
  {
    (forall issue :: !Reported(graph, ctx, issue)) && Acyclic(Kept(graph))
  }

  /** The validator's verdict is this predicate. */
  method IsValid(graph: WorkflowGraph, ctx: Context) returns (valid: bool)
    ensures valid <==> Valid(graph, ctx)
  {
    var issues;
    valid, issues := ValidateWorkflowGraph(graph, ctx);
    forall issue | Reported(graph, ctx, issue) ensures issue in issues {
      ReportedCode(graph, ctx, issue);
    }
    if issues != [] {
      assert issues[0] in issues;
      if issues[0].code == Cycle {
        assert exists issue: Issue :: issue in issues && issue.code == Cycle;
      }
    }
  }

  lemma {:induction false} UnreportedEdgesKept(ids: set<Id>, edges: seq<WorkflowEdge>)
    requires forall issue :: !EdgeReported(ids, edges, issue)
    ensures forall e :: e in edges ==> IsProper(ids, e)
    ensures KeptEdges(ids, edges) == ProperPairs(ids, edges)
  {
    if edges != [] {
      var last := |edges| - 1;
      assert edges == edges[..last] + [edges[last]];
      forall issue ensures !EdgeReported(ids, edges[..last], issue) {
        assert !EdgeReported(ids, edges, issue);
      }
      UnreportedEdgesKept(ids, edges[..last]);
      ProperPairsStep(ids, edges);
      var problem := EdgeProblem(ids, edges[..last], edges[last]);
      var issue := if problem.Some? then problem.value else GraphIssue(Cycle);
      assert !EdgeReported(ids, edges, issue);
    }
  }

  lemma ValidEdges(graph: WorkflowGraph, ctx: Context)
    requires Valid(graph, ctx)
    ensures forall e :: e in graph.edges ==> IsProper(NodeIds(graph), e)
    ensures Kept(graph) == ProperEdges(graph)
  {
    forall issue ensures !EdgeReported(NodeIds(graph), graph.edges, issue) {
      assert !Reported(graph, ctx, issue);
    }
    UnreportedEdgesKept(NodeIds(graph), graph.edges);
  }

  lemma ValidEnds(graph: WorkflowGraph, ctx: Context)
    requires Valid(graph, ctx)
    ensures |Triggers(graph)| == 1 && Terminals(graph) != []
  {
    assert !Reported(graph, ctx, GraphIssue(MissingTrigger));
    assert !Reported(graph, ctx, GraphIssue(MissingTerminal));
    var second :=
      if |Triggers(graph)| > 1 then NodeIssue(MultipleTriggers, Triggers(graph)[1].id) else GraphIssue(Cycle);
    assert !Reported(graph, ctx, second);
  }

  function TriggerId(graph: WorkflowGraph): Id
    requires |Triggers(graph)| == 1
  {
    Triggers(graph)[0].id
  }

  ghost predicate IsTerminalId(graph: WorkflowGraph, id: Id)
  {
    exists t :: t in Terminals(graph) && t.id == id
  }

  lemma ValidNode(graph: WorkflowGraph, ctx: Context, node: WorkflowNode, code: Code)
    requires Valid(graph, ctx) && node in graph.nodes && code in NODE_CODES
    ensures !NodeReported(graph, ctx, node, code)
  {
    var issue := NodeIssue(code, node.id);
    assert !Reported(graph, ctx, issue);
    assert !SomeNodeHas(graph, ctx, graph.nodes, NODE_CODES, issue);
    assert !NodeDue(graph, ctx, node, issue);
  }

  /** Every node lies on a walk from the trigger to some terminal. */
  lemma EveryNodeOnAPath(graph: WorkflowGraph, ctx: Context, node: WorkflowNode)
    requires Valid(graph, ctx) && node in graph.nodes
    ensures |Triggers(graph)| == 1
    ensures exists walk, t :: && t in Terminals(graph) && node.id in walk
                              && WalkFromTo(ProperEdges(graph), walk, TriggerId(graph), t.id)
  {
    ValidEnds(graph, ctx);
    ValidEdges(graph, ctx);
    ValidNode(graph, ctx, node, Unreachable);
    ValidNode(graph, ctx, node, NoPathToTerminal);
    var t :| t in Terminals(graph) && Reaches(Kept(graph), node.id, t.id);
    var v :| WalkFromTo(Kept(graph), v, TriggerId(graph), node.id);
    var w :| WalkFromTo(Kept(graph), w, node.id, t.id);
    JoinWalks(Kept(graph), v, w, TriggerId(graph), node.id, t.id);
  }

  lemma FirstStep(edges: Relation, a: Id, b: Id)
    requires Reaches(edges, a, b) && a != b
    ensures HasOutput(edges, a) && HasInput(edges, b)
  {
    var walk :| WalkFromTo(edges, walk, a, b);
    assert (walk[0], walk[1]) in edges;
    assert (walk[|walk| - 2], walk[|walk| - 1]) in edges;
  }

  /** The trigger is the only source. */
  lemma TriggerIsOnlySource(graph: WorkflowGraph, ctx: Context, id: Id)
    requires Valid(graph, ctx) && id in NodeIds(graph)
    ensures |Triggers(graph)| == 1
    ensures !HasInput(ProperEdges(graph), id) <==> id == TriggerId(graph)
  {
    ValidEnds(graph, ctx);
    ValidEdges(graph, ctx);
    var node :| node in graph.nodes && node.id == id;
    ValidNode(graph, ctx, node, Unreachable);
    if id != TriggerId(graph) {
      FirstStep(Kept(graph), TriggerId(graph), id);
    } else {
      assert Triggers(graph)[0] in Triggers(graph);
      ValidNode(graph, ctx, Triggers(graph)[0], TriggerHasInput);
    }
  }

  /** The terminals are the only sinks. */
  lemma TerminalsAreOnlySinks(graph: WorkflowGraph, ctx: Context, id: Id)
    requires Valid(graph, ctx) && id in NodeIds(graph)
    ensures !HasOutput(ProperEdges(graph), id) <==> IsTerminalId(graph, id)
  {
    ValidEnds(graph, ctx);
    ValidEdges(graph, ctx);
    var node :| node in graph.nodes && node.id == id;
    ValidNode(graph, ctx, node, NoPathToTerminal);
    var t :| t in Terminals(graph) && Reaches(Kept(graph), id, t.id);
    if t.id != id {
      FirstStep(Kept(graph), id, t.id);
    }
    if s :| s in Terminals(graph) && s.id == id {
      ValidNode(graph, ctx, s, TerminalHasOutput);
    }
  }

  /** The order simulated for a valid graph is complete, starts at the trigger and ends at a terminal. */
  lemma ValidOrder(graph: WorkflowGraph, ctx: Context, order: seq<Id>)
    requires Valid(graph, ctx) && IsGreedyOrder(NodeIds(graph), ProperEdges(graph), order)
    ensures IsTopological(NodeIds(graph), ProperEdges(graph), order)
    ensures |Triggers(graph)| == 1 && order != []
    ensures order[0] == TriggerId(graph) && IsTerminalId(graph, order[|order| - 1])
  {
    ValidEnds(graph, ctx);
    ValidEdges(graph, ctx);
    ProperEdgesWithin(graph);
    AcyclicOrderIsTopological(NodeIds(graph), ProperEdges(graph), order);
    assert Triggers(graph)[0] in Triggers(graph) && TriggerId(graph) in Elements(order);
    FirstIsSource(NodeIds(graph), ProperEdges(graph), order);
    LastIsSink(NodeIds(graph), ProperEdges(graph), order);
    assert order[0] in Elements(order) && order[|order| - 1] in Elements(order);
    TriggerIsOnlySource(graph, ctx, order[0]);
    TerminalsAreOnlySinks(graph, ctx, order[|order| - 1]);
  }

  lemma FirstIsSource(ids: set<Id>, edges: Relation, order: seq<Id>)
    requires IsTopological(ids, edges, order) && order != []
    ensures !HasInput(edges, order[0])
  {
  }

  lemma LastIsSink(ids: set<Id>, edges: Relation, order: seq<Id>)
    requires IsTopological(ids, edges, order) && order != []
    ensures !HasOutput(edges, order[|order| - 1])
  {
    assert IndexOf(order, order[|order| - 1]) == |order| - 1;
  }
}
