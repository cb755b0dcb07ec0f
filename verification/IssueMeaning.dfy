/** The issues of `validateWorkflowGraph`, all but the one about cycles, in terms of nodes, edges and registry. */
module IssueMeaning {
  import opened Wrappers
  import opened Digraphs
  import opened WorkflowGraphs
  import opened GraphValidation
  import opened ValidGraphs
  import opened ValidMeaning

  // ----- issues of a node ---------------------------------------------------

  predicate Given(value: Option<string>)
  {
    value.Some? && value.value != ""
  }

  /** An enabled agent, the one that is named if one is, offering what is asked for. */
  ghost predicate Offers(node: WorkflowNode, ctx: Context, id: Id)
  {
    && id in ctx.agents && ctx.agents[id].enabled
    && (Given(node.config.agentId) ==> id == node.config.agentId.value)
    && (Given(node.config.capability) ==> node.config.capability.value in ctx.agents[id].capabilities)
    && (Given(node.config.taskType) ==> node.config.taskType.value in ctx.agents[id].supportedTaskTypes)
  }

  ghost predicate NobodyOffers(node: WorkflowNode, ctx: Context)
  {
    forall id :: !Offers(node, ctx, id)
  }

  ghost predicate TaskComplaint(config: NodeConfig, ctx: Context, nobody: bool, code: Code)
  {
    match code
    case MissingTaskType => !Given(config.taskType)
    case MissingAgentOrCapability => !Given(config.agentId) && !Given(config.capability)
    case UnknownAgent => Given(config.agentId) && config.agentId.value !in ctx.agents
    case AgentUnqualified =>
      Given(config.taskType) && Given(config.agentId) && config.agentId.value in ctx.agents && nobody
    case NoAgentForCapability =>
      Given(config.taskType) && !Given(config.agentId) && Given(config.capability) && nobody
    case UnknownTool => exists tool :: tool in config.expectedTools && tool !in ctx.tools
    case _ => false
  }

  ghost predicate EndComplaint(graph: WorkflowGraph, ctx: Context, node: WorkflowNode, code: Code)
  {
    match code
    case TriggerHasInput => node.kind == Trigger && exists u :: (u, node.id) in Kept(graph)
    case TerminalHasOutput => node.kind == Terminal && exists v :: (node.id, v) in Kept(graph)
    case InvalidApproval =>
      node.kind == Approval && (!Given(node.config.approvalAction) || forall v :: (node.id, v) !in Kept(graph))
    case CredentialInGraph => exists t :: AppearsIn(t, node) && ctx.looksLikeCredential(t)
    case _ => false
  }

  ghost predicate IsFirst(nodes: seq<WorkflowNode>, kind: NodeKind, i: nat)
  {
    i < |nodes| && nodes[i].kind == kind && forall j :: 0 <= j < i ==> nodes[j].kind != kind
  }

  ghost predicate WalkComplaint(graph: WorkflowGraph, node: WorkflowNode, code: Code)
  {
    match code
    case Unreachable =>
      exists i: nat :: IsFirst(graph.nodes, Trigger, i) && !Reaches(Kept(graph), graph.nodes[i].id, node.id)
    case NoPathToTerminal =>
      && (exists t :: t in graph.nodes && t.kind == Terminal)
      && forall t :: t in graph.nodes && t.kind == Terminal ==> !Reaches(Kept(graph), node.id, t.id)
    case _ => false
  }

  ghost predicate NodeComplaint(graph: WorkflowGraph, ctx: Context, node: WorkflowNode, code: Code)
  {
    || (node.kind == AgentTask && TaskComplaint(node.config, ctx, NobodyOffers(node, ctx), code))
    || EndComplaint(graph, ctx, node, code)
    || WalkComplaint(graph, node, code)
  }

  lemma OffersIs(node: WorkflowNode, ctx: Context)
    ensures NobodyOffers(node, ctx) <==> !SomeCandidate(node, ctx)
  {
    if SomeCandidate(node, ctx) {
      var id :| id in ctx.agents && Qualified(node, id, ctx.agents[id]);
      assert Offers(node, ctx, id);
    }
  }

  lemma TaskMeans(node: WorkflowNode, ctx: Context, code: Code)
    ensures TaskReported(node, ctx, code) <==> TaskComplaint(node.config, ctx, NobodyOffers(node, ctx), code)
  {
    OffersIs(node, ctx);
    hide SomeCandidate, NobodyOffers;
  }

  lemma EndMeans(graph: WorkflowGraph, ctx: Context, node: WorkflowNode, code: Code)
    requires code in {TriggerHasInput, TerminalHasOutput, InvalidApproval, CredentialInGraph}
    ensures NodeReported(graph, ctx, node, code) <==> EndComplaint(graph, ctx, node, code)
  {
    forall t ensures t in Texts(node) <==> AppearsIn(t, node) {
      TextsAre(node, t);
    }
    hide Kept, Texts, AppearsIn;
  }

  lemma {:induction false} FirstOfKind(nodes: seq<WorkflowNode>, kind: NodeKind) returns (i: nat)
    requires OfKind(nodes, kind) != []
    ensures IsFirst(nodes, kind, i) && OfKind(nodes, kind)[0] == nodes[i]
  {
    if nodes[0].kind == kind {
      i := 0;
    } else {
      i := FirstOfKind(nodes[1..], kind);
      i := i + 1;
    }
  }

  lemma WalkMeans(graph: WorkflowGraph, ctx: Context, node: WorkflowNode, code: Code)
    requires code in {Unreachable, NoPathToTerminal}
    ensures NodeReported(graph, ctx, node, code) <==> WalkComplaint(graph, node, code)
  {
    hide Kept, Reaches;
    if Triggers(graph) != [] {
      var i := FirstOfKind(graph.nodes, Trigger);
      forall j: nat | IsFirst(graph.nodes, Trigger, j) ensures j == i {
      }
    }
    forall j: nat | IsFirst(graph.nodes, Trigger, j) ensures Triggers(graph) != [] {
      assert graph.nodes[j] in Triggers(graph);
    }
    if Terminals(graph) != [] {
      assert Terminals(graph)[0] in Terminals(graph);
    }
    assert forall t :: t in Terminals(graph) <==> t in graph.nodes && t.kind == Terminal;
  }

  lemma NodeMeans(graph: WorkflowGraph, ctx: Context, node: WorkflowNode, code: Code)
    requires code in NODE_CODES
    ensures NodeReported(graph, ctx, node, code) <==> NodeComplaint(graph, ctx, node, code)
  {
    if code in {TriggerHasInput, TerminalHasOutput, InvalidApproval, CredentialInGraph} {
      EndMeans(graph, ctx, node, code);
    } else if code in {Unreachable, NoPathToTerminal} {
      WalkMeans(graph, ctx, node, code);
    } else {
      TaskMeans(node, ctx, code);
    }
    hide Kept, Texts, AppearsIn, Offers, NobodyOffers;
  }

  // ----- issues of edges and of the graph -----------------------------------

  ghost predicate IsConnection(ids: set<Id>, e: WorkflowEdge)
  {
    e.from in ids && e.to in ids && e.from != e.to
  }

  ghost predicate WrittenBefore(ids: set<Id>, edges: seq<WorkflowEdge>, k: nat)
    requires k < |edges|
  {
    exists i :: 0 <= i < k && IsConnection(ids, edges[i])
                && edges[i].from + "->" + edges[i].to == edges[k].from + "->" + edges[k].to
  }

  ghost predicate EdgeComplaint(ids: set<Id>, edges: seq<WorkflowEdge>, k: nat, issue: Issue)
    requires k < |edges|
  {
    var e := edges[k];
    match issue.code
    case DanglingEdge => issue == Issue(DanglingEdge, None, Some(e.id)) && (e.from !in ids || e.to !in ids)
    case SelfLoop => issue == Issue(SelfLoop, Some(e.from), Some(e.id)) && e.from in ids && e.to == e.from
    case DuplicateEdge =>
      issue == Issue(DuplicateEdge, None, Some(e.id)) && IsConnection(ids, e) && WrittenBefore(ids, edges, k)
    case _ => false
  }

  ghost predicate SomeEdgeComplaint(ids: set<Id>, edges: seq<WorkflowEdge>, issue: Issue)
  {
    exists k :: 0 <= k < |edges| && EdgeComplaint(ids, edges, k, issue)
  }

  lemma EdgeProblemMeans(ids: set<Id>, edges: seq<WorkflowEdge>, k: nat, issue: Issue)
    requires k < |edges|
    ensures EdgeProblem(ids, edges[..k], edges[k]) == Some(issue) <==> EdgeComplaint(ids, edges, k, issue)
  {
    var e, before := edges[k], edges[..k];
    if EdgeKey(e.from, e.to) in SeenKeys(ids, before) {
      var f :| f in before && IsProper(ids, f) && EdgeKey(f.from, f.to) == EdgeKey(e.from, e.to);
      var i :| 0 <= i < k && edges[i] == f;
      assert WrittenBefore(ids, edges, k);
    }
    if WrittenBefore(ids, edges, k) {
      var i :| 0 <= i < k && IsConnection(ids, edges[i])
               && edges[i].from + "->" + edges[i].to == e.from + "->" + e.to;
      assert edges[i] == before[i] && edges[i] in before;
    }
  }

  lemma EarlierEdgeSame(ids: set<Id>, edges: seq<WorkflowEdge>, n: nat, k: nat, issue: Issue)
    requires k < n <= |edges|
    ensures EdgeComplaint(ids, edges[..n], k, issue) <==> EdgeComplaint(ids, edges, k, issue)
  {
    assert edges[..n][..k] == edges[..k];
    EdgeProblemMeans(ids, edges, k, issue);
    EdgeProblemMeans(ids, edges[..n], k, issue);
  }

  lemma {:induction false} EdgesMean(ids: set<Id>, edges: seq<WorkflowEdge>, issue: Issue)
    ensures EdgeReported(ids, edges, issue) <==> SomeEdgeComplaint(ids, edges, issue)
  {
    if edges != [] {
      var last := |edges| - 1;
      EdgesMean(ids, edges[..last], issue);
      EdgeProblemMeans(ids, edges, last, issue);
      hide EdgeComplaint, EdgeProblem;
      forall k | 0 <= k < last
        ensures EdgeComplaint(ids, edges[..last], k, issue) <==> EdgeComplaint(ids, edges, k, issue)
      {
        EarlierEdgeSame(ids, edges, last, k, issue);
      }
      assert SomeEdgeComplaint(ids, edges, issue)
          <==> SomeEdgeComplaint(ids, edges[..last], issue) || EdgeComplaint(ids, edges, last, issue);
    }
  }

  /** A node of the kind that is not the first. */
  ghost predicate IsFurther(nodes: seq<WorkflowNode>, kind: NodeKind, k: nat)
  {
    k < |nodes| && nodes[k].kind == kind && exists i :: 0 <= i < k && nodes[i].kind == kind
  }

  ghost predicate SomeFurther(nodes: seq<WorkflowNode>, kind: NodeKind, n: WorkflowNode)
  {
    exists k: nat :: IsFurther(nodes, kind, k) && nodes[k] == n
  }

  /** Behind the front of the list. */
  ghost predicate Behind(nodes: seq<WorkflowNode>, n: WorkflowNode)
  {
    exists k :: 1 <= k < |nodes| && nodes[k] == n
  }

  ghost predicate GraphComplaint(nodes: seq<WorkflowNode>, issue: Issue)
  {
    match issue.code
    case MissingTrigger => issue == Issue(MissingTrigger, None, None) && forall n :: n in nodes ==> n.kind != Trigger
    case MissingTerminal => issue == Issue(MissingTerminal, None, None) && forall n :: n in nodes ==> n.kind != Terminal
    case MultipleTriggers =>
      issue == Issue(MultipleTriggers, issue.nodeId, None)
      && exists n :: SomeFurther(nodes, Trigger, n) && issue.nodeId == Some(n.id)
    case _ => false
  }

  lemma {:induction false} FurtherAre(nodes: seq<WorkflowNode>, kind: NodeKind, n: WorkflowNode)
    ensures Behind(OfKind(nodes, kind), n) <==> SomeFurther(nodes, kind, n)
  {
    hide Behind, SomeFurther;
    if nodes == [] {
      NoneFurther(nodes, kind, n);
    } else if nodes[0].kind == kind {
      FurtherThanFirst(nodes, kind, n);
    } else {
      FurtherAre(nodes[1..], kind, n);
      FurtherInRest(nodes, kind, n);
    }
  }

  lemma NoneFurther(nodes: seq<WorkflowNode>, kind: NodeKind, n: WorkflowNode)
    requires nodes == []
    ensures !Behind(OfKind(nodes, kind), n) && !SomeFurther(nodes, kind, n)
  {
  }

  lemma FurtherThanFirst(nodes: seq<WorkflowNode>, kind: NodeKind, n: WorkflowNode)
    requires nodes != [] && nodes[0].kind == kind
    ensures Behind(OfKind(nodes, kind), n) <==> SomeFurther(nodes, kind, n)
  {
    var rest := OfKind(nodes[1..], kind);
    assert OfKind(nodes, kind) == [nodes[0]] + rest;
    if k :| 1 <= k < |OfKind(nodes, kind)| && OfKind(nodes, kind)[k] == n {
      assert n == rest[k - 1] && n in rest;
      var j :| 0 <= j < |nodes| - 1 && nodes[1..][j] == n;
      assert IsFurther(nodes, kind, j + 1) && nodes[j + 1] == n;
    }
    forall k: nat | IsFurther(nodes, kind, k) && nodes[k] == n
      ensures Behind(OfKind(nodes, kind), n)
    {
      assert nodes[1..][k - 1] == n && n in rest;
      var j :| 0 <= j < |rest| && rest[j] == n;
      assert OfKind(nodes, kind)[j + 1] == n;
    }
  }

  lemma FurtherInRest(nodes: seq<WorkflowNode>, kind: NodeKind, n: WorkflowNode)
    requires nodes != [] && nodes[0].kind != kind
    ensures SomeFurther(nodes[1..], kind, n) <==> SomeFurther(nodes, kind, n)
    ensures OfKind(nodes, kind) == OfKind(nodes[1..], kind)
  {
    forall k: nat ensures IsFurther(nodes[1..], kind, k) <==> IsFurther(nodes, kind, k + 1) {
      if IsFurther(nodes[1..], kind, k) {
        var i :| 0 <= i < k && nodes[1..][i].kind == kind;
        assert nodes[i + 1].kind == kind;
      }
      if IsFurther(nodes, kind, k + 1) {
        var i :| 0 <= i < k + 1 && nodes[i].kind == kind;
        assert nodes[1..][i - 1].kind == kind;
      }
    }
    if k: nat :| IsFurther(nodes[1..], kind, k) && nodes[1..][k] == n {
      assert IsFurther(nodes, kind, k + 1) && nodes[k + 1] == n;
    }
    if k: nat :| IsFurther(nodes, kind, k) && nodes[k] == n {
      assert IsFurther(nodes[1..], kind, k - 1) && nodes[1..][k - 1] == n;
    }
  }

  lemma GraphMeans(graph: WorkflowGraph, issue: Issue)
    ensures GraphReported(graph, issue) <==> GraphComplaint(graph.nodes, issue)
  {
    NoneOfKind(graph.nodes, Trigger);
    NoneOfKind(graph.nodes, Terminal);
    BehindReported(Triggers(graph), issue);
    forall n ensures Behind(Triggers(graph), n) <==> SomeFurther(graph.nodes, Trigger, n) {
      FurtherAre(graph.nodes, Trigger, n);
    }
    hide OfKind, Behind, SomeFurther;
  }

  lemma BehindReported(triggers: seq<WorkflowNode>, issue: Issue)
    ensures (exists k :: 1 <= k < |triggers| && issue == NodeIssue(MultipleTriggers, triggers[k].id))
            <==> issue == Issue(MultipleTriggers, issue.nodeId, None)
                 && exists n :: Behind(triggers, n) && issue.nodeId == Some(n.id)
  {
    if k :| 1 <= k < |triggers| && issue == NodeIssue(MultipleTriggers, triggers[k].id) {
      assert Behind(triggers, triggers[k]);
    }
  }

  lemma NoneOfKind(nodes: seq<WorkflowNode>, kind: NodeKind)
    ensures OfKind(nodes, kind) == [] <==> forall n :: n in nodes ==> n.kind != kind
  {
    if OfKind(nodes, kind) != [] {
      assert OfKind(nodes, kind)[0] in OfKind(nodes, kind);
    }
  }

  // ----- all of them --------------------------------------------------------

  ghost predicate IsComplaint(graph: WorkflowGraph, ctx: Context, issue: Issue)
  {
    || GraphComplaint(graph.nodes, issue)
    || SomeEdgeComplaint(NodeIds(graph), graph.edges, issue)
    || exists node :: node in graph.nodes && IsAbout(issue, node) && NodeComplaint(graph, ctx, node, issue.code)
  }

  predicate IsAbout(issue: Issue, node: WorkflowNode)
  {
    issue == Issue(issue.code, Some(node.id), None)
  }

  /** What is reported is exactly what there is to complain about. */
  lemma ReportedExactly(graph: WorkflowGraph, ctx: Context, issue: Issue)
    ensures Reported(graph, ctx, issue) <==> IsComplaint(graph, ctx, issue)
  {
    GraphMeans(graph, issue);
    EdgesMean(NodeIds(graph), graph.edges, issue);
    NodesMean(graph, ctx, issue);
    hide GraphReported, GraphComplaint, EdgeReported, SomeEdgeComplaint, SomeNodeHas, NodeComplaint;
  }

  lemma NodesMean(graph: WorkflowGraph, ctx: Context, issue: Issue)
    ensures SomeNodeHas(graph, ctx, graph.nodes, NODE_CODES, issue) <==>
            exists node :: node in graph.nodes && IsAbout(issue, node) && NodeComplaint(graph, ctx, node, issue.code)
  {
    OtherCodes(graph, ctx, issue.code);
    if issue.code in NODE_CODES {
      forall node
        ensures NodeReported(graph, ctx, node, issue.code) <==> NodeComplaint(graph, ctx, node, issue.code)
      {
        NodeMeans(graph, ctx, node, issue.code);
      }
    }
    hide NodeReported, NodeComplaint;
  }

  lemma OtherCodes(graph: WorkflowGraph, ctx: Context, code: Code)
    ensures code !in NODE_CODES ==> forall node :: !NodeComplaint(graph, ctx, node, code)
  {
  }
}
