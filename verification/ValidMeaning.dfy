/** The verdict of `validateWorkflowGraph` in terms of the nodes, the edges and the registry alone. */
module ValidMeaning {
  import opened Wrappers
  import opened Digraphs
  import opened WorkflowGraphs
  import opened GraphValidation
  import opened ValidGraphs

  // ----- the conditions -----------------------------------------------------

  ghost function Connections(edges: seq<WorkflowEdge>): Relation
  {
    set e | e in edges :: (e.from, e.to)
  }

  /** How many nodes are of a kind. */
  function CountOf(nodes: seq<WorkflowNode>, kind: NodeKind): nat
  {
    if nodes == [] then 0 else CountOf(nodes[1..], kind) + if nodes[0].kind == kind then 1 else 0
  }

  ghost predicate EdgesConnect(graph: WorkflowGraph)
  {
    forall e :: e in graph.edges ==> e.from in NodeIds(graph) && e.to in NodeIds(graph) && e.from != e.to
  }

  /** No two connections are written the same. */
  ghost predicate EdgesDistinct(edges: seq<WorkflowEdge>)
  {
    forall i, j :: 0 <= i < j < |edges| ==> edges[i].from + "->" + edges[i].to != edges[j].from + "->" + edges[j].to
  }

  /** What an agent must offer for a node. */
  ghost predicate CanTake(node: WorkflowNode, id: Id, agent: Agent)
  {
    && agent.enabled && node.config.taskType.Some? && node.config.taskType.value in agent.supportedTaskTypes
    && (node.config.agentId.Some? && node.config.agentId.value != "" ==> id == node.config.agentId.value)
    && (node.config.capability.Some? && node.config.capability.value != "" ==>
          node.config.capability.value in agent.capabilities)
  }

  ghost predicate TaskOk(node: WorkflowNode, ctx: Context)
  {
    && node.config.taskType.Some? && node.config.taskType.value != ""
    && ((node.config.agentId.Some? && node.config.agentId.value != "")
        || (node.config.capability.Some? && node.config.capability.value != ""))
    && (exists id :: id in ctx.agents && CanTake(node, id, ctx.agents[id]))
    && forall tool :: tool in node.config.expectedTools ==> tool in ctx.tools
  }

  ghost predicate ApprovalOk(graph: WorkflowGraph, node: WorkflowNode)
  {
    && node.config.approvalAction.Some? && node.config.approvalAction.value != ""
    && exists e :: e in graph.edges && e.from == node.id
  }

  /** A text that stands somewhere in a node; an absent description counts as an empty text. */
  ghost predicate AppearsIn(t: string, node: WorkflowNode)
  {
    || t == node.labelText || node.description == Some(t) || (node.description.None? && t == "")
    || node.config.taskType == Some(t) || node.config.agentId == Some(t) || node.config.capability == Some(t)
    || node.config.approvalAction == Some(t) || t in node.config.expectedTools || t in node.config.acceptanceCriteria
  }

  ghost predicate NodeOk(graph: WorkflowGraph, ctx: Context, trigger: Id, node: WorkflowNode)
  {
    && Reaches(Connections(graph.edges), trigger, node.id)
    && (exists t :: t in graph.nodes && t.kind == Terminal && Reaches(Connections(graph.edges), node.id, t.id))
    && (node.kind == Trigger ==> forall e :: e in graph.edges ==> e.to != node.id)
    && (node.kind == Terminal ==> forall e :: e in graph.edges ==> e.from != node.id)
    && (node.kind == AgentTask ==> TaskOk(node, ctx))
    && (node.kind == Approval ==> ApprovalOk(graph, node))
    && forall t :: AppearsIn(t, node) ==> !ctx.looksLikeCredential(t)
  }

  /** What a workflow graph must be like to be published. */
  ghost predicate Publishable(graph: WorkflowGraph, ctx: Context)
  {
    && CountOf(graph.nodes, Trigger) == 1 && CountOf(graph.nodes, Terminal) > 0
    && EdgesConnect(graph) && EdgesDistinct(graph.edges) && Acyclic(Connections(graph.edges))
    && forall t, node :: t in graph.nodes && t.kind == Trigger && node in graph.nodes ==>
         NodeOk(graph, ctx, t.id, node)
  }

  // ----- the ends -----------------------------------------------------------

  lemma {:induction false} CountIsLength(nodes: seq<WorkflowNode>, kind: NodeKind)
    ensures |OfKind(nodes, kind)| == CountOf(nodes, kind)
  {
    if nodes != [] {
      CountIsLength(nodes[1..], kind);
    }
  }

  lemma TheTrigger(graph: WorkflowGraph, t: WorkflowNode)
    requires |Triggers(graph)| == 1 && t in graph.nodes && t.kind == Trigger
    ensures Triggers(graph)[0] == t
  {
    assert t in Triggers(graph);
  }

  // ----- the edges ----------------------------------------------------------

  ghost predicate NothingReported(ids: set<Id>, edges: seq<WorkflowEdge>)
  {
    forall issue :: !EdgeReported(ids, edges, issue)
  }

  /** Nothing is reported about edges exactly when they connect different nodes and no two are written the same. */
  lemma {:induction false} EdgesClean(ids: set<Id>, edges: seq<WorkflowEdge>)
    ensures NothingReported(ids, edges) <==> (forall e :: e in edges ==> IsProper(ids, e)) && EdgesDistinct(edges)
  {
    if edges != [] {
      hide NothingReported, EdgesDistinct, EdgeProblem;
      EdgesClean(ids, edges[..|edges| - 1]);
      OneMoreReported(ids, edges);
      OneMoreDistinct(ids, edges);
    }
  }

  lemma OneMoreReported(ids: set<Id>, edges: seq<WorkflowEdge>)
    requires edges != []
    ensures NothingReported(ids, edges)
            <==> NothingReported(ids, edges[..|edges| - 1])
                 && EdgeProblem(ids, edges[..|edges| - 1], edges[|edges| - 1]).None?
  {
    var last := |edges| - 1;
    var problem := EdgeProblem(ids, edges[..last], edges[last]);
    hide EdgeProblem;
    forall issue
      ensures EdgeReported(ids, edges, issue) <==> EdgeReported(ids, edges[..last], issue) || problem == Some(issue)
    {
    }
    if problem.Some? {
      assert EdgeReported(ids, edges, problem.value);
    }
    if NothingReported(ids, edges) {
      forall issue ensures !EdgeReported(ids, edges[..last], issue) {
        assert !EdgeReported(ids, edges, issue);
      }
    }
  }

  lemma OneMoreDistinct(ids: set<Id>, edges: seq<WorkflowEdge>)
    requires edges != []
    ensures (forall e :: e in edges ==> IsProper(ids, e)) && EdgesDistinct(edges)
            <==> && (forall e :: e in edges[..|edges| - 1] ==> IsProper(ids, e))
                 && EdgesDistinct(edges[..|edges| - 1])
                 && EdgeProblem(ids, edges[..|edges| - 1], edges[|edges| - 1]).None?
  {
    var last := |edges| - 1;
    var before, e := edges[..last], edges[last];
    assert edges == before + [e];
    if (forall f :: f in before ==> IsProper(ids, f)) && IsProper(ids, e) {
      KeySeenIff(ids, before, e);
      if EdgesDistinct(edges) {
        assert forall i :: 0 <= i < last ==> edges[i] == before[i];
      }
      if EdgesDistinct(before) && EdgeKey(e.from, e.to) !in SeenKeys(ids, before) {
        assert forall i :: 0 <= i < last ==> edges[i] == before[i];
      }
    }
  }

  lemma KeySeenIff(ids: set<Id>, edges: seq<WorkflowEdge>, e: WorkflowEdge)
    requires forall f :: f in edges ==> IsProper(ids, f)
    ensures EdgeKey(e.from, e.to) in SeenKeys(ids, edges)
            <==> exists i :: 0 <= i < |edges| && edges[i].from + "->" + edges[i].to == e.from + "->" + e.to
  {
    if EdgeKey(e.from, e.to) in SeenKeys(ids, edges) {
      var f :| f in edges && IsProper(ids, f) && EdgeKey(f.from, f.to) == EdgeKey(e.from, e.to);
      var i :| 0 <= i < |edges| && edges[i] == f;
    }
    if i :| 0 <= i < |edges| && edges[i].from + "->" + edges[i].to == e.from + "->" + e.to {
      assert edges[i] in edges;
    }
  }

  lemma ProperAre(graph: WorkflowGraph)
    requires EdgesConnect(graph)
    ensures ProperEdges(graph) == Connections(graph.edges)
  {
  }

  // ----- the nodes ----------------------------------------------------------

  lemma TextsAre(node: WorkflowNode, t: string)
    ensures t in Texts(node) <==> AppearsIn(t, node)
  {
    var config := node.config;
    var a := [node.labelText] + [if node.description.Some? then node.description.value else ""];
    var b := a + TextsOf(config.taskType) + TextsOf(config.agentId) + TextsOf(config.capability);
    var c := b + TextsOf(config.approvalAction);
    assert t in a <==> t == node.labelText || node.description == Some(t) || (node.description.None? && t == "");
    assert Texts(node) == c + config.expectedTools + config.acceptanceCriteria;
    assert t in b <==> t in a || config.taskType == Some(t) || config.agentId == Some(t)
                       || config.capability == Some(t);
    assert t in c <==> t in b || config.approvalAction == Some(t);
  }

  /** With a task type given, the qualified agents are those that can take the node; a disabled one never is. */
  lemma QualifiedMeans(node: WorkflowNode, id: Id, agent: Agent)
    requires node.config.taskType.Some? && node.config.taskType.value != ""
    ensures Qualified(node, id, agent) <==> CanTake(node, id, agent)
    ensures Qualified(node, id, agent.(enabled := false)) == false
  {
  }

  /** With every agent disabled there is no candidate, whatever the node asks for. */
  lemma DisabledAreNoCandidates(node: WorkflowNode, ctx: Context)
    requires forall id :: id in ctx.agents ==> !ctx.agents[id].enabled
    ensures !SomeCandidate(node, ctx)
  {
  }

  /** What is reported about an agent task: nothing exactly when it can be run. */
  lemma TaskClean(node: WorkflowNode, ctx: Context)
    ensures (forall code :: !TaskReported(node, ctx, code)) <==> TaskOk(node, ctx)
  {
    if forall code :: !TaskReported(node, ctx, code) {
      assert !TaskReported(node, ctx, MissingTaskType) && !TaskReported(node, ctx, MissingAgentOrCapability);
      assert !TaskReported(node, ctx, UnknownAgent) && !TaskReported(node, ctx, AgentUnqualified);
      assert !TaskReported(node, ctx, NoAgentForCapability) && !TaskReported(node, ctx, UnknownTool);
      var id :| id in ctx.agents && Qualified(node, id, ctx.agents[id]);
      assert CanTake(node, id, ctx.agents[id]);
    }
    if TaskOk(node, ctx) {
      var id :| id in ctx.agents && CanTake(node, id, ctx.agents[id]);
      assert Qualified(node, id, ctx.agents[id]);
    }
  }

  lemma ConnectionOut(graph: WorkflowGraph, id: Id)
    ensures HasOutput(Connections(graph.edges), id) <==> exists e :: e in graph.edges && e.from == id
    ensures HasInput(Connections(graph.edges), id) <==> exists e :: e in graph.edges && e.to == id
  {
    if e :| e in graph.edges && e.from == id {
      assert (e.from, e.to) in Connections(graph.edges);
    }
    if e :| e in graph.edges && e.to == id {
      assert (e.from, e.to) in Connections(graph.edges);
    }
  }

  ghost predicate NodeClean(graph: WorkflowGraph, ctx: Context, node: WorkflowNode)
  {
    forall code :: code in NODE_CODES ==> !NodeReported(graph, ctx, node, code)
  }

  lemma EndsClean(graph: WorkflowGraph, ctx: Context, trigger: WorkflowNode, node: WorkflowNode)
    requires Kept(graph) == Connections(graph.edges) && |Triggers(graph)| == 1 && Terminals(graph) != []
    requires trigger in graph.nodes && trigger.kind == Trigger
    ensures !NodeReported(graph, ctx, node, Unreachable) <==> Reaches(Connections(graph.edges), trigger.id, node.id)
    ensures !NodeReported(graph, ctx, node, NoPathToTerminal)
            <==> exists t :: t in graph.nodes && t.kind == Terminal && Reaches(Connections(graph.edges), node.id, t.id)
    ensures !NodeReported(graph, ctx, node, TriggerHasInput)
            <==> (node.kind == Trigger ==> forall e :: e in graph.edges ==> e.to != node.id)
    ensures !NodeReported(graph, ctx, node, TerminalHasOutput)
            <==> (node.kind == Terminal ==> forall e :: e in graph.edges ==> e.from != node.id)
  {
    TheTrigger(graph, trigger);
    ConnectionOut(graph, node.id);
  }

  lemma ApprovalClean(graph: WorkflowGraph, ctx: Context, node: WorkflowNode)
    requires Kept(graph) == Connections(graph.edges)
    ensures !NodeReported(graph, ctx, node, InvalidApproval) <==> (node.kind == Approval ==> ApprovalOk(graph, node))
  {
    ConnectionOut(graph, node.id);
    hide Kept, Texts;
  }

  lemma CredentialsClean(graph: WorkflowGraph, ctx: Context, node: WorkflowNode)
    ensures !NodeReported(graph, ctx, node, CredentialInGraph)
            <==> forall t :: AppearsIn(t, node) ==> !ctx.looksLikeCredential(t)
  {
    forall t {
      TextsAre(node, t);
    }
    hide Texts, AppearsIn, Kept;
  }

  lemma TasksClean(graph: WorkflowGraph, ctx: Context, node: WorkflowNode)
    ensures TaskCodesClean(graph, ctx, node) <==> (node.kind == AgentTask ==> TaskOk(node, ctx))
  {
    TaskClean(node, ctx);
    hide TaskOk, Texts, Kept;
    forall code | code in TASK_CODES
      ensures NodeReported(graph, ctx, node, code) <==> node.kind.AgentTask? && TaskReported(node, ctx, code)
    {
    }
    assert forall code :: TaskReported(node, ctx, code) ==> code in TASK_CODES;
  }

  /** A node is not complained about exactly when it is as it should be. */
  lemma NodeCleanMeans(graph: WorkflowGraph, ctx: Context, trigger: WorkflowNode, node: WorkflowNode)
    requires Kept(graph) == Connections(graph.edges) && |Triggers(graph)| == 1 && Terminals(graph) != []
    requires trigger in graph.nodes && trigger.kind == Trigger
    ensures NodeClean(graph, ctx, node) <==> NodeOk(graph, ctx, trigger.id, node)
  {
    EndsClean(graph, ctx, trigger, node);
    ApprovalClean(graph, ctx, node);
    TasksClean(graph, ctx, node);
    CredentialsClean(graph, ctx, node);
    hide NodeReported, TaskOk, ApprovalOk, Kept, AppearsIn, NodeClean, TaskCodesClean, Connections;
    NodeCleanSplits(graph, ctx, node);
  }

  ghost predicate TaskCodesClean(graph: WorkflowGraph, ctx: Context, node: WorkflowNode)
  {
    forall code :: code in TASK_CODES ==> !NodeReported(graph, ctx, node, code)
  }

  lemma NodeCleanSplits(graph: WorkflowGraph, ctx: Context, node: WorkflowNode)
    ensures NodeClean(graph, ctx, node) <==>
              && TaskCodesClean(graph, ctx, node)
              && !NodeReported(graph, ctx, node, TriggerHasInput) && !NodeReported(graph, ctx, node, TerminalHasOutput)
              && !NodeReported(graph, ctx, node, Unreachable) && !NodeReported(graph, ctx, node, NoPathToTerminal)
              && !NodeReported(graph, ctx, node, InvalidApproval)
              && !NodeReported(graph, ctx, node, CredentialInGraph)
  {
    hide NodeReported;
  }

  lemma CleanAre(graph: WorkflowGraph, ctx: Context)
    ensures (forall issue :: !SomeNodeHas(graph, ctx, graph.nodes, NODE_CODES, issue))
            <==> forall node :: node in graph.nodes ==> NodeClean(graph, ctx, node)
  {
    hide NodeReported;
    if forall issue :: !SomeNodeHas(graph, ctx, graph.nodes, NODE_CODES, issue) {
      forall node, code | node in graph.nodes && code in NODE_CODES ensures !NodeReported(graph, ctx, node, code) {
        var issue := NodeIssue(code, node.id);
        assert !SomeNodeHas(graph, ctx, graph.nodes, NODE_CODES, issue);
        assert !NodeDue(graph, ctx, node, issue);
      }
    }
  }

  lemma GraphClean(graph: WorkflowGraph)
    ensures (forall issue :: !GraphReported(graph, issue))
            <==> CountOf(graph.nodes, Trigger) == 1 && CountOf(graph.nodes, Terminal) > 0
  {
    CountIsLength(graph.nodes, Trigger);
    CountIsLength(graph.nodes, Terminal);
    assert GraphReported(graph, GraphIssue(MissingTrigger)) <==> Triggers(graph) == [];
    assert GraphReported(graph, GraphIssue(MissingTerminal)) <==> Terminals(graph) == [];
    if |Triggers(graph)| > 1 {
      assert GraphReported(graph, NodeIssue(MultipleTriggers, Triggers(graph)[1].id));
    }
  }

  lemma NothingMeans(graph: WorkflowGraph, ctx: Context)
    ensures (forall issue :: !Reported(graph, ctx, issue))
            <==> && (forall issue :: !GraphReported(graph, issue))
                 && NothingReported(NodeIds(graph), graph.edges)
                 && (forall issue :: !SomeNodeHas(graph, ctx, graph.nodes, NODE_CODES, issue))
  {
    hide GraphReported, EdgeReported, SomeNodeHas;
    if forall issue :: !Reported(graph, ctx, issue) {
      forall issue ensures !GraphReported(graph, issue) && !EdgeReported(NodeIds(graph), graph.edges, issue)
                           && !SomeNodeHas(graph, ctx, graph.nodes, NODE_CODES, issue) {
        assert !Reported(graph, ctx, issue);
      }
    }
  }

  lemma CleanEdgesKept(graph: WorkflowGraph)
    requires NothingReported(NodeIds(graph), graph.edges)
    ensures EdgesConnect(graph) && EdgesDistinct(graph.edges) && Kept(graph) == Connections(graph.edges)
  {
    EdgesClean(NodeIds(graph), graph.edges);
    UnreportedEdgesKept(NodeIds(graph), graph.edges);
    ProperAre(graph);
  }

  /** The validator calls a graph valid exactly when it can be published. */
  lemma ValidExactly(graph: WorkflowGraph, ctx: Context)
    ensures Valid(graph, ctx) <==> Publishable(graph, ctx)
  {
    NothingMeans(graph, ctx);
    GraphClean(graph);
    CleanAre(graph, ctx);
    EdgesClean(NodeIds(graph), graph.edges);
    CountIsLength(graph.nodes, Trigger);
    CountIsLength(graph.nodes, Terminal);
    hide Reported, GraphReported, SomeNodeHas, NodeClean, NodeOk, EdgesDistinct, Kept, Connections, NothingReported;
    if && NothingReported(NodeIds(graph), graph.edges)
       && CountOf(graph.nodes, Trigger) == 1 && CountOf(graph.nodes, Terminal) > 0 {
      CleanEdgesKept(graph);
      forall t, node | t in graph.nodes && t.kind == Trigger && node in graph.nodes
        ensures NodeClean(graph, ctx, node) <==> NodeOk(graph, ctx, t.id, node)
      {
        NodeCleanMeans(graph, ctx, t, node);
      }
      assert Triggers(graph)[0] in Triggers(graph);
    }
  }
}
