/** `validateWorkflowGraph` of contracts/workflow-definitions.ts: every issue is reported exactly when it is due. */
module GraphValidation {
  import opened Wrappers
  import opened Ordering
  import opened Digraphs
  import opened CycleDetection
  import opened WorkflowGraphs

  datatype Code =
    | MissingTrigger | MultipleTriggers | MissingTerminal | TriggerHasInput | TerminalHasOutput
    | DanglingEdge | SelfLoop | DuplicateEdge | Cycle | Unreachable | NoPathToTerminal
    | MissingTaskType | MissingAgentOrCapability | UnknownAgent | AgentUnqualified | NoAgentForCapability
    | UnknownTool | InvalidApproval | CredentialInGraph

  /** Every issue of this validator has severity `error`. */
  datatype Issue = Issue(code: Code, nodeId: Option<Id>, edgeId: Option<Id>)

  datatype Agent = Agent(capabilities: seq<string>, supportedTaskTypes: seq<string>, enabled: bool)

  /** `looksLikeCredential` stands for the credential expressions tried on each text of a node. */
  datatype Context = Context(agents: map<Id, Agent>, tools: set<string>, looksLikeCredential: string -> bool)

  function GraphIssue(code: Code): Issue { Issue(code, None, None) }
  function NodeIssue(code: Code, id: Id): Issue { Issue(code, Some(id), None) }
  function EdgeIssue(code: Code, id: Id): Issue { Issue(code, None, Some(id)) }

  type Adjacency = map<Id, seq<Id>>

  function Neighbours(adjacency: Adjacency, u: Id): seq<Id>
  {
    if u in adjacency then adjacency[u] else []
  }

  ghost predicate Represents(adjacency: Adjacency, edges: Relation)
  {
    forall u, v :: v in Neighbours(adjacency, u) <==> (u, v) in edges
  }

  // ----- edges --------------------------------------------------------------

  /** The string under which an edge is remembered. */
  function EdgeKey(from: Id, to: Id): string
  {
    from + "->" + to
  }

  function SeenKeys(ids: set<Id>, edges: seq<WorkflowEdge>): set<string>
  {
    set e | e in edges && IsProper(ids, e) :: EdgeKey(e.from, e.to)
  }

  /** What is wrong with an edge that comes after `earlier`, if anything. */
  function EdgeProblem(ids: set<Id>, earlier: seq<WorkflowEdge>, e: WorkflowEdge): Option<Issue>
  {
    if e.from !in ids || e.to !in ids then Some(EdgeIssue(DanglingEdge, e.id))
    else if e.from == e.to then Some(Issue(SelfLoop, Some(e.from), Some(e.id)))
    else if EdgeKey(e.from, e.to) in SeenKeys(ids, earlier) then Some(EdgeIssue(DuplicateEdge, e.id))
    else None
  }

  /** The edges that enter the adjacency maps. */
  ghost function KeptEdges(ids: set<Id>, edges: seq<WorkflowEdge>): Relation
  {
    if edges == [] then {} else
      var last := |edges| - 1;
      var rest := KeptEdges(ids, edges[..last]);
      if EdgeProblem(ids, edges[..last], edges[last]).None? then rest + {(edges[last].from, edges[last].to)} else rest
  }

  /** The issue is what is wrong with some edge, given the edges before it. */
  ghost predicate EdgeReported(ids: set<Id>, edges: seq<WorkflowEdge>, issue: Issue)
  {
    edges != [] &&
    var last := |edges| - 1;
    EdgeReported(ids, edges[..last], issue) || EdgeProblem(ids, edges[..last], edges[last]) == Some(issue)
  }

  ghost function Kept(graph: WorkflowGraph): Relation
  {
    KeptEdges(NodeIds(graph), graph.edges)
  }

  lemma KeptStep(ids: set<Id>, edges: seq<WorkflowEdge>, k: nat)
    requires k < |edges|
    ensures KeptEdges(ids, edges[..k + 1])
            == KeptEdges(ids, edges[..k])
             + if EdgeProblem(ids, edges[..k], edges[k]).None? then {(edges[k].from, edges[k].to)} else {}
    ensures SeenKeys(ids, edges[..k + 1])
            == SeenKeys(ids, edges[..k]) + if IsProper(ids, edges[k]) then {EdgeKey(edges[k].from, edges[k].to)} else {}
  {
    assert edges[..k + 1][..k] == edges[..k];
    assert edges[..k + 1] == edges[..k] + [edges[k]];
  }

  lemma ReportedStep(ids: set<Id>, edges: seq<WorkflowEdge>, k: nat)
    requires k < |edges|
    ensures forall issue :: EdgeReported(ids, edges[..k + 1], issue)
              <==> EdgeReported(ids, edges[..k], issue) || EdgeProblem(ids, edges[..k], edges[k]) == Some(issue)
  {
    assert edges[..k + 1][..k] == edges[..k];
  }

  method AddEdge(adjacency: Adjacency, ghost edges: Relation, from: Id, to: Id) returns (longer: Adjacency)
    requires Represents(adjacency, edges)
    ensures Represents(longer, edges + {(from, to)})
  {
    longer := adjacency[from := Neighbours(adjacency, from) + [to]];
  }

  lemma ReverseAdd(edges: Relation, from: Id, to: Id)
    ensures Reverse(edges + {(from, to)}) == Reverse(edges) + {(to, from)}
  {
  }

  method BuildAdjacency(ids: set<Id>, edges: seq<WorkflowEdge>)
    returns (incoming: Adjacency, outgoing: Adjacency, issues: seq<Issue>)
    ensures Represents(outgoing, KeptEdges(ids, edges))
    ensures Represents(incoming, Reverse(KeptEdges(ids, edges)))
    ensures forall issue :: issue in issues <==> EdgeReported(ids, edges, issue)
  {
    incoming, outgoing, issues := map[], map[], [];
    var pairs: set<string> := {};
    for k := 0 to |edges|
      invariant pairs == SeenKeys(ids, edges[..k])
      invariant Represents(outgoing, KeptEdges(ids, edges[..k]))
      invariant Represents(incoming, Reverse(KeptEdges(ids, edges[..k])))
      invariant forall issue :: issue in issues <==> EdgeReported(ids, edges[..k], issue)
    {
      var e := edges[k];
      KeptStep(ids, edges, k);
      ReportedStep(ids, edges, k);
      if e.from !in ids || e.to !in ids {
        issues := issues + [EdgeIssue(DanglingEdge, e.id)];
      } else if e.from == e.to {
        issues := issues + [Issue(SelfLoop, Some(e.from), Some(e.id))];
      } else if EdgeKey(e.from, e.to) in pairs {
        issues := issues + [EdgeIssue(DuplicateEdge, e.id)];
      } else {
        pairs := pairs + {EdgeKey(e.from, e.to)};
        ReverseAdd(KeptEdges(ids, edges[..k]), e.from, e.to);
        outgoing := AddEdge(outgoing, KeptEdges(ids, edges[..k]), e.from, e.to);
        incoming := AddEdge(incoming, Reverse(KeptEdges(ids, edges[..k])), e.to, e.from);
      }
    }
    assert edges[..|edges|] == edges;
  }

  lemma {:induction false} KeptWithin(ids: set<Id>, edges: seq<WorkflowEdge>)
    ensures forall e :: e in KeptEdges(ids, edges) ==> e.0 in ids && e.1 in ids && e.0 != e.1
  {
    if edges != [] {
      KeptWithin(ids, edges[..|edges| - 1]);
    }
  }

  // ----- the worklists ------------------------------------------------------

  ghost predicate ReachedFrom(edges: Relation, starts: seq<Id>, v: Id)
  {
    exists s :: s in starts && Reaches(edges, s, v)
  }

  lemma ReachedFromStep(edges: Relation, starts: seq<Id>, u: Id, v: Id)
    requires ReachedFrom(edges, starts, u) && (u, v) in edges
    ensures ReachedFrom(edges, starts, v)
  {
    var s :| s in starts && Reaches(edges, s, u);
    ReachesStep(edges, s, u, v);
  }

  /** Everything reached still has its successors reached or is waiting in the queue. */
  ghost predicate Frontier(edges: Relation, reached: set<Id>, waiting: seq<Id>)
  {
    && (forall q :: q in waiting ==> q in reached)
    && forall e :: e in edges && e.0 in reached && e.0 !in waiting ==> e.1 in reached
  }

  /** One worklist loop: exactly what is reachable from the starts, on every graph. */
  method Explore(adjacency: Adjacency, starts: seq<Id>, ghost edges: Relation, ghost universe: set<Id>)
    returns (reached: set<Id>)
    requires Represents(adjacency, edges)
    requires forall e :: e in edges ==> e.1 in universe
    requires forall s :: s in starts ==> s in universe
    ensures forall v :: v in reached <==> ReachedFrom(edges, starts, v)
  {
    reached := set s | s in starts;
    var queue := starts;
    forall s | s in starts ensures ReachedFrom(edges, starts, s) {
      ReachesSelf(edges, s);
    }
    while queue != []
      invariant reached <= universe && (forall s :: s in starts ==> s in reached)
      invariant Frontier(edges, reached, queue)
      invariant forall v :: v in reached ==> ReachedFrom(edges, starts, v)
      decreases universe - reached, |queue|
    {
      var u := queue[0];
      assert queue == [u] + queue[1..];
      reached, queue := Expand(adjacency, u, starts, edges, universe, reached, queue[1..]);
    }
    forall v | ReachedFrom(edges, starts, v) ensures v in reached {
      var s :| s in starts && Reaches(edges, s, v);
      ClosedUnderReaches(edges, reached, s, v);
    }
  }

  /** The inner loop: the neighbours of `u` not met before are reached and queued. */
  method Expand(adjacency: Adjacency, u: Id, ghost starts: seq<Id>, ghost edges: Relation, ghost universe: set<Id>,
      reached0: set<Id>, queue0: seq<Id>)
    returns (reached: set<Id>, queue: seq<Id>)
    requires Represents(adjacency, edges) && forall e :: e in edges ==> e.1 in universe
    requires reached0 <= universe && u in reached0 && Frontier(edges, reached0, [u] + queue0)
    requires forall v :: v in reached0 ==> ReachedFrom(edges, starts, v)
    ensures reached0 <= reached <= universe && Frontier(edges, reached, queue)
    ensures forall v :: v in reached ==> ReachedFrom(edges, starts, v)
    ensures universe - reached < universe - reached0 || (reached == reached0 && queue == queue0)
  {
    reached, queue := reached0, queue0;
    var nexts := Neighbours(adjacency, u);
    for k := 0 to |nexts|
      invariant reached0 <= reached <= universe
      invariant forall j :: 0 <= j < k ==> nexts[j] in reached
      invariant forall q :: q in queue ==> q in reached
      invariant forall e :: e in edges && e.0 in reached && e.0 !in queue && e.0 != u ==> e.1 in reached
      invariant forall v :: v in reached ==> ReachedFrom(edges, starts, v)
      invariant universe - reached < universe - reached0 || (reached == reached0 && queue == queue0)
    {
      var next := nexts[k];
      if next !in reached {
        assert next in Neighbours(adjacency, u) && (u, next) in edges;
        ReachedFromStep(edges, starts, u, next);
        assert next in universe - reached;
        reached := reached + {next};
        queue := queue + [next];
      }
    }
    assert forall e :: e in edges && e.0 == u ==> e.1 in nexts;
  }

  // ----- the rules, one predicate for each ----------------------------------

  function OfKind(nodes: seq<WorkflowNode>, kind: NodeKind): (r: seq<WorkflowNode>)
    ensures forall n :: n in r <==> n in nodes && n.kind == kind
  {
    if nodes == [] then [] else
      assert nodes == [nodes[0]] + nodes[1..];
      (if nodes[0].kind == kind then [nodes[0]] else []) + OfKind(nodes[1..], kind)
  }

  function Triggers(graph: WorkflowGraph): seq<WorkflowNode> { OfKind(graph.nodes, Trigger) }
  function Terminals(graph: WorkflowGraph): seq<WorkflowNode> { OfKind(graph.nodes, Terminal) }

  ghost predicate GraphReported(graph: WorkflowGraph, issue: Issue)
  {
    || (issue == GraphIssue(MissingTrigger) && Triggers(graph) == [])
    || (issue == GraphIssue(MissingTerminal) && Terminals(graph) == [])
    || exists k :: 1 <= k < |Triggers(graph)| && issue == NodeIssue(MultipleTriggers, Triggers(graph)[k].id)
  }

  ghost predicate HasInput(edges: Relation, id: Id)
  {
    exists e :: e in edges && e.1 == id
  }

  ghost predicate HasOutput(edges: Relation, id: Id)
  {
    exists e :: e in edges && e.0 == id
  }

  ghost predicate ReachesTerminal(graph: WorkflowGraph, edges: Relation, id: Id)
  {
    exists t :: t in Terminals(graph) && Reaches(edges, id, t.id)
  }

  /** JavaScript truthiness of an optional text. */
  predicate Present(value: Option<string>)
  {
    value.Some? && value.value != ""
  }

  /** An enabled agent that meets whatever the node asks for. */
  predicate Qualified(node: WorkflowNode, agentId: Id, agent: Agent)
  {
    && agent.enabled
    && (Present(node.config.agentId) ==> node.config.agentId.value == agentId)
    && (Present(node.config.capability) ==> node.config.capability.value in agent.capabilities)
    && (Present(node.config.taskType) ==> node.config.taskType.value in agent.supportedTaskTypes)
  }

  ghost predicate SomeCandidate(node: WorkflowNode, ctx: Context)
  {
    exists id :: id in ctx.agents && Qualified(node, id, ctx.agents[id])
  }

  ghost predicate NoCandidate(node: WorkflowNode, ctx: Context)
  {
    && (Present(node.config.agentId) ==> node.config.agentId.value in ctx.agents)
    && (Present(node.config.agentId) || Present(node.config.capability)) && Present(node.config.taskType)
    && !SomeCandidate(node, ctx)
  }

  ghost predicate TaskReported(node: WorkflowNode, ctx: Context, code: Code)
  {
    var config := node.config;
    match code
    case MissingTaskType => !Present(config.taskType)
    case MissingAgentOrCapability => !Present(config.agentId) && !Present(config.capability)
    case UnknownAgent => Present(config.agentId) && config.agentId.value !in ctx.agents
    case AgentUnqualified => Present(config.agentId) && NoCandidate(node, ctx)
    case NoAgentForCapability => !Present(config.agentId) && NoCandidate(node, ctx)
    case UnknownTool => exists tool :: tool in config.expectedTools && tool !in ctx.tools
    case _ => false
  }

  function TextsOf(value: Option<string>): seq<string>
  {
    if value.Some? then [value.value] else []
  }

  /** The texts of a node that are searched for credentials. */
  function Texts(node: WorkflowNode): seq<string>
  {
    [node.labelText] + [if node.description.Some? then node.description.value else ""]
    + TextsOf(node.config.taskType) + TextsOf(node.config.agentId) + TextsOf(node.config.capability)
    + TextsOf(node.config.approvalAction) + node.config.expectedTools + node.config.acceptanceCriteria
  }

  ghost predicate NodeReported(graph: WorkflowGraph, ctx: Context, node: WorkflowNode, code: Code)
  {
    var edges := Kept(graph);
    match code
    case TriggerHasInput => node.kind.Trigger? && HasInput(edges, node.id)
    case TerminalHasOutput => node.kind.Terminal? && HasOutput(edges, node.id)
    case Unreachable => Triggers(graph) != [] && !Reaches(edges, Triggers(graph)[0].id, node.id)
    case NoPathToTerminal => Terminals(graph) != [] && !ReachesTerminal(graph, edges, node.id)
    case InvalidApproval =>
      node.kind.Approval? && (!Present(node.config.approvalAction) || !HasOutput(edges, node.id))
    case CredentialInGraph => exists t :: t in Texts(node) && ctx.looksLikeCredential(t)
    case _ => node.kind.AgentTask? && TaskReported(node, ctx, code)
  }

  /** The issue is one about this node, and due. */
  ghost predicate NodeDue(graph: WorkflowGraph, ctx: Context, node: WorkflowNode, issue: Issue)
  {
    issue == NodeIssue(issue.code, node.id) && NodeReported(graph, ctx, node, issue.code)
  }

  ghost predicate NodeHas(graph: WorkflowGraph, ctx: Context, node: WorkflowNode, codes: set<Code>, issue: Issue)
  {
    issue.code in codes && NodeDue(graph, ctx, node, issue)
  }

  /** The issue has one of the codes and is due for some node of the list. */
  ghost predicate SomeNodeHas(graph: WorkflowGraph, ctx: Context, nodes: seq<WorkflowNode>, codes: set<Code>,
      issue: Issue)
  {
    issue.code in codes && exists n :: n in nodes && NodeDue(graph, ctx, n, issue)
  }

  const NODE_CODES: set<Code> := {
    TriggerHasInput, TerminalHasOutput, Unreachable, NoPathToTerminal, MissingTaskType, MissingAgentOrCapability,
    UnknownAgent, AgentUnqualified, NoAgentForCapability, UnknownTool, InvalidApproval, CredentialInGraph
  }

  /** Every rule but the one about cycles. */
  ghost predicate Reported(graph: WorkflowGraph, ctx: Context, issue: Issue)
  {
    || GraphReported(graph, issue)
    || EdgeReported(NodeIds(graph), graph.edges, issue)
    || SomeNodeHas(graph, ctx, graph.nodes, NODE_CODES, issue)
  }

  // ----- the validator ------------------------------------------------------

  /** Registered agents that could take the node, sorted. */
  method CandidateAgents(node: WorkflowNode, ctx: Context) returns (out: seq<Id>)
    ensures Sorted(out) && NoDuplicates(out)
    ensures forall id :: id in out <==> id in ctx.agents && Qualified(node, id, ctx.agents[id])
  {
    var found: seq<Id> := [];
    var left := ctx.agents.Keys;
    while left != {}
      invariant left <= ctx.agents.Keys && NoDuplicates(found)
      invariant forall id :: id in found
                  <==> id in ctx.agents && id !in left && Qualified(node, id, ctx.agents[id])
      decreases left
    {
      var id :| id in left;
      left := left - {id};
      if Qualified(node, id, ctx.agents[id]) {
        found := found + [id];
      }
    }
    out := Sort(found);
    SortSorted(found);
    SortNoDuplicates(found);
    SortSameElements(found);
  }

  method GraphIssues(graph: WorkflowGraph) returns (issues: seq<Issue>)
    ensures forall issue :: issue in issues <==> GraphReported(graph, issue)
  {
    issues := [];
    var triggers := Triggers(graph);
    if triggers == [] {
      issues := issues + [GraphIssue(MissingTrigger)];
    }
    if |triggers| > 1 {
      for k := 1 to |triggers|
        invariant forall issue :: issue in issues
                    <==> exists j :: 1 <= j < k && issue == NodeIssue(MultipleTriggers, triggers[j].id)
      {
        issues := issues + [NodeIssue(MultipleTriggers, triggers[k].id)];
      }
    }
    if Terminals(graph) == [] {
      issues := issues + [GraphIssue(MissingTerminal)];
    }
  }

  lemma SomeNodeStep(graph: WorkflowGraph, ctx: Context, codes: set<Code>, k: nat)
    requires k < |graph.nodes|
    ensures forall issue :: SomeNodeHas(graph, ctx, graph.nodes[..k + 1], codes, issue)
              <==> (SomeNodeHas(graph, ctx, graph.nodes[..k], codes, issue)
                    || NodeHas(graph, ctx, graph.nodes[k], codes, issue))
  {
    assert graph.nodes[..k + 1] == graph.nodes[..k] + [graph.nodes[k]];
  }

  lemma AllNodes(graph: WorkflowGraph)
    ensures graph.nodes[..0] == [] && graph.nodes[..|graph.nodes|] == graph.nodes
  {
  }

  lemma NeighboursMeanEdges(adjacency: Adjacency, edges: Relation, id: Id)
    requires Represents(adjacency, edges)
    ensures Neighbours(adjacency, id) != [] <==> HasOutput(edges, id)
  {
    if Neighbours(adjacency, id) != [] {
      assert Neighbours(adjacency, id)[0] in Neighbours(adjacency, id);
    }
    if e :| e in edges && e.0 == id {
      assert e.1 in Neighbours(adjacency, id);
    }
  }

  lemma ReverseOutputIsInput(edges: Relation, id: Id)
    ensures HasOutput(Reverse(edges), id) <==> HasInput(edges, id)
  {
    if e :| e in edges && e.1 == id {
      assert (e.1, e.0) in Reverse(edges);
    }
  }

  method EndIssues(graph: WorkflowGraph, ghost ctx: Context, incoming: Adjacency, outgoing: Adjacency)
    returns (issues: seq<Issue>)
    requires Represents(outgoing, Kept(graph)) && Represents(incoming, Reverse(Kept(graph)))
    ensures forall issue :: issue in issues
              <==> SomeNodeHas(graph, ctx, graph.nodes, {TriggerHasInput, TerminalHasOutput}, issue)
  {
    issues := [];
    AllNodes(graph);
    for k := 0 to |graph.nodes|
      invariant forall issue :: issue in issues
                  <==> SomeNodeHas(graph, ctx, graph.nodes[..k], {TriggerHasInput, TerminalHasOutput}, issue)
    {
      var node := graph.nodes[k];
      SomeNodeStep(graph, ctx, {TriggerHasInput, TerminalHasOutput}, k);
      NeighboursMeanEdges(outgoing, Kept(graph), node.id);
      NeighboursMeanEdges(incoming, Reverse(Kept(graph)), node.id);
      ReverseOutputIsInput(Kept(graph), node.id);
      var found: seq<Issue> := [];
      if node.kind == Trigger && Neighbours(incoming, node.id) != [] {
        found := found + [NodeIssue(TriggerHasInput, node.id)];
      }
      if node.kind == Terminal && Neighbours(outgoing, node.id) != [] {
        found := found + [NodeIssue(TerminalHasOutput, node.id)];
      }
      assert forall issue ::
          issue in found <==> NodeHas(graph, ctx, node, {TriggerHasInput, TerminalHasOutput}, issue);
      issues := issues + found;
    }
  }

  /** One report for each node that is not in the set. */
  method OutsideIssues(graph: WorkflowGraph, ghost ctx: Context, reached: set<Id>, code: Code)
    returns (issues: seq<Issue>)
    requires forall n :: n in graph.nodes ==> (n.id !in reached <==> NodeReported(graph, ctx, n, code))
    ensures forall issue :: issue in issues <==> SomeNodeHas(graph, ctx, graph.nodes, {code}, issue)
  {
    issues := [];
    AllNodes(graph);
    for k := 0 to |graph.nodes|
      invariant forall issue :: issue in issues <==> SomeNodeHas(graph, ctx, graph.nodes[..k], {code}, issue)
    {
      SomeNodeStep(graph, ctx, {code}, k);
      assert graph.nodes[k] in graph.nodes;
      var found := if graph.nodes[k].id !in reached then [NodeIssue(code, graph.nodes[k].id)] else [];
      assert forall issue :: issue in found <==> NodeHas(graph, ctx, graph.nodes[k], {code}, issue);
      issues := issues + found;
    }
  }

  method ReachabilityIssues(graph: WorkflowGraph, ghost ctx: Context, outgoing: Adjacency) returns (issues: seq<Issue>)
    requires Represents(outgoing, Kept(graph))
    ensures forall issue :: issue in issues <==> SomeNodeHas(graph, ctx, graph.nodes, {Unreachable}, issue)
  {
    issues := [];
    var triggers := Triggers(graph);
    if triggers != [] {
      KeptWithin(NodeIds(graph), graph.edges);
      assert triggers[0] in triggers && triggers[0].id in NodeIds(graph);
      var reached := Explore(outgoing, [triggers[0].id], Kept(graph), NodeIds(graph));
      assert forall v :: ReachedFrom(Kept(graph), [triggers[0].id], v) <==> Reaches(Kept(graph), triggers[0].id, v);
      issues := OutsideIssues(graph, ctx, reached, Unreachable);
    }
  }

  function IdsOf(nodes: seq<WorkflowNode>): (ids: seq<Id>)
    ensures |ids| == |nodes| && forall i :: 0 <= i < |ids| ==> ids[i] == nodes[i].id
  {
    seq(|nodes|, i requires 0 <= i < |nodes| => nodes[i].id)
  }

  lemma ReachesTerminalBackwards(graph: WorkflowGraph, id: Id)
    ensures ReachedFrom(Reverse(Kept(graph)), IdsOf(Terminals(graph)), id) <==> ReachesTerminal(graph, Kept(graph), id)
  {
    var ids := IdsOf(Terminals(graph));
    if s :| s in ids && Reaches(Reverse(Kept(graph)), s, id) {
      var i :| 0 <= i < |ids| && ids[i] == s;
      ReverseReaches(Kept(graph), id, s);
      assert Terminals(graph)[i] in Terminals(graph);
    }
    if t :| t in Terminals(graph) && Reaches(Kept(graph), id, t.id) {
      var i :| 0 <= i < |ids| && Terminals(graph)[i] == t;
      ReverseReaches(Kept(graph), id, t.id);
      assert ids[i] in ids;
    }
  }

  method TerminationIssues(graph: WorkflowGraph, ghost ctx: Context, incoming: Adjacency) returns (issues: seq<Issue>)
    requires Represents(incoming, Reverse(Kept(graph)))
    ensures forall issue :: issue in issues <==> SomeNodeHas(graph, ctx, graph.nodes, {NoPathToTerminal}, issue)
  {
    issues := [];
    var terminals := IdsOf(Terminals(graph));
    KeptWithin(NodeIds(graph), graph.edges);
    forall s | s in terminals ensures s in NodeIds(graph) {
      var i :| 0 <= i < |terminals| && terminals[i] == s;
      assert Terminals(graph)[i] in Terminals(graph);
    }
    var reached := Explore(incoming, terminals, Reverse(Kept(graph)), NodeIds(graph));
    if terminals != [] {
      forall n | n in graph.nodes ensures n.id !in reached <==> NodeReported(graph, ctx, n, NoPathToTerminal) {
        ReachesTerminalBackwards(graph, n.id);
      }
      issues := OutsideIssues(graph, ctx, reached, NoPathToTerminal);
    }
  }

  const TASK_CODES: set<Code> := {
    MissingTaskType, MissingAgentOrCapability, UnknownAgent, AgentUnqualified, NoAgentForCapability, UnknownTool
  }

  /** The codes reported for an agent task. */
  method AgentTaskCodes(node: WorkflowNode, ctx: Context) returns (codes: seq<Code>)
    ensures forall code :: code in codes <==> code in TASK_CODES && TaskReported(node, ctx, code)
  {
    codes := [];
    var config := node.config;
    if !Present(config.taskType) {
      codes := codes + [MissingTaskType];
    }
    if !Present(config.agentId) && !Present(config.capability) {
      codes := codes + [MissingAgentOrCapability];
    }
    if Present(config.agentId) && config.agentId.value !in ctx.agents {
      codes := codes + [UnknownAgent];
    } else if (Present(config.agentId) || Present(config.capability)) && Present(config.taskType) {
      var candidates := CandidateAgents(node, ctx);
      assert candidates == [] <==> !SomeCandidate(node, ctx) by {
        if candidates != [] {
          assert candidates[0] in candidates;
        }
      }
      if candidates == [] {
        codes := codes + [if Present(config.agentId) then AgentUnqualified else NoAgentForCapability];
      }
    }
    ghost var before := codes;
    for k := 0 to |config.expectedTools|
      invariant forall code :: code in codes
                  <==> (code in before || (code == UnknownTool
                        && exists j :: 0 <= j < k && config.expectedTools[j] !in ctx.tools))
    {
      if config.expectedTools[k] !in ctx.tools {
        codes := codes + [UnknownTool];
      }
    }
  }

  const WORK_CODES: set<Code> := TASK_CODES + {InvalidApproval}

  method AgentTaskIssues(ghost graph: WorkflowGraph, ctx: Context, node: WorkflowNode) returns (issues: seq<Issue>)
    ensures forall issue :: issue in issues <==> NodeHas(graph, ctx, node, TASK_CODES, issue)
  {
    issues := [];
    if node.kind == AgentTask {
      var codes := AgentTaskCodes(node, ctx);
      issues := seq(|codes|, i requires 0 <= i < |codes| => NodeIssue(codes[i], node.id));
      forall issue ensures issue in issues <==> NodeHas(graph, ctx, node, TASK_CODES, issue) {
        if NodeHas(graph, ctx, node, TASK_CODES, issue) {
          var i :| 0 <= i < |codes| && codes[i] == issue.code;
          assert issues[i] == issue;
        }
      }
    }
  }

  method ApprovalIssues(ghost graph: WorkflowGraph, ghost ctx: Context, node: WorkflowNode, outgoing: Adjacency)
    returns (issues: seq<Issue>)
    requires Represents(outgoing, Kept(graph))
    ensures forall issue :: issue in issues <==> NodeHas(graph, ctx, node, {InvalidApproval}, issue)
  {
    issues := [];
    NeighboursMeanEdges(outgoing, Kept(graph), node.id);
    if node.kind == Approval {
      if !Present(node.config.approvalAction) {
        issues := issues + [NodeIssue(InvalidApproval, node.id)];
      }
      if Neighbours(outgoing, node.id) == [] {
        issues := issues + [NodeIssue(InvalidApproval, node.id)];
      }
    }
  }

  method WorkIssues(graph: WorkflowGraph, ctx: Context, outgoing: Adjacency) returns (issues: seq<Issue>)
    requires Represents(outgoing, Kept(graph))
    ensures forall issue :: issue in issues <==> SomeNodeHas(graph, ctx, graph.nodes, WORK_CODES, issue)
  {
    issues := [];
    AllNodes(graph);
    for k := 0 to |graph.nodes|
      invariant forall issue :: issue in issues <==> SomeNodeHas(graph, ctx, graph.nodes[..k], WORK_CODES, issue)
    {
      SomeNodeStep(graph, ctx, WORK_CODES, k);
      var task := AgentTaskIssues(graph, ctx, graph.nodes[k]);
      var approval := ApprovalIssues(graph, ctx, graph.nodes[k], outgoing);
      assert forall issue ::
          (issue in task || issue in approval) <==> NodeHas(graph, ctx, graph.nodes[k], WORK_CODES, issue);
      issues := issues + task + approval;
    }
  }

  method CredentialIssues(graph: WorkflowGraph, ctx: Context) returns (issues: seq<Issue>)
    ensures forall issue :: issue in issues <==> SomeNodeHas(graph, ctx, graph.nodes, {CredentialInGraph}, issue)
  {
    issues := [];
    AllNodes(graph);
    for k := 0 to |graph.nodes|
      invariant forall issue :: issue in issues
                  <==> SomeNodeHas(graph, ctx, graph.nodes[..k], {CredentialInGraph}, issue)
    {
      SomeNodeStep(graph, ctx, {CredentialInGraph}, k);
      var texts := Texts(graph.nodes[k]);
      var hit := exists t :: t in texts && ctx.looksLikeCredential(t);
      var found := if hit then [NodeIssue(CredentialInGraph, graph.nodes[k].id)] else [];
      assert forall issue :: issue in found <==> NodeHas(graph, ctx, graph.nodes[k], {CredentialInGraph}, issue);
      issues := issues + found;
    }
  }

  /** The nodes as `findCycle` sees them: each depends on the nodes with an edge into it. */
  function DependencyNodes(nodes: seq<WorkflowNode>, incoming: Adjacency): (r: seq<DependencyNode>)
    ensures |r| == |nodes|
  {
    seq(|nodes|, i requires 0 <= i < |nodes| => DependencyNode(nodes[i].id, Neighbours(incoming, nodes[i].id)))
  }

  lemma {:induction false} DependencyMapValues(nodes: seq<DependencyNode>, incoming: Adjacency)
    requires forall i :: 0 <= i < |nodes| ==> nodes[i].dependsOn == Neighbours(incoming, nodes[i].id)
    ensures forall id :: id in DependencyMap(nodes) ==> DependencyMap(nodes)[id] == Neighbours(incoming, id)
  {
    if nodes != [] {
      DependencyMapValues(nodes[..|nodes| - 1], incoming);
    }
  }

  lemma DependencyMapKeys(nodes: seq<WorkflowNode>, incoming: Adjacency)
    ensures DependencyMap(DependencyNodes(nodes, incoming)).Keys == set n | n in nodes :: n.id
  {
    var list := DependencyNodes(nodes, incoming);
    forall id | id in (set n | n in nodes :: n.id) ensures id in DependencyMap(list) {
      var i :| 0 <= i < |nodes| && nodes[i].id == id;
      assert list[i].id == id;
    }
  }

  lemma DependencyEdgesAreReversed(graph: WorkflowGraph, incoming: Adjacency)
    requires Represents(incoming, Reverse(Kept(graph)))
    ensures DependencyEdges(DependencyMap(DependencyNodes(graph.nodes, incoming))) == Reverse(Kept(graph))
  {
    var deps := DependencyMap(DependencyNodes(graph.nodes, incoming));
    DependencyMapKeys(graph.nodes, incoming);
    DependencyMapValues(DependencyNodes(graph.nodes, incoming), incoming);
    KeptWithin(NodeIds(graph), graph.edges);
    forall e ensures e in DependencyEdges(deps) <==> e in Reverse(Kept(graph)) {
      if e in Reverse(Kept(graph)) {
        assert e.0 in deps && e.1 in deps[e.0] && e.1 in deps;
      }
    }
  }

  ghost predicate OnCycle(edges: Relation, id: Id)
  {
    exists cycle :: IsCycle(edges, cycle) && cycle[0] == id
  }

  /** At most one report, exactly when there is a cycle, naming a node on it. */
  method CycleIssues(graph: WorkflowGraph, incoming: Adjacency) returns (issues: seq<Issue>)
    requires Represents(incoming, Reverse(Kept(graph)))
    ensures issues == [] <==> Acyclic(Kept(graph))
    ensures forall issue :: issue in issues ==>
              && issue.code == Cycle && issue.edgeId.None? && issue.nodeId.Some?
              && OnCycle(Kept(graph), issue.nodeId.value)
  {
    var nodes := DependencyNodes(graph.nodes, incoming);
    var found := FindCycle(nodes);
    DependencyEdgesAreReversed(graph, incoming);
    ReverseAcyclic(Kept(graph));
    issues := [];
    if found.Some? {
      ReverseWalk(Reverse(Kept(graph)), found.value);
      ReverseReverse(Kept(graph));
      assert IsCycle(Kept(graph), ReverseSeq(found.value));
      issues := [NodeIssue(Cycle, found.value[0])];
    }
  }

  lemma {:induction false} EdgeReportedCode(ids: set<Id>, edges: seq<WorkflowEdge>, issue: Issue)
    requires EdgeReported(ids, edges, issue)
    ensures issue.code in {DanglingEdge, SelfLoop, DuplicateEdge}
  {
    var last := |edges| - 1;
    if EdgeProblem(ids, edges[..last], edges[last]) != Some(issue) {
      EdgeReportedCode(ids, edges[..last], issue);
    }
  }

  lemma ReportedCode(graph: WorkflowGraph, ctx: Context, issue: Issue)
    requires Reported(graph, ctx, issue)
    ensures issue.code != Cycle
  {
    if EdgeReported(NodeIds(graph), graph.edges, issue) {
      EdgeReportedCode(NodeIds(graph), graph.edges, issue);
    }
  }

  /** The rules about single nodes, in the order of the source, with the cycle report in its place. */
  method NodeIssues(graph: WorkflowGraph, ctx: Context, incoming: Adjacency, outgoing: Adjacency)
    returns (before: seq<Issue>, after: seq<Issue>)
    requires Represents(outgoing, Kept(graph)) && Represents(incoming, Reverse(Kept(graph)))
    ensures forall issue ::
              (issue in before || issue in after) <==> SomeNodeHas(graph, ctx, graph.nodes, NODE_CODES, issue)
  {
    before := EndIssues(graph, ctx, incoming, outgoing);
    var unreachable := ReachabilityIssues(graph, ctx, outgoing);
    var endless := TerminationIssues(graph, ctx, incoming);
    var works := WorkIssues(graph, ctx, outgoing);
    var credentials := CredentialIssues(graph, ctx);
    after := unreachable + endless + works + credentials;
    assert NODE_CODES
           == {TriggerHasInput, TerminalHasOutput, Unreachable, NoPathToTerminal} + WORK_CODES + {CredentialInGraph};
  }

  /**
   * Every rule but the one about cycles is reported exactly when it is broken, for exactly the nodes and edges that
   * break it; a cycle is reported exactly when there is one, at a node on it. The graph is valid when nothing is.
   */
  method ValidateWorkflowGraph(graph: WorkflowGraph, ctx: Context) returns (valid: bool, issues: seq<Issue>)
    ensures valid <==> issues == []
    ensures forall issue: Issue :: issue.code != Cycle ==> (issue in issues <==> Reported(graph, ctx, issue))
    ensures (exists issue: Issue :: issue in issues && issue.code == Cycle) <==> !Acyclic(Kept(graph))
    ensures forall issue :: issue in issues && issue.code == Cycle ==>
              issue.edgeId.None? && issue.nodeId.Some? && OnCycle(Kept(graph), issue.nodeId.value)
  {
    var heads := GraphIssues(graph);
    var incoming, outgoing, edgeIssues := BuildAdjacency(NodeIds(graph), graph.edges);
    var cycles := CycleIssues(graph, incoming);
    var before, after := NodeIssues(graph, ctx, incoming, outgoing);
    ghost var rest := heads + edgeIssues + before + after;
    assert forall issue :: issue in rest <==> Reported(graph, ctx, issue);
    issues := heads + edgeIssues + before + cycles + after;
    assert forall issue :: issue in issues <==> issue in rest || issue in cycles;
    forall issue: Issue | issue in rest ensures issue.code != Cycle {
      ReportedCode(graph, ctx, issue);
    }
    if cycles != [] {
      assert cycles[0] in issues;
    }
    valid := issues == [];
  }
}
