/** The authored workflow graph of contracts/workflow-definitions.ts. */
module WorkflowGraphs {
  import opened Wrappers
  import opened Digraphs

  datatype NodeKind = Trigger | AgentTask | Approval | Terminal

  datatype Position = Position(x: int, y: int)

  /** The empty list stands for a list key that is absent. */
  datatype NodeConfig = NodeConfig(
    taskType: Option<string>,
    agentId: Option<string>,
    capability: Option<string>,
    approvalAction: Option<string>,
    expectedTools: seq<string>,
    acceptanceCriteria: seq<string>)

  datatype WorkflowNode = WorkflowNode(
    id: Id,
    kind: NodeKind,
    labelText: string,
    description: Option<string>,
    config: NodeConfig,
    position: Position)

  datatype WorkflowEdge = WorkflowEdge(id: Id, from: Id, to: Id)

  datatype WorkflowGraph = WorkflowGraph(nodes: seq<WorkflowNode>, edges: seq<WorkflowEdge>)

  function NodeIds(graph: WorkflowGraph): set<Id>
  {
    set n | n in graph.nodes :: n.id
  }

  /** An edge between two different nodes of the graph. */
  predicate IsProper(ids: set<Id>, edge: WorkflowEdge)
  {
    edge.from in ids && edge.to in ids && edge.from != edge.to
  }

  function ProperEdges(graph: WorkflowGraph): Relation
  {
    set e | e in graph.edges && IsProper(NodeIds(graph), e) :: (e.from, e.to)
  }
}
