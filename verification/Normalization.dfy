/** `normalizeWorkflowGraph` of contracts/workflow-definitions.ts: untrusted input to canonical graph. */
module Normalization {
  import opened Wrappers
  import opened Digraphs
  import opened Text
  import opened Values
  import opened WorkflowGraphs

  const MAX_NODES: nat := 100
  const MAX_EDGES: nat := 300
  const MAX_LABEL: nat := 120
  const MAX_DESCRIPTION: nat := 1000
  const MAX_LIST_ITEMS: nat := 20
  const MAX_LIST_ITEM_LENGTH: nat := 200
  const MAX_COORDINATE: int := 100_000

  datatype Issue =
    | InvalidShape(nodeId: Option<Id>)
    | LimitExceeded
    | DuplicateNodeId(id: Id)
    | DuplicateEdgeId(id: Id)
    | UnsupportedNodeKind(id: Id)

  predicate IsIdChar(c: char)
  {
    'A' <= c <= 'Z' || 'a' <= c <= 'z' || '0' <= c <= '9' || c == '_' || c == '-'
  }

  predicate IsId(s: string)
  {
    1 <= |s| <= 64 && forall c :: c in s ==> IsIdChar(c)
  }

  // ----- the small readers --------------------------------------------------

  datatype OptText = Missing | Rejected | Given(text: string)

  function ReadText(value: Value, max: nat): OptText
  {
    if value.Undefined? || value.Null? || value == Str("") then Missing
    else if !value.Str? || |value.s| > max then Rejected
    else if IsBlank(value.s) then Missing
    else Given(Trim(value.s))
  }

  /** The items trimmed, or nothing if one of them is not an acceptable text. */
  function TrimAll(items: seq<Value>): Option<seq<string>>
  {
    if items == [] then Some([])
    else
      var last := |items| - 1;
      var rest := TrimAll(items[..last]);
      var item := items[last];
      if rest.None? || !item.Str? || IsBlank(item.s) || |item.s| > MAX_LIST_ITEM_LENGTH then None
      else Some(rest.value + [Trim(item.s)])
  }

  function StringListOf(value: Value): Option<seq<string>>
  {
    if value.Undefined? then Some([])
    else if !value.Arr? || |value.items| > MAX_LIST_ITEMS then None
    else TrimAll(value.items)
  }

  lemma {:induction false} TrimAllFails(items: seq<Value>, k: nat)
    requires k <= |items| && TrimAll(items[..k]).None?
    ensures TrimAll(items).None?
    decreases |items| - k
  {
    if k < |items| {
      assert items[..k + 1][..k] == items[..k];
      TrimAllFails(items, k + 1);
    } else {
      assert items[..k] == items;
    }
  }

  method StringList(value: Value) returns (list: Option<seq<string>>)
    ensures list == StringListOf(value)
  {
    if value.Undefined? {
      return Some([]);
    }
    if !value.Arr? || |value.items| > MAX_LIST_ITEMS {
      return None;
    }
    var out: seq<string> := [];
    for k := 0 to |value.items|
      invariant TrimAll(value.items[..k]) == Some(out)
    {
      var item := value.items[k];
      assert value.items[..k + 1][..k] == value.items[..k];
      if !item.Str? || IsBlank(item.s) || |item.s| > MAX_LIST_ITEM_LENGTH {
        TrimAllFails(value.items, k + 1);
        return None;
      }
      out := out + [Trim(item.s)];
    }
    assert value.items[..|value.items|] == value.items;
    return Some(out);
  }

  /** `Math.round`, then clamped; anything that is not a finite number is 0. */
  function Coordinate(value: Value): int
  {
    if value.Num? && value.n.Finite? then
      var rounded := (value.n.r + 0.5).Floor;
      if rounded < -MAX_COORDINATE then -MAX_COORDINATE
      else if rounded > MAX_COORDINATE then MAX_COORDINATE
      else rounded
    else 0
  }

  function ReadKind(value: Value): Option<NodeKind>
  {
    if value == Str("trigger") then Some(Trigger)
    else if value == Str("agent_task") then Some(AgentTask)
    else if value == Str("approval") then Some(Approval)
    else if value == Str("terminal") then Some(Terminal)
    else None
  }

  // ----- one node, one edge -------------------------------------------------

  function Kept(text: OptText): Option<string>
  {
    if text.Given? then Some(text.text) else None
  }

  function Complaint(bad: bool, id: Id): seq<Issue>
  {
    if bad then [InvalidShape(Some(id))] else []
  }

  function ConfigText(config: Value, key: string): OptText
  {
    ReadText(Property(config, key), MAX_LIST_ITEM_LENGTH)
  }

  function ConfigList(config: Value, key: string): seq<string>
  {
    var list := StringListOf(Property(config, key));
    if list.Some? then list.value else []
  }

  function ReadConfig(config: Value): NodeConfig
  {
    NodeConfig(
      Kept(ConfigText(config, "taskType")),
      Kept(ConfigText(config, "agentId")),
      Kept(ConfigText(config, "capability")),
      Kept(ConfigText(config, "approvalAction")),
      ConfigList(config, "expectedTools"),
      ConfigList(config, "acceptanceCriteria"))
  }

  function ConfigIssues(config: Value, id: Id): seq<Issue>
  {
    Complaint(ConfigText(config, "taskType").Rejected?, id)
    + Complaint(ConfigText(config, "agentId").Rejected?, id)
    + Complaint(ConfigText(config, "capability").Rejected?, id)
    + Complaint(ConfigText(config, "approvalAction").Rejected?, id)
    + Complaint(StringListOf(Property(config, "expectedTools")).None?, id)
    + Complaint(StringListOf(Property(config, "acceptanceCriteria")).None?, id)
  }

  /** A node that was accepted or not, and what was complained about. */
  datatype Reading<T> = Reading(result: Option<T>, issues: seq<Issue>)

  predicate HasId(raw: Value)
  {
    raw.Obj? && Property(raw, "id").Str? && IsId(Property(raw, "id").s)
  }

  function RawId(raw: Value): Id
    requires HasId(raw)
  {
    Property(raw, "id").s
  }

  function MakeNode(raw: Value, id: Id, kind: NodeKind, caption: string, description: Option<string>): WorkflowNode
  {
    var position := Property(raw, "position");
    WorkflowNode(id, kind, caption, description, ReadConfig(Property(raw, "config")),
                 Position(Coordinate(Property(position, "x")), Coordinate(Property(position, "y"))))
  }

  function ReadNode(raw: Value, seen: set<Id>): Reading<WorkflowNode>
  {
    if !HasId(raw) then Reading(None, [InvalidShape(None)])
    else
      var id := RawId(raw);
      if id in seen then Reading(None, [DuplicateNodeId(id)])
      else
        var kind := ReadKind(Property(raw, "kind"));
        if kind.None? then Reading(None, [UnsupportedNodeKind(id)])
        else
          var caption := ReadText(Property(raw, "label"), MAX_LABEL);
          if !caption.Given? then Reading(None, [InvalidShape(Some(id))])
          else
            var description := ReadText(Property(raw, "description"), MAX_DESCRIPTION);
            if description.Rejected? then Reading(None, [InvalidShape(Some(id))])
            else
              Reading(Some(MakeNode(raw, id, kind.value, caption.text, Kept(description))),
                      ConfigIssues(Property(raw, "config"), id))
  }

  function ReadEdge(raw: Value, seen: set<Id>): Reading<WorkflowEdge>
  {
    if !HasId(raw) || !Property(raw, "from").Str? || !Property(raw, "to").Str? then Reading(None, [InvalidShape(None)])
    else if RawId(raw) in seen then Reading(None, [DuplicateEdgeId(RawId(raw))])
    else Reading(Some(WorkflowEdge(RawId(raw), Property(raw, "from").s, Property(raw, "to").s)), [])
  }

  /** An id is remembered as soon as it is well formed and new, even when the node is then dropped. */
  function SeenAfter(raw: Value, seen: set<Id>): set<Id>
  {
    if HasId(raw) then seen + {RawId(raw)} else seen
  }

  function EdgesSeenAfter(raw: Value, seen: set<Id>): set<Id>
  {
    if ReadEdge(raw, seen).result.Some? then seen + {RawId(raw)} else seen
  }

  // ----- the lists ----------------------------------------------------------

  /** What reading a list has produced so far. */
  datatype Progress<T> = Progress(kept: seq<T>, issues: seq<Issue>, seen: set<Id>)
  {
    function Add(reading: Reading<T>, seen: set<Id>): Progress<T>
    {
      Progress(if reading.result.Some? then kept + [reading.result.value] else kept, issues + reading.issues, seen)
    }
  }

  function ReadNodes(raws: seq<Value>): Progress<WorkflowNode>
  {
    if raws == [] then Progress([], [], {}) else
      var raw := raws[|raws| - 1];
      var before := ReadNodes(raws[..|raws| - 1]);
      before.Add(ReadNode(raw, before.seen), SeenAfter(raw, before.seen))
  }

  function ReadEdges(raws: seq<Value>): Progress<WorkflowEdge>
  {
    if raws == [] then Progress([], [], {}) else
      var raw := raws[|raws| - 1];
      var before := ReadEdges(raws[..|raws| - 1]);
      before.Add(ReadEdge(raw, before.seen), EdgesSeenAfter(raw, before.seen))
  }

  predicate HasShape(input: Value)
  {
    input.Obj? && Property(input, "nodes").Arr? && Property(input, "edges").Arr?
  }

  predicate WithinLimits(input: Value)
    requires HasShape(input)
  {
    |Property(input, "nodes").items| <= MAX_NODES && |Property(input, "edges").items| <= MAX_EDGES
  }

  /** What normalising yields: a graph, and what was wrong with the input. */
  function Normalized(input: Value): (WorkflowGraph, seq<Issue>)
  {
    if !HasShape(input) then (WorkflowGraph([], []), [InvalidShape(None)])
    else if !WithinLimits(input) then (WorkflowGraph([], []), [LimitExceeded])
    else
      var nodes := ReadNodes(Property(input, "nodes").items);
      var edges := ReadEdges(Property(input, "edges").items);
      (WorkflowGraph(nodes.kept, edges.kept), nodes.issues + edges.issues)
  }

  method NormalizeNodes(raws: seq<Value>) returns (nodes: seq<WorkflowNode>, issues: seq<Issue>)
    ensures nodes == ReadNodes(raws).kept && issues == ReadNodes(raws).issues
  {
    nodes, issues := [], [];
    var seen: set<Id> := {};
    for k := 0 to |raws|
      invariant Progress(nodes, issues, seen) == ReadNodes(raws[..k])
    {
      var reading := ReadNode(raws[k], seen);
      assert raws[..k + 1][..k] == raws[..k];
      if reading.result.Some? {
        nodes := nodes + [reading.result.value];
      }
      issues := issues + reading.issues;
      if HasId(raws[k]) {
        seen := seen + {RawId(raws[k])};
      }
    }
    assert raws[..|raws|] == raws;
  }

  method NormalizeEdges(raws: seq<Value>) returns (edges: seq<WorkflowEdge>, issues: seq<Issue>)
    ensures edges == ReadEdges(raws).kept && issues == ReadEdges(raws).issues
  {
    edges, issues := [], [];
    var seen: set<Id> := {};
    for k := 0 to |raws|
      invariant Progress(edges, issues, seen) == ReadEdges(raws[..k])
    {
      var reading := ReadEdge(raws[k], seen);
      assert raws[..k + 1][..k] == raws[..k];
      if reading.result.Some? {
        edges := edges + [reading.result.value];
        seen := seen + {RawId(raws[k])};
      }
      issues := issues + reading.issues;
    }
    assert raws[..|raws|] == raws;
  }

  method NormalizeWorkflowGraph(input: Value) returns (graph: WorkflowGraph, issues: seq<Issue>)
    ensures (graph, issues) == Normalized(input)
  {
    if !HasShape(input) {
      return WorkflowGraph([], []), [InvalidShape(None)];
    }
    if !WithinLimits(input) {
      return WorkflowGraph([], []), [LimitExceeded];
    }
    var nodes, nodeIssues := NormalizeNodes(Property(input, "nodes").items);
    var edges, edgeIssues := NormalizeEdges(Property(input, "edges").items);
    return WorkflowGraph(nodes, edges), nodeIssues + edgeIssues;
  }
}
