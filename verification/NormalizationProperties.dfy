/** Normalising yields only well-formed graphs, and a well-formed graph is what it was: a projection. */
module NormalizationProperties {
  import opened Wrappers
  import opened Digraphs
  import opened Text
  import opened Values
  import opened WorkflowGraphs
  import opened Normalization

  // ----- well-formed graphs -------------------------------------------------

  predicate CleanText(s: string, max: nat)
  {
    s != "" && |s| <= max && Trim(s) == s
  }

  predicate CleanOption(value: Option<string>, max: nat)
  {
    value.None? || CleanText(value.value, max)
  }

  predicate CleanList(list: seq<string>)
  {
    |list| <= MAX_LIST_ITEMS && forall s :: s in list ==> CleanText(s, MAX_LIST_ITEM_LENGTH)
  }

  predicate CleanConfig(config: NodeConfig)
  {
    && CleanOption(config.taskType, MAX_LIST_ITEM_LENGTH) && CleanOption(config.agentId, MAX_LIST_ITEM_LENGTH)
    && CleanOption(config.capability, MAX_LIST_ITEM_LENGTH) && CleanOption(config.approvalAction, MAX_LIST_ITEM_LENGTH)
    && CleanList(config.expectedTools) && CleanList(config.acceptanceCriteria)
  }

  predicate InRange(x: int)
  {
    -MAX_COORDINATE <= x <= MAX_COORDINATE
  }

  predicate WellFormedNode(node: WorkflowNode)
  {
    && IsId(node.id) && CleanText(node.labelText, MAX_LABEL) && CleanOption(node.description, MAX_DESCRIPTION)
    && CleanConfig(node.config) && InRange(node.position.x) && InRange(node.position.y)
  }

  ghost predicate WellFormed(graph: WorkflowGraph)
  {
    && |graph.nodes| <= MAX_NODES && |graph.edges| <= MAX_EDGES
    && (forall i, j :: 0 <= i < j < |graph.nodes| ==> graph.nodes[i].id != graph.nodes[j].id)
    && (forall i, j :: 0 <= i < j < |graph.edges| ==> graph.edges[i].id != graph.edges[j].id)
    && (forall n :: n in graph.nodes ==> WellFormedNode(n))
    && (forall e :: e in graph.edges ==> IsId(e.id))
  }

  // ----- the graph as a value -----------------------------------------------

  /** An object with the given keys, in order; a key without a value is absent. */
  function Table(keys: seq<string>, values: seq<Option<Value>>): seq<Field>
    requires |keys| == |values|
  {
    if keys == [] then [] else
      (if values[0].Some? then [Field(keys[0], values[0].value)] else []) + Table(keys[1..], values[1..])
  }

  function ValueOr(value: Option<Value>): Value
  {
    if value.Some? then value.value else Undefined
  }

  lemma {:induction false} TableKeys(keys: seq<string>, values: seq<Option<Value>>)
    requires |keys| == |values|
    ensures forall f :: f in Table(keys, values) ==> f.key in keys
  {
    if keys != [] {
      TableKeys(keys[1..], values[1..]);
    }
  }

  lemma {:induction false} GetTable(keys: seq<string>, values: seq<Option<Value>>, i: nat)
    requires |keys| == |values| && i < |keys|
    requires forall j, k :: 0 <= j < k < |keys| ==> keys[j] != keys[k]
    ensures Get(Table(keys, values), keys[i]) == ValueOr(values[i])
  {
    var rest := Table(keys[1..], values[1..]);
    if values[0].Some? {
      assert Table(keys, values)[0] == Field(keys[0], values[0].value);
      assert Table(keys, values)[1..] == rest;
    } else {
      assert Table(keys, values) == rest;
    }
    if i > 0 {
      GetTable(keys[1..], values[1..], i - 1);
    } else {
      TableKeys(keys[1..], values[1..]);
      if values[0].None? {
        GetAbsent(rest, keys[0]);
      }
    }
  }

  function TextValue(value: Option<string>): Option<Value>
  {
    if value.Some? then Some(Str(value.value)) else None
  }

  function Strings(list: seq<string>): (items: seq<Value>)
    ensures |items| == |list| && forall i :: 0 <= i < |list| ==> items[i] == Str(list[i])
  {
    seq(|list|, i requires 0 <= i < |list| => Str(list[i]))
  }

  function ListValue(list: seq<string>): Option<Value>
  {
    if list == [] then None else Some(Arr(Strings(list)))
  }

  const CONFIG_KEYS: seq<string> :=
    ["taskType", "agentId", "capability", "approvalAction", "expectedTools", "acceptanceCriteria"]

  function ConfigFields(config: NodeConfig): seq<Field>
  {
    Table(CONFIG_KEYS, [TextValue(config.taskType), TextValue(config.agentId), TextValue(config.capability),
                        TextValue(config.approvalAction), ListValue(config.expectedTools),
                        ListValue(config.acceptanceCriteria)])
  }

  function KindName(kind: NodeKind): string
  {
    match kind
    case Trigger => "trigger"
    case AgentTask => "agent_task"
    case Approval => "approval"
    case Terminal => "terminal"
  }

  function Whole(x: int): Value
  {
    Num(Finite(x as real))
  }

  function PositionFields(position: Position): seq<Field>
  {
    Table(["x", "y"], [Some(Whole(position.x)), Some(Whole(position.y))])
  }

  const NODE_KEYS: seq<string> := ["id", "kind", "label", "description", "config", "position"]

  function NodeFields(node: WorkflowNode): seq<Field>
  {
    Table(NODE_KEYS, [Some(Str(node.id)), Some(Str(KindName(node.kind))), Some(Str(node.labelText)),
                      TextValue(node.description), Some(Obj(ConfigFields(node.config))),
                      Some(Obj(PositionFields(node.position)))])
  }

  function EdgeFields(edge: WorkflowEdge): seq<Field>
  {
    Table(["id", "from", "to"], [Some(Str(edge.id)), Some(Str(edge.from)), Some(Str(edge.to))])
  }

  function NodeValues(nodes: seq<WorkflowNode>): (values: seq<Value>)
    ensures |values| == |nodes| && forall i :: 0 <= i < |nodes| ==> values[i] == Obj(NodeFields(nodes[i]))
  {
    seq(|nodes|, i requires 0 <= i < |nodes| => Obj(NodeFields(nodes[i])))
  }

  function EdgeValues(edges: seq<WorkflowEdge>): (values: seq<Value>)
    ensures |values| == |edges| && forall i :: 0 <= i < |edges| ==> values[i] == Obj(EdgeFields(edges[i]))
  {
    seq(|edges|, i requires 0 <= i < |edges| => Obj(EdgeFields(edges[i])))
  }

  function GraphFields(graph: WorkflowGraph): seq<Field>
  {
    Table(["nodes", "edges"], [Some(Arr(NodeValues(graph.nodes))), Some(Arr(EdgeValues(graph.edges)))])
  }

  /** The graph as the object that is stored, published and fed back. */
  function GraphValue(graph: WorkflowGraph): Value
  {
    Obj(GraphFields(graph))
  }

  // ----- output is well formed ----------------------------------------------

  lemma TrimIdempotent(s: string)
    ensures Trim(Trim(s)) == Trim(s)
  {
    TrimTrimmed(Trim(s));
  }

  lemma ReadTextClean(value: Value, max: nat)
    ensures ReadText(value, max).Given? ==> CleanText(ReadText(value, max).text, max)
  {
    if ReadText(value, max).Given? {
      TrimIdempotent(value.s);
    }
  }

  lemma {:induction false} TrimAllClean(items: seq<Value>)
    requires TrimAll(items).Some?
    ensures |TrimAll(items).value| == |items|
    ensures forall s :: s in TrimAll(items).value ==> CleanText(s, MAX_LIST_ITEM_LENGTH)
  {
    if items != [] {
      var last := |items| - 1;
      TrimAllClean(items[..last]);
      TrimIdempotent(items[last].s);
    }
  }

  lemma ConfigListClean(config: Value, key: string)
    ensures CleanList(ConfigList(config, key))
  {
    var value := Property(config, key);
    if value.Arr? && TrimAll(value.items).Some? {
      TrimAllClean(value.items);
    }
  }

  lemma ReadConfigClean(config: Value)
    ensures CleanConfig(ReadConfig(config))
  {
    ReadTextClean(Property(config, "taskType"), MAX_LIST_ITEM_LENGTH);
    ReadTextClean(Property(config, "agentId"), MAX_LIST_ITEM_LENGTH);
    ReadTextClean(Property(config, "capability"), MAX_LIST_ITEM_LENGTH);
    ReadTextClean(Property(config, "approvalAction"), MAX_LIST_ITEM_LENGTH);
    ConfigListClean(config, "expectedTools");
    ConfigListClean(config, "acceptanceCriteria");
  }

  lemma MakeNodeWellFormed(raw: Value, id: Id, kind: NodeKind, caption: string, description: Option<string>)
    requires IsId(id) && CleanText(caption, MAX_LABEL) && CleanOption(description, MAX_DESCRIPTION)
    ensures WellFormedNode(MakeNode(raw, id, kind, caption, description))
  {
    ReadConfigClean(Property(raw, "config"));
  }

  lemma ReadNodeWellFormed(raw: Value, seen: set<Id>)
    requires ReadNode(raw, seen).result.Some?
    ensures var node := ReadNode(raw, seen).result.value;
            WellFormedNode(node) && node.id !in seen && HasId(raw) && node.id == RawId(raw)
  {
    ReadTextClean(Property(raw, "label"), MAX_LABEL);
    ReadTextClean(Property(raw, "description"), MAX_DESCRIPTION);
    var description := Kept(ReadText(Property(raw, "description"), MAX_DESCRIPTION));
    MakeNodeWellFormed(raw, RawId(raw), ReadKind(Property(raw, "kind")).value,
                       ReadText(Property(raw, "label"), MAX_LABEL).text, description);
  }

  lemma {:induction false} ReadNodesWellFormed(raws: seq<Value>)
    ensures var p := ReadNodes(raws);
            && |p.kept| <= |raws|
            && (forall n :: n in p.kept ==> WellFormedNode(n) && n.id in p.seen)
            && forall i, j :: 0 <= i < j < |p.kept| ==> p.kept[i].id != p.kept[j].id
  {
    if raws != [] {
      var raw := raws[|raws| - 1];
      ReadNodesWellFormed(raws[..|raws| - 1]);
      var before := ReadNodes(raws[..|raws| - 1]);
      if ReadNode(raw, before.seen).result.Some? {
        ReadNodeWellFormed(raw, before.seen);
        assert forall i :: 0 <= i < |before.kept| ==> before.kept[i] in before.kept;
      }
    }
  }

  lemma {:induction false} ReadEdgesWellFormed(raws: seq<Value>)
    ensures var p := ReadEdges(raws);
            && |p.kept| <= |raws|
            && (forall e :: e in p.kept ==> IsId(e.id) && e.id in p.seen)
            && forall i, j :: 0 <= i < j < |p.kept| ==> p.kept[i].id != p.kept[j].id
  {
    if raws != [] {
      ReadEdgesWellFormed(raws[..|raws| - 1]);
      var before := ReadEdges(raws[..|raws| - 1]);
      assert forall i :: 0 <= i < |before.kept| ==> before.kept[i] in before.kept;
    }
  }

  /** Whatever comes in, what goes out is well formed. */
  lemma NormalizedWellFormed(input: Value)
    ensures WellFormed(Normalized(input).0)
  {
    if HasShape(input) && WithinLimits(input) {
      ReadNodesWellFormed(Property(input, "nodes").items);
      ReadEdgesWellFormed(Property(input, "edges").items);
    }
  }

  // ----- well-formed graphs are fixed points --------------------------------

  lemma ReadTextFixed(value: Option<string>, max: nat)
    requires CleanOption(value, max)
    ensures var v := ValueOr(TextValue(value));
            Kept(ReadText(v, max)) == value && !ReadText(v, max).Rejected?
  {
  }

  lemma {:induction false} TrimAllFixed(list: seq<string>)
    requires forall s :: s in list ==> CleanText(s, MAX_LIST_ITEM_LENGTH)
    ensures TrimAll(Strings(list)) == Some(list)
  {
    if list != [] {
      var front, last := list[..|list| - 1], list[|list| - 1];
      assert last in list && list == front + [last];
      TrimAllFixed(front);
      TrimAllLast(front, last);
    }
  }

  lemma TrimAllLast(front: seq<string>, last: string)
    requires TrimAll(Strings(front)) == Some(front) && CleanText(last, MAX_LIST_ITEM_LENGTH)
    ensures TrimAll(Strings(front + [last])) == Some(front + [last])
  {
    var items := Strings(front + [last]);
    assert items[..|front|] == Strings(front) && items[|front|] == Str(last);
  }

  lemma StringListFixed(list: seq<string>)
    requires CleanList(list)
    ensures StringListOf(ValueOr(ListValue(list))) == Some(list)
  {
    TrimAllFixed(list);
  }

  lemma ConfigGets(config: NodeConfig)
    ensures var value := Obj(ConfigFields(config));
            && Property(value, "taskType") == ValueOr(TextValue(config.taskType))
            && Property(value, "agentId") == ValueOr(TextValue(config.agentId))
            && Property(value, "capability") == ValueOr(TextValue(config.capability))
            && Property(value, "approvalAction") == ValueOr(TextValue(config.approvalAction))
            && Property(value, "expectedTools") == ValueOr(ListValue(config.expectedTools))
            && Property(value, "acceptanceCriteria") == ValueOr(ListValue(config.acceptanceCriteria))
  {
    var values := [TextValue(config.taskType), TextValue(config.agentId), TextValue(config.capability),
                   TextValue(config.approvalAction), ListValue(config.expectedTools),
                   ListValue(config.acceptanceCriteria)];
    forall i: nat | i < 6 ensures Get(Table(CONFIG_KEYS, values), CONFIG_KEYS[i]) == ValueOr(values[i]) {
      GetTable(CONFIG_KEYS, values, i);
    }
    assert CONFIG_KEYS[0] == "taskType" && CONFIG_KEYS[1] == "agentId" && CONFIG_KEYS[2] == "capability";
    assert CONFIG_KEYS[3] == "approvalAction" && CONFIG_KEYS[4] == "expectedTools";
    assert CONFIG_KEYS[5] == "acceptanceCriteria";
  }

  lemma ConfigFixed(config: NodeConfig, id: Id)
    requires CleanConfig(config)
    ensures ReadConfig(Obj(ConfigFields(config))) == config
    ensures ConfigIssues(Obj(ConfigFields(config)), id) == []
  {
    ConfigGets(config);
    ReadTextFixed(config.taskType, MAX_LIST_ITEM_LENGTH);
    ReadTextFixed(config.agentId, MAX_LIST_ITEM_LENGTH);
    ReadTextFixed(config.capability, MAX_LIST_ITEM_LENGTH);
    ReadTextFixed(config.approvalAction, MAX_LIST_ITEM_LENGTH);
    StringListFixed(config.expectedTools);
    StringListFixed(config.acceptanceCriteria);
  }

  lemma CoordinateFixed(x: int)
    requires InRange(x)
    ensures Coordinate(Whole(x)) == x
  {
  }

  lemma PositionGets(position: Position)
    ensures Property(Obj(PositionFields(position)), "x") == Whole(position.x)
    ensures Property(Obj(PositionFields(position)), "y") == Whole(position.y)
  {
    var values := [Some(Whole(position.x)), Some(Whole(position.y))];
    assert "x"[0] != "y"[0];
    GetTable(["x", "y"], values, 0);
    GetTable(["x", "y"], values, 1);
  }

  lemma EdgeGets(edge: WorkflowEdge)
    ensures var value := Obj(EdgeFields(edge));
            && Property(value, "id") == Str(edge.id) && Property(value, "from") == Str(edge.from)
            && Property(value, "to") == Str(edge.to)
  {
    var keys, values := ["id", "from", "to"], [Some(Str(edge.id)), Some(Str(edge.from)), Some(Str(edge.to))];
    assert "id"[0] != "to"[0];
    GetTable(keys, values, 0);
    GetTable(keys, values, 1);
    GetTable(keys, values, 2);
  }

  lemma PositionFixed(position: Position)
    requires InRange(position.x) && InRange(position.y)
    ensures var value := Obj(PositionFields(position));
            Coordinate(Property(value, "x")) == position.x && Coordinate(Property(value, "y")) == position.y
  {
    PositionGets(position);
    CoordinateFixed(position.x);
    CoordinateFixed(position.y);
  }

  lemma NodeGets(node: WorkflowNode)
    ensures var value := Obj(NodeFields(node));
            && Property(value, "id") == Str(node.id) && Property(value, "kind") == Str(KindName(node.kind))
            && Property(value, "label") == Str(node.labelText)
            && Property(value, "description") == ValueOr(TextValue(node.description))
            && Property(value, "config") == Obj(ConfigFields(node.config))
            && Property(value, "position") == Obj(PositionFields(node.position))
  {
    var values := [Some(Str(node.id)), Some(Str(KindName(node.kind))), Some(Str(node.labelText)),
                   TextValue(node.description), Some(Obj(ConfigFields(node.config))),
                   Some(Obj(PositionFields(node.position)))];
    forall i: nat | i < 6 ensures Get(Table(NODE_KEYS, values), NODE_KEYS[i]) == ValueOr(values[i]) {
      GetTable(NODE_KEYS, values, i);
    }
    assert NODE_KEYS[0] == "id" && NODE_KEYS[1] == "kind" && NODE_KEYS[2] == "label";
    assert NODE_KEYS[3] == "description" && NODE_KEYS[4] == "config" && NODE_KEYS[5] == "position";
  }

  lemma KindFixed(kind: NodeKind)
    ensures ReadKind(Str(KindName(kind))) == Some(kind)
  {
    assert "approval"[0] != "terminal"[0];
  }

  lemma NodeFixed(node: WorkflowNode, seen: set<Id>)
    requires WellFormedNode(node) && node.id !in seen
    ensures ReadNode(Obj(NodeFields(node)), seen) == Reading(Some(node), [])
    ensures SeenAfter(Obj(NodeFields(node)), seen) == seen + {node.id}
  {
    NodeGets(node);
    KindFixed(node.kind);
    ReadTextFixed(Some(node.labelText), MAX_LABEL);
    ReadTextFixed(node.description, MAX_DESCRIPTION);
    ConfigFixed(node.config, node.id);
    PositionFixed(node.position);
  }

  function NodeIdSet(nodes: seq<WorkflowNode>): set<Id>
  {
    set n | n in nodes :: n.id
  }

  lemma ReadNodesAppend(raws: seq<Value>, raw: Value, nodes: seq<WorkflowNode>, node: WorkflowNode, seen: set<Id>)
    requires ReadNodes(raws) == Progress(nodes, [], seen)
    requires ReadNode(raw, seen) == Reading(Some(node), []) && SeenAfter(raw, seen) == seen + {node.id}
    ensures ReadNodes(raws + [raw]) == Progress(nodes + [node], [], seen + {node.id})
  {
    assert (raws + [raw])[..|raws|] == raws;
  }

  lemma NodeValuesAppend(nodes: seq<WorkflowNode>)
    requires nodes != []
    ensures var last := |nodes| - 1;
            && NodeValues(nodes) == NodeValues(nodes[..last]) + [Obj(NodeFields(nodes[last]))]
            && nodes == nodes[..last] + [nodes[last]]
            && NodeIdSet(nodes) == NodeIdSet(nodes[..last]) + {nodes[last].id}
  {
    var last := |nodes| - 1;
    assert nodes == nodes[..last] + [nodes[last]];
  }

  lemma {:induction false} NodesFixed(nodes: seq<WorkflowNode>)
    requires forall n :: n in nodes ==> WellFormedNode(n)
    requires forall i, j :: 0 <= i < j < |nodes| ==> nodes[i].id != nodes[j].id
    ensures ReadNodes(NodeValues(nodes)) == Progress(nodes, [], NodeIdSet(nodes))
  {
    if nodes != [] {
      var last := |nodes| - 1;
      NodesFixed(nodes[..last]);
      NodeFixed(nodes[last], NodeIdSet(nodes[..last]));
      NodeValuesAppend(nodes);
      ReadNodesAppend(NodeValues(nodes[..last]), Obj(NodeFields(nodes[last])), nodes[..last], nodes[last],
                      NodeIdSet(nodes[..last]));
    }
  }

  lemma EdgeFixed(edge: WorkflowEdge, seen: set<Id>)
    requires IsId(edge.id) && edge.id !in seen
    ensures ReadEdge(Obj(EdgeFields(edge)), seen) == Reading(Some(edge), [])
    ensures EdgesSeenAfter(Obj(EdgeFields(edge)), seen) == seen + {edge.id}
  {
    EdgeGets(edge);
  }

  function EdgeIdSet(edges: seq<WorkflowEdge>): set<Id>
  {
    set e | e in edges :: e.id
  }

  lemma ReadEdgesAppend(raws: seq<Value>, raw: Value, edges: seq<WorkflowEdge>, edge: WorkflowEdge, seen: set<Id>)
    requires ReadEdges(raws) == Progress(edges, [], seen)
    requires ReadEdge(raw, seen) == Reading(Some(edge), []) && EdgesSeenAfter(raw, seen) == seen + {edge.id}
    ensures ReadEdges(raws + [raw]) == Progress(edges + [edge], [], seen + {edge.id})
  {
    assert (raws + [raw])[..|raws|] == raws;
  }

  lemma EdgeValuesAppend(edges: seq<WorkflowEdge>)
    requires edges != []
    ensures var last := |edges| - 1;
            && EdgeValues(edges) == EdgeValues(edges[..last]) + [Obj(EdgeFields(edges[last]))]
            && edges == edges[..last] + [edges[last]]
            && EdgeIdSet(edges) == EdgeIdSet(edges[..last]) + {edges[last].id}
  {
    var last := |edges| - 1;
    assert edges == edges[..last] + [edges[last]];
  }

  lemma {:induction false} EdgesFixed(edges: seq<WorkflowEdge>)
    requires forall e :: e in edges ==> IsId(e.id)
    requires forall i, j :: 0 <= i < j < |edges| ==> edges[i].id != edges[j].id
    ensures ReadEdges(EdgeValues(edges)) == Progress(edges, [], EdgeIdSet(edges))
  {
    if edges != [] {
      var last := |edges| - 1;
      EdgesFixed(edges[..last]);
      EdgeFixed(edges[last], EdgeIdSet(edges[..last]));
      EdgeValuesAppend(edges);
      ReadEdgesAppend(EdgeValues(edges[..last]), Obj(EdgeFields(edges[last])), edges[..last], edges[last],
                      EdgeIdSet(edges[..last]));
    }
  }

  lemma GraphGets(graph: WorkflowGraph)
    ensures Property(GraphValue(graph), "nodes") == Arr(NodeValues(graph.nodes))
    ensures Property(GraphValue(graph), "edges") == Arr(EdgeValues(graph.edges))
  {
    var values := [Some(Arr(NodeValues(graph.nodes))), Some(Arr(EdgeValues(graph.edges)))];
    assert "nodes"[0] != "edges"[0];
    GetTable(["nodes", "edges"], values, 0);
    GetTable(["nodes", "edges"], values, 1);
  }

  /** A well-formed graph fed back in comes out the same, with nothing to complain about. */
  lemma WellFormedFixed(graph: WorkflowGraph)
    requires WellFormed(graph)
    ensures Normalized(GraphValue(graph)) == (graph, [])
  {
    GraphGets(graph);
    NodesFixed(graph.nodes);
    EdgesFixed(graph.edges);
    assert Normalized(GraphValue(graph)).1 == [] + [];
  }

  /** Normalising is a projection onto the well-formed graphs. */
  lemma NormalizeIsProjection(input: Value)
    ensures Normalized(GraphValue(Normalized(input).0)) == (Normalized(input).0, [])
  {
    NormalizedWellFormed(input);
    WellFormedFixed(Normalized(input).0);
  }

  // ----- nothing is dropped silently ----------------------------------------

  lemma {:induction false} UncomplainedNodesKept(raws: seq<Value>)
    ensures ReadNodes(raws).issues == [] ==> |ReadNodes(raws).kept| == |raws|
  {
    if raws != [] {
      UncomplainedNodesKept(raws[..|raws| - 1]);
    }
  }

  lemma {:induction false} UncomplainedEdgesKept(raws: seq<Value>)
    ensures ReadEdges(raws).issues == [] ==> |ReadEdges(raws).kept| == |raws|
  {
    if raws != [] {
      UncomplainedEdgesKept(raws[..|raws| - 1]);
    }
  }

  /** Without an issue every node and every edge of the input is in the graph. */
  lemma NothingDroppedSilently(input: Value)
    requires Normalized(input).1 == []
    ensures HasShape(input)
    ensures |Normalized(input).0.nodes| == |Property(input, "nodes").items|
    ensures |Normalized(input).0.edges| == |Property(input, "edges").items|
  {
    UncomplainedNodesKept(Property(input, "nodes").items);
    UncomplainedEdgesKept(Property(input, "edges").items);
  }
}
