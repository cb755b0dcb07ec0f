/**
 * What normalising does to any input, said of the properties of the raw values: which nodes and edges are kept, what
 * becomes of their texts, lists and coordinates, and what is complained about.
 */
module NormalizationMeaning {
  import opened Wrappers
  import opened Digraphs
  import opened Text
  import opened Values
  import opened WorkflowGraphs
  import opened Normalization
  import opened NormalizationProperties

  // ----- texts, lists, coordinates ------------------------------------------

  /** A text within the limit that is `t` but for the white space around it, and is not blank. */
  predicate IsText(value: Value, max: nat, t: string)
  {
    value.Str? && |value.s| <= max && Trim(value.s) == t && t != ""
  }

  /** Present, and not a text within the limit. */
  predicate TextFault(value: Value, max: nat)
  {
    !value.Undefined? && !value.Null? && !(value.Str? && |value.s| <= max)
  }

  /** The text if there is one, and otherwise nothing. */
  ghost predicate OptionalText(value: Value, max: nat, text: Option<string>)
  {
    forall t :: text == Some(t) <==> IsText(value, max, t)
  }

  /** A list of acceptable texts, item by item. */
  ghost predicate IsList(value: Value, list: seq<string>)
  {
    if value.Undefined? then list == []
    else
      && value.Arr? && |value.items| <= 20 && |list| == |value.items|
      && forall i :: 0 <= i < |list| ==> IsText(value.items[i], 200, list[i])
  }

  ghost predicate ListFault(value: Value)
  {
    forall list :: !IsList(value, list)
  }

  ghost predicate ListOrNothing(value: Value, list: seq<string>)
  {
    IsList(value, list) || (ListFault(value) && list == [])
  }

  /** The nearest whole number, halves upwards. */
  predicate Nearest(r: real, n: int)
  {
    n as real - 0.5 <= r < n as real + 0.5
  }

  predicate Clamps(n: int, x: int)
  {
    if n < -100_000 then x == -100_000
    else if n > 100_000 then x == 100_000
    else x == n
  }

  ghost predicate IsCoordinate(value: Value, x: int)
  {
    if value.Num? && value.n.Finite? then exists n :: Nearest(value.n.r, n) && Clamps(n, x) else x == 0
  }

  lemma ReadTextMeans(value: Value, max: nat)
    ensures OptionalText(value, max, Kept(ReadText(value, max)))
    ensures ReadText(value, max).Rejected? <==> TextFault(value, max)
    ensures forall t :: ReadText(value, max) == Given(t) <==> IsText(value, max, t)
  {
  }

  ghost predicate NoText(value: Value, max: nat)
  {
    forall t :: !IsText(value, max, t)
  }

  lemma {:induction false} TrimAllMeans(items: seq<Value>)
    ensures TrimAll(items).Some? ==>
              |TrimAll(items).value| == |items|
              && forall i :: 0 <= i < |items| ==> IsText(items[i], 200, TrimAll(items).value[i])
    ensures TrimAll(items).None? ==>
              exists i :: 0 <= i < |items| && NoText(items[i], 200)
  {
    if items != [] {
      var last := |items| - 1;
      TrimAllMeans(items[..last]);
      if TrimAll(items[..last]).None? {
        var i :| 0 <= i < last && NoText(items[..last][i], 200);
        assert items[i] == items[..last][i];
      } else if TrimAll(items).None? {
        assert NoText(items[last], 200);
      }
    }
  }

  lemma StringListMeans(value: Value)
    ensures forall list :: StringListOf(value) == Some(list) <==> IsList(value, list)
    ensures StringListOf(value).None? <==> ListFault(value)
  {
    if value.Arr? {
      TrimAllMeans(value.items);
    }
    forall list ensures StringListOf(value) == Some(list) <==> IsList(value, list) {
      if IsList(value, list) && !value.Undefined? {
        SameList(value, list);
      }
    }
    if StringListOf(value).Some? {
      assert IsList(value, StringListOf(value).value);
    }
  }

  lemma SameList(value: Value, list: seq<string>)
    requires value.Arr? && IsList(value, list)
    ensures TrimAll(value.items) == Some(list)
  {
    TrimAllMeans(value.items);
    assert forall i :: 0 <= i < |list| ==> IsText(value.items[i], 200, list[i]);
    assert forall i :: 0 <= i < |list| ==> !NoText(value.items[i], 200);
    assert TrimAll(value.items).value == list;
  }

  lemma CoordinateMeans(value: Value)
    ensures IsCoordinate(value, Coordinate(value))
  {
    if value.Num? && value.n.Finite? {
      var n := (value.n.r + 0.5).Floor;
      assert Nearest(value.n.r, n) && Clamps(n, Coordinate(value));
    }
  }

  /** White space around a text, within the limit, makes no difference. */
  lemma PaddingIgnored(a: string, s: string, b: string, max: nat, t: string)
    requires AllSpace(a) && AllSpace(b) && |a + s + b| <= max
    ensures IsText(Str(a + s + b), max, t) <==> IsText(Str(s), max, t)
    ensures TextFault(Str(a + s + b), max) <==> TextFault(Str(s), max)
  {
    TrimPadded(a, s, b);
  }

  // ----- one node -----------------------------------------------------------

  predicate HasName(raw: Value, id: Id)
  {
    raw.Obj? && Property(raw, "id") == Str(id) && IsId(id)
  }

  /** An id has up to 64 characters: letters and digits of ASCII, underscores and hyphens. */
  lemma NamesAre(raw: Value, id: Id)
    ensures HasName(raw, id) <==>
            && raw.Obj? && Property(raw, "id") == Str(id) && 1 <= |id| <= 64
            && forall i :: 0 <= i < |id| ==>
                 '0' <= id[i] <= '9' || 'A' <= id[i] <= 'Z' || 'a' <= id[i] <= 'z' || id[i] == '_' || id[i] == '-'
  {
    assert forall i :: 0 <= i < |id| ==> id[i] in id;
  }

  predicate OfKind(raw: Value, kind: NodeKind)
  {
    Property(raw, "kind") == Str(KindName(kind))
  }

  /** The four kinds there are, and how they are written. */
  lemma KindsAre(raw: Value, kind: NodeKind)
    ensures OfKind(raw, kind) <==>
            var name := Property(raw, "kind");
            || (kind == Trigger && name == Str("trigger")) || (kind == AgentTask && name == Str("agent_task"))
            || (kind == Approval && name == Str("approval")) || (kind == Terminal && name == Str("terminal"))
  {
  }

  ghost predicate ConfigFrom(raw: Value, config: NodeConfig)
  {
    && OptionalText(Property(raw, "taskType"), 200, config.taskType)
    && OptionalText(Property(raw, "agentId"), 200, config.agentId)
    && OptionalText(Property(raw, "capability"), 200, config.capability)
    && OptionalText(Property(raw, "approvalAction"), 200, config.approvalAction)
    && ListOrNothing(Property(raw, "expectedTools"), config.expectedTools)
    && ListOrNothing(Property(raw, "acceptanceCriteria"), config.acceptanceCriteria)
  }

  ghost predicate ConfigFault(raw: Value)
  {
    || TextFault(Property(raw, "taskType"), 200)
    || TextFault(Property(raw, "agentId"), 200)
    || TextFault(Property(raw, "capability"), 200)
    || TextFault(Property(raw, "approvalAction"), 200)
    || ListFault(Property(raw, "expectedTools")) || ListFault(Property(raw, "acceptanceCriteria"))
  }

  /** The node is what the raw value says, field by field. */
  ghost predicate NodeFrom(raw: Value, node: WorkflowNode)
  {
    && HasName(raw, node.id) && OfKind(raw, node.kind)
    && IsText(Property(raw, "label"), 120, node.labelText)
    && OptionalText(Property(raw, "description"), 1000, node.description)
    && ConfigFrom(Property(raw, "config"), node.config)
    && IsCoordinate(Property(Property(raw, "position"), "x"), node.position.x)
    && IsCoordinate(Property(Property(raw, "position"), "y"), node.position.y)
  }

  lemma OptionalTextOnce(value: Value, max: nat, a: Option<string>, b: Option<string>)
    requires OptionalText(value, max, a) && OptionalText(value, max, b)
    ensures a == b
  {
    if a.Some? {
      assert a == Some(a.value);
    } else if b.Some? {
      assert b == Some(b.value);
    }
  }

  lemma ListOnce(value: Value, a: seq<string>, b: seq<string>)
    requires ListOrNothing(value, a) && ListOrNothing(value, b)
    ensures a == b
  {
    if IsList(value, a) {
      assert IsList(value, b);
    }
  }

  /** A raw value admits one node only. */
  lemma NodeFromOnce(raw: Value, a: WorkflowNode, b: WorkflowNode)
    requires NodeFrom(raw, a) && NodeFrom(raw, b)
    ensures a == b
  {
    hide IsText, OptionalText, ListOrNothing;
    var config := Property(raw, "config");
    KindMeans(raw);
    LabelOnce(Property(raw, "label"), a.labelText, b.labelText);
    OptionalTextOnce(Property(raw, "description"), 1000, a.description, b.description);
    OptionalTextOnce(Property(config, "taskType"), 200, a.config.taskType, b.config.taskType);
    OptionalTextOnce(Property(config, "agentId"), 200, a.config.agentId, b.config.agentId);
    OptionalTextOnce(Property(config, "capability"), 200, a.config.capability, b.config.capability);
    OptionalTextOnce(Property(config, "approvalAction"), 200,
                     a.config.approvalAction, b.config.approvalAction);
    ListOnce(Property(config, "expectedTools"), a.config.expectedTools, b.config.expectedTools);
    ListOnce(Property(config, "acceptanceCriteria"), a.config.acceptanceCriteria, b.config.acceptanceCriteria);
  }

  lemma LabelOnce(value: Value, s: string, t: string)
    requires IsText(value, 120, s) && IsText(value, 120, t)
    ensures s == t
  {
  }

  /** The first value of the list with this id. */
  ghost predicate FirstNamed(raws: seq<Value>, i: nat, id: Id)
    requires i < |raws|
  {
    HasName(raws[i], id) && forall j :: 0 <= j < i ==> !HasName(raws[j], id)
  }

  ghost predicate LabelAndDescriptionOk(raw: Value)
  {
    !NoText(Property(raw, "label"), 120)
    && !TextFault(Property(raw, "description"), 1000)
  }

  /** Kept is the first value with an id, if its kind is known and it has a label and no faulty description. */
  ghost predicate NodeKeepable(raws: seq<Value>, i: nat)
    requires i < |raws|
  {
    && (exists id :: FirstNamed(raws, i, id)) && (exists kind :: OfKind(raws[i], kind))
    && LabelAndDescriptionOk(raws[i])
  }

  /** What the value at a position is complained about for. */
  ghost predicate NodeComplaint(raws: seq<Value>, i: nat, issue: Issue)
    requires i < |raws|
  {
    match issue
    case InvalidShape(None) => forall id :: !HasName(raws[i], id)
    case DuplicateNodeId(id) => HasName(raws[i], id) && !FirstNamed(raws, i, id)
    case UnsupportedNodeKind(id) => FirstNamed(raws, i, id) && forall kind :: !OfKind(raws[i], kind)
    case InvalidShape(Some(id)) =>
      && FirstNamed(raws, i, id) && (exists kind :: OfKind(raws[i], kind))
      && (!LabelAndDescriptionOk(raws[i]) || ConfigFault(Property(raws[i], "config")))
    case _ => false
  }

  lemma ConfigMeans(raw: Value)
    ensures ConfigFrom(raw, ReadConfig(raw))
  {
    ReadTextMeans(Property(raw, "taskType"), 200);
    ReadTextMeans(Property(raw, "agentId"), 200);
    ReadTextMeans(Property(raw, "capability"), 200);
    ReadTextMeans(Property(raw, "approvalAction"), 200);
    ConfigListMeans(raw, "expectedTools");
    ConfigListMeans(raw, "acceptanceCriteria");
  }

  lemma ConfigListMeans(raw: Value, key: string)
    ensures ListOrNothing(Property(raw, key), ConfigList(raw, key))
    ensures StringListOf(Property(raw, key)).None? <==> ListFault(Property(raw, key))
  {
    StringListMeans(Property(raw, key));
  }

  lemma ConfigIssuesMean(raw: Value, id: Id)
    ensures forall issue :: issue in ConfigIssues(raw, id) <==> issue == InvalidShape(Some(id)) && ConfigFault(raw)
  {
    hide ReadText, TextFault, StringListOf, ListFault, Property, ConfigText, ConfigIssues;
    forall issue {
      ConfigIssueIs(raw, id, issue);
    }
    ConfigTextFaults(raw);
    ConfigListMeans(raw, "expectedTools");
    ConfigListMeans(raw, "acceptanceCriteria");
  }

  lemma ConfigIssueIs(raw: Value, id: Id, issue: Issue)
    ensures issue in ConfigIssues(raw, id) <==>
              && issue == InvalidShape(Some(id))
              && (|| ConfigText(raw, "taskType").Rejected? || ConfigText(raw, "agentId").Rejected?
                  || ConfigText(raw, "capability").Rejected? || ConfigText(raw, "approvalAction").Rejected?
                  || StringListOf(Property(raw, "expectedTools")).None?
                  || StringListOf(Property(raw, "acceptanceCriteria")).None?)
  {
    hide ConfigText, StringListOf, Property;
    var a := Complaint(ConfigText(raw, "taskType").Rejected?, id);
    var b := Complaint(ConfigText(raw, "agentId").Rejected?, id);
    var c := Complaint(ConfigText(raw, "capability").Rejected?, id);
    var d := Complaint(ConfigText(raw, "approvalAction").Rejected?, id);
    var e := Complaint(StringListOf(Property(raw, "expectedTools")).None?, id);
    var f := Complaint(StringListOf(Property(raw, "acceptanceCriteria")).None?, id);
    InSix(a, b, c, d, e, f, issue);
  }

  lemma InAppend(a: seq<Issue>, b: seq<Issue>, x: Issue)
    ensures x in a + b <==> x in a || x in b
  {
  }

  lemma InSix(a: seq<Issue>, b: seq<Issue>, c: seq<Issue>, d: seq<Issue>, e: seq<Issue>, f: seq<Issue>, x: Issue)
    ensures x in a + b + c + d + e + f <==> x in a || x in b || x in c || x in d || x in e || x in f
  {
    InAppend(a, b, x);
    InAppend(a + b, c, x);
    InAppend(a + b + c, d, x);
    InAppend(a + b + c + d, e, x);
    InAppend(a + b + c + d + e, f, x);
  }

  lemma ConfigTextFaults(raw: Value)
    ensures ConfigText(raw, "taskType").Rejected? <==> TextFault(Property(raw, "taskType"), 200)
    ensures ConfigText(raw, "agentId").Rejected? <==> TextFault(Property(raw, "agentId"), 200)
    ensures ConfigText(raw, "capability").Rejected? <==> TextFault(Property(raw, "capability"), 200)
    ensures ConfigText(raw, "approvalAction").Rejected?
            <==> TextFault(Property(raw, "approvalAction"), 200)
  {
    hide ReadText, TextFault, Property;
    ReadTextMeans(Property(raw, "taskType"), 200);
    ReadTextMeans(Property(raw, "agentId"), 200);
    ReadTextMeans(Property(raw, "capability"), 200);
    ReadTextMeans(Property(raw, "approvalAction"), 200);
  }

  lemma KindMeans(raw: Value)
    ensures forall kind :: ReadKind(Property(raw, "kind")) == Some(kind) <==> OfKind(raw, kind)
  {
    var value := Property(raw, "kind");
    assert "trigger"[0] != "agent_task"[0] && "trigger"[1] != "terminal"[1] && "agent_task"[1] != "approval"[1];
    assert "terminal"[0] != "agent_task"[0];
  }

  lemma NameMeans(raw: Value)
    ensures HasId(raw) <==> exists id :: HasName(raw, id)
    ensures HasId(raw) ==> HasName(raw, RawId(raw))
    ensures forall id :: HasName(raw, id) ==> HasId(raw) && id == RawId(raw)
  {
    if HasId(raw) {
      assert HasName(raw, RawId(raw));
    }
  }

  /** The ids met among the first values. */
  ghost predicate NamesSeen(raws: seq<Value>, seen: set<Id>)
  {
    forall id :: id in seen <==> exists j :: 0 <= j < |raws| && HasName(raws[j], id)
  }

  lemma ReadNodeMeans(raws: seq<Value>, i: nat, seen: set<Id>)
    requires i < |raws| && NamesSeen(raws[..i], seen)
    ensures ReadNode(raws[i], seen).result.Some? <==> NodeKeepable(raws, i)
    ensures ReadNode(raws[i], seen).result.Some? ==> NodeFrom(raws[i], ReadNode(raws[i], seen).result.value)
    ensures forall issue :: issue in ReadNode(raws[i], seen).issues <==> NodeComplaint(raws, i, issue)
  {
    hide ReadText, IsText, TextFault, HasId, RawId, ReadKind, HasName, FirstNamed, OfKind, MakeNode, ConfigIssues, IsId;
    var raw := raws[i];
    NameMeans(raw);
    SeenIsNotFirst(raws, i, seen);
    KindMeans(raw);
    LabelMeans(raw);
    if ReadNode(raw, seen).result.Some? {
      MakeNodeMeans(raw, RawId(raw), ReadKind(Property(raw, "kind")).value);
    }
    if HasId(raw) {
      ConfigIssuesMean(Property(raw, "config"), RawId(raw));
    }
  }

  lemma LabelMeans(raw: Value)
    ensures LabelAndDescriptionOk(raw) <==>
              && ReadText(Property(raw, "label"), 120).Given?
              && !ReadText(Property(raw, "description"), 1000).Rejected?
  {
    ReadTextMeans(Property(raw, "label"), 120);
    ReadTextMeans(Property(raw, "description"), 1000);
    if ReadText(Property(raw, "label"), 120).Given? {
      assert IsText(Property(raw, "label"), 120, ReadText(Property(raw, "label"), 120).text);
    }
  }

  lemma MakeNodeMeans(raw: Value, id: Id, kind: NodeKind)
    requires HasName(raw, id) && OfKind(raw, kind) && ReadText(Property(raw, "label"), 120).Given?
    ensures NodeFrom(raw, MakeNode(raw, id, kind, ReadText(Property(raw, "label"), 120).text,
                                   Kept(ReadText(Property(raw, "description"), 1000))))
  {
    hide ReadText, IsText, HasName, OfKind, ReadConfig, Coordinate;
    ReadTextMeans(Property(raw, "label"), 120);
    ReadTextMeans(Property(raw, "description"), 1000);
    ConfigMeans(Property(raw, "config"));
    CoordinateMeans(Property(Property(raw, "position"), "x"));
    CoordinateMeans(Property(Property(raw, "position"), "y"));
  }

  lemma SeenIsNotFirst(raws: seq<Value>, i: nat, seen: set<Id>)
    requires i < |raws| && NamesSeen(raws[..i], seen)
    ensures forall id :: FirstNamed(raws, i, id) <==> HasName(raws[i], id) && id !in seen
  {
    assert forall j :: 0 <= j < i ==> raws[..i][j] == raws[j];
  }

  // ----- the lists ----------------------------------------------------------

  ghost predicate Rising(at: seq<nat>, n: nat)
  {
    (forall k :: 0 <= k < |at| ==> at[k] < n) && forall j, k :: 0 <= j < k < |at| ==> at[j] < at[k]
  }

  ghost predicate NodesFrom(raws: seq<Value>, at: seq<nat>, nodes: seq<WorkflowNode>)
  {
    |at| == |nodes| && forall k :: 0 <= k < |at| ==> at[k] < |raws| && NodeFrom(raws[at[k]], nodes[k])
  }

  ghost predicate AllKeepable(raws: seq<Value>, at: seq<nat>)
  {
    forall i :: 0 <= i < |raws| ==> (i in at <==> NodeKeepable(raws, i))
  }

  /** The kept nodes are what the values at these positions say, in order, and no other value can be kept. */
  ghost predicate KeptNodes(raws: seq<Value>, at: seq<nat>, nodes: seq<WorkflowNode>)
  {
    Rising(at, |raws|) && NodesFrom(raws, at, nodes) && AllKeepable(raws, at)
  }

  ghost predicate NodesComplainedAbout(raws: seq<Value>, issues: seq<Issue>)
  {
    forall issue :: issue in issues <==> exists i :: 0 <= i < |raws| && NodeComplaint(raws, i, issue)
  }

  /** What is said of a value does not depend on those behind it. */
  lemma EarlierNode(raws: seq<Value>, n: nat, i: nat)
    requires i < n <= |raws|
    ensures NodeKeepable(raws[..n], i) <==> NodeKeepable(raws, i)
    ensures forall issue :: NodeComplaint(raws[..n], i, issue) <==> NodeComplaint(raws, i, issue)
  {
    hide HasName, OfKind, LabelAndDescriptionOk;
    assert forall j :: 0 <= j <= i ==> raws[..n][j] == raws[j];
    forall id ensures FirstNamed(raws[..n], i, id) <==> FirstNamed(raws, i, id) {
    }
  }

  lemma {:induction false} ReadNodesSeen(raws: seq<Value>)
    ensures NamesSeen(raws, ReadNodes(raws).seen)
  {
    if raws != [] {
      var last := |raws| - 1;
      ReadNodesSeen(raws[..last]);
      NamesSeenNext(raws, ReadNodes(raws[..last]).seen);
    }
  }

  lemma NamesSeenNext(raws: seq<Value>, seen: set<Id>)
    requires raws != [] && NamesSeen(raws[..|raws| - 1], seen)
    ensures NamesSeen(raws, SeenAfter(raws[|raws| - 1], seen))
  {
    hide HasName, HasId, RawId;
    var last := |raws| - 1;
    NameMeans(raws[last]);
    assert forall j :: 0 <= j < last ==> raws[..last][j] == raws[j];
  }

  /** The nodes of any list of values: which are kept, in order, and what of them. */
  lemma {:induction false} ReadNodesMean(raws: seq<Value>) returns (at: seq<nat>)
    ensures KeptNodes(raws, at, ReadNodes(raws).kept)
  {
    if raws == [] {
      at := [];
    } else {
      var last := |raws| - 1;
      var before := ReadNodesMean(raws[..last]);
      ReadNodesSeen(raws[..last]);
      ReadNodeMeans(raws, last, ReadNodes(raws[..last]).seen);
      var reading := ReadNode(raws[last], ReadNodes(raws[..last]).seen);
      at := if reading.result.Some? then before + [last] else before;
      KeptNodesNext(raws, before, ReadNodes(raws[..last]).kept, reading.result);
    }
  }

  lemma KeptNodesNext(raws: seq<Value>, at: seq<nat>, nodes: seq<WorkflowNode>, result: Option<WorkflowNode>)
    requires raws != [] && KeptNodes(raws[..|raws| - 1], at, nodes)
    requires result.Some? <==> NodeKeepable(raws, |raws| - 1)
    requires result.Some? ==> NodeFrom(raws[|raws| - 1], result.value)
    ensures KeptNodes(raws, if result.Some? then at + [|raws| - 1] else at,
                      if result.Some? then nodes + [result.value] else nodes)
  {
    hide NodeKeepable, NodeFrom, Rising, NodesFrom, AllKeepable;
    RisingNext(at, |raws| - 1);
    KeepableNext(raws, at);
    FromNext(raws, at, nodes);
    if result.Some? {
      OneMoreFrom(raws, at, nodes, result.value);
    }
  }

  lemma RisingNext(at: seq<nat>, n: nat)
    requires Rising(at, n)
    ensures Rising(at, n + 1) && Rising(at + [n], n + 1) && n !in at
  {
  }

  lemma KeepableNext(raws: seq<Value>, at: seq<nat>)
    requires raws != [] && AllKeepable(raws[..|raws| - 1], at) && |raws| - 1 !in at
    ensures AllKeepable(raws, if NodeKeepable(raws, |raws| - 1) then at + [|raws| - 1] else at)
  {
    hide NodeKeepable;
    var last := |raws| - 1;
    forall i | 0 <= i < last ensures NodeKeepable(raws[..last], i) <==> NodeKeepable(raws, i) {
      EarlierNode(raws, last, i);
    }
  }

  lemma FromNext(raws: seq<Value>, at: seq<nat>, nodes: seq<WorkflowNode>)
    requires raws != [] && NodesFrom(raws[..|raws| - 1], at, nodes)
    ensures NodesFrom(raws, at, nodes)
  {
    hide NodeFrom;
  }

  lemma OneMoreFrom(raws: seq<Value>, at: seq<nat>, nodes: seq<WorkflowNode>, node: WorkflowNode)
    requires raws != [] && NodesFrom(raws, at, nodes) && NodeFrom(raws[|raws| - 1], node)
    ensures NodesFrom(raws, at + [|raws| - 1], nodes + [node])
  {
    hide NodeFrom;
  }

  /** What is complained about: exactly what is wrong with some value. */
  lemma {:induction false} ReadNodesComplain(raws: seq<Value>)
    ensures NodesComplainedAbout(raws, ReadNodes(raws).issues)
  {
    if raws != [] {
      var last := |raws| - 1;
      ReadNodesComplain(raws[..last]);
      ReadNodesSeen(raws[..last]);
      ReadNodeMeans(raws, last, ReadNodes(raws[..last]).seen);
      ComplaintsNext(raws, ReadNodes(raws[..last]).issues,
                     ReadNode(raws[last], ReadNodes(raws[..last]).seen).issues);
    }
  }

  lemma ComplaintsNext(raws: seq<Value>, before: seq<Issue>, issues: seq<Issue>)
    requires raws != [] && NodesComplainedAbout(raws[..|raws| - 1], before)
    requires forall issue :: issue in issues <==> NodeComplaint(raws, |raws| - 1, issue)
    ensures NodesComplainedAbout(raws, before + issues)
  {
    hide NodeComplaint;
    var last := |raws| - 1;
    forall i, issue | 0 <= i < last
      ensures NodeComplaint(raws[..last], i, issue) <==> NodeComplaint(raws, i, issue)
    {
      EarlierNode(raws, last, i);
    }
  }

  // ----- edges --------------------------------------------------------------

  predicate EdgeFrom(raw: Value, edge: WorkflowEdge)
  {
    HasName(raw, edge.id) && Property(raw, "from") == Str(edge.from) && Property(raw, "to") == Str(edge.to)
  }

  ghost predicate EdgeNamed(raw: Value, id: Id)
  {
    HasName(raw, id) && Property(raw, "from").Str? && Property(raw, "to").Str?
  }

  ghost predicate FirstEdge(raws: seq<Value>, i: nat, id: Id)
    requires i < |raws|
  {
    EdgeNamed(raws[i], id) && forall j :: 0 <= j < i ==> !EdgeNamed(raws[j], id)
  }

  ghost predicate EdgeKeepable(raws: seq<Value>, i: nat)
    requires i < |raws|
  {
    exists id :: FirstEdge(raws, i, id)
  }

  ghost predicate EdgeComplaint(raws: seq<Value>, i: nat, issue: Issue)
    requires i < |raws|
  {
    match issue
    case InvalidShape(None) => forall id :: !EdgeNamed(raws[i], id)
    case DuplicateEdgeId(id) => EdgeNamed(raws[i], id) && !FirstEdge(raws, i, id)
    case _ => false
  }

  ghost predicate EdgesSeen(raws: seq<Value>, seen: set<Id>)
  {
    forall id :: id in seen <==> exists j :: 0 <= j < |raws| && EdgeNamed(raws[j], id)
  }

  lemma ReadEdgeMeans(raws: seq<Value>, i: nat, seen: set<Id>)
    requires i < |raws| && EdgesSeen(raws[..i], seen)
    ensures ReadEdge(raws[i], seen).result.Some? <==> EdgeKeepable(raws, i)
    ensures ReadEdge(raws[i], seen).result.Some? ==> EdgeFrom(raws[i], ReadEdge(raws[i], seen).result.value)
    ensures forall issue :: issue in ReadEdge(raws[i], seen).issues <==> EdgeComplaint(raws, i, issue)
    ensures EdgesSeen(raws[..i + 1], EdgesSeenAfter(raws[i], seen))
  {
    hide HasName, HasId, RawId;
    NameMeans(raws[i]);
    assert forall j :: 0 <= j < i ==> raws[..i][j] == raws[j];
    assert forall id :: FirstEdge(raws, i, id) <==> EdgeNamed(raws[i], id) && id !in seen;
    assert forall j :: 0 <= j <= i ==> raws[..i + 1][j] == raws[j];
  }

  ghost predicate EdgesFrom(raws: seq<Value>, at: seq<nat>, edges: seq<WorkflowEdge>)
  {
    |at| == |edges| && forall k :: 0 <= k < |at| ==> at[k] < |raws| && EdgeFrom(raws[at[k]], edges[k])
  }

  ghost predicate AllEdgesKeepable(raws: seq<Value>, at: seq<nat>)
  {
    forall i :: 0 <= i < |raws| ==> (i in at <==> EdgeKeepable(raws, i))
  }

  ghost predicate KeptEdges(raws: seq<Value>, at: seq<nat>, edges: seq<WorkflowEdge>)
  {
    Rising(at, |raws|) && EdgesFrom(raws, at, edges) && AllEdgesKeepable(raws, at)
  }

  ghost predicate EdgesComplainedAbout(raws: seq<Value>, issues: seq<Issue>)
  {
    forall issue :: issue in issues <==> exists i :: 0 <= i < |raws| && EdgeComplaint(raws, i, issue)
  }

  lemma EarlierEdge(raws: seq<Value>, n: nat, i: nat)
    requires i < n <= |raws|
    ensures EdgeKeepable(raws[..n], i) <==> EdgeKeepable(raws, i)
    ensures forall issue :: EdgeComplaint(raws[..n], i, issue) <==> EdgeComplaint(raws, i, issue)
  {
    hide EdgeNamed;
    assert forall j :: 0 <= j <= i ==> raws[..n][j] == raws[j];
    forall id ensures FirstEdge(raws[..n], i, id) <==> FirstEdge(raws, i, id) {
    }
  }

  lemma {:induction false} ReadEdgesSeen(raws: seq<Value>)
    ensures EdgesSeen(raws, ReadEdges(raws).seen)
  {
    if raws != [] {
      var last := |raws| - 1;
      ReadEdgesSeen(raws[..last]);
      ReadEdgeMeans(raws, last, ReadEdges(raws[..last]).seen);
      assert raws[..last + 1] == raws;
    }
  }

  /** The edges of any list of values. */
  lemma {:induction false} ReadEdgesMean(raws: seq<Value>) returns (at: seq<nat>)
    ensures KeptEdges(raws, at, ReadEdges(raws).kept)
  {
    if raws == [] {
      at := [];
    } else {
      var last := |raws| - 1;
      var before := ReadEdgesMean(raws[..last]);
      ReadEdgesSeen(raws[..last]);
      ReadEdgeMeans(raws, last, ReadEdges(raws[..last]).seen);
      var reading := ReadEdge(raws[last], ReadEdges(raws[..last]).seen);
      at := if reading.result.Some? then before + [last] else before;
      KeptEdgesNext(raws, before, ReadEdges(raws[..last]).kept, reading.result);
    }
  }

  lemma KeptEdgesNext(raws: seq<Value>, at: seq<nat>, edges: seq<WorkflowEdge>, result: Option<WorkflowEdge>)
    requires raws != [] && KeptEdges(raws[..|raws| - 1], at, edges)
    requires result.Some? <==> EdgeKeepable(raws, |raws| - 1)
    requires result.Some? ==> EdgeFrom(raws[|raws| - 1], result.value)
    ensures KeptEdges(raws, if result.Some? then at + [|raws| - 1] else at,
                      if result.Some? then edges + [result.value] else edges)
  {
    hide EdgeKeepable, EdgeFrom, Rising, EdgesFrom, AllEdgesKeepable;
    RisingNext(at, |raws| - 1);
    EdgeKeepableNext(raws, at);
    EdgesFromNext(raws, at, edges);
    if result.Some? {
      OneMoreEdge(raws, at, edges, result.value);
    }
  }

  lemma EdgeKeepableNext(raws: seq<Value>, at: seq<nat>)
    requires raws != [] && AllEdgesKeepable(raws[..|raws| - 1], at) && |raws| - 1 !in at
    ensures AllEdgesKeepable(raws, if EdgeKeepable(raws, |raws| - 1) then at + [|raws| - 1] else at)
  {
    hide EdgeKeepable;
    var last := |raws| - 1;
    forall i | 0 <= i < last ensures EdgeKeepable(raws[..last], i) <==> EdgeKeepable(raws, i) {
      EarlierEdge(raws, last, i);
    }
  }

  lemma EdgesFromNext(raws: seq<Value>, at: seq<nat>, edges: seq<WorkflowEdge>)
    requires raws != [] && EdgesFrom(raws[..|raws| - 1], at, edges)
    ensures EdgesFrom(raws, at, edges)
  {
    hide EdgeFrom;
  }

  lemma OneMoreEdge(raws: seq<Value>, at: seq<nat>, edges: seq<WorkflowEdge>, edge: WorkflowEdge)
    requires raws != [] && EdgesFrom(raws, at, edges) && EdgeFrom(raws[|raws| - 1], edge)
    ensures EdgesFrom(raws, at + [|raws| - 1], edges + [edge])
  {
    hide EdgeFrom;
  }

  lemma {:induction false} ReadEdgesComplain(raws: seq<Value>)
    ensures EdgesComplainedAbout(raws, ReadEdges(raws).issues)
  {
    if raws != [] {
      var last := |raws| - 1;
      ReadEdgesComplain(raws[..last]);
      ReadEdgesSeen(raws[..last]);
      ReadEdgeMeans(raws, last, ReadEdges(raws[..last]).seen);
      EdgeComplaintsNext(raws, ReadEdges(raws[..last]).issues,
                         ReadEdge(raws[last], ReadEdges(raws[..last]).seen).issues);
    }
  }

  lemma EdgeComplaintsNext(raws: seq<Value>, before: seq<Issue>, issues: seq<Issue>)
    requires raws != [] && EdgesComplainedAbout(raws[..|raws| - 1], before)
    requires forall issue :: issue in issues <==> EdgeComplaint(raws, |raws| - 1, issue)
    ensures EdgesComplainedAbout(raws, before + issues)
  {
    hide EdgeComplaint;
    var last := |raws| - 1;
    forall i, issue | 0 <= i < last
      ensures EdgeComplaint(raws[..last], i, issue) <==> EdgeComplaint(raws, i, issue)
    {
      EarlierEdge(raws, last, i);
    }
  }

  // ----- the whole input ----------------------------------------------------

  ghost predicate SomeNodeComplaint(raws: seq<Value>, issue: Issue)
  {
    exists i :: 0 <= i < |raws| && NodeComplaint(raws, i, issue)
  }

  ghost predicate SomeEdgeComplaint(raws: seq<Value>, issue: Issue)
  {
    exists i :: 0 <= i < |raws| && EdgeComplaint(raws, i, issue)
  }

  /** For every input: which nodes and edges are kept, what they say, and what is complained about. */
  lemma NormalizedExactly(input: Value) returns (nodesAt: seq<nat>, edgesAt: seq<nat>)
    ensures var ((graph, issues), nodes, edges) :=
              (Normalized(input), Property(input, "nodes"), Property(input, "edges"));
            if !(input.Obj? && nodes.Arr? && edges.Arr?) then
              graph == WorkflowGraph([], []) && issues == [InvalidShape(None)]
            else if |nodes.items| > 100 || |edges.items| > 300 then
              graph == WorkflowGraph([], []) && issues == [LimitExceeded]
            else
              && KeptNodes(nodes.items, nodesAt, graph.nodes) && KeptEdges(edges.items, edgesAt, graph.edges)
              && forall issue :: issue in issues
                   <==> SomeNodeComplaint(nodes.items, issue) || SomeEdgeComplaint(edges.items, issue)
  {
    nodesAt, edgesAt := [], [];
    if HasShape(input) {
      var nodes, edges := Property(input, "nodes").items, Property(input, "edges").items;
      nodesAt := ReadNodesMean(nodes);
      edgesAt := ReadEdgesMean(edges);
      ReadNodesComplain(nodes);
      ReadEdgesComplain(edges);
      hide KeptNodes, KeptEdges, NodeComplaint, EdgeComplaint, ReadNodes, ReadEdges;
      assert forall issue :: issue in ReadNodes(nodes).issues <==> SomeNodeComplaint(nodes, issue);
      assert forall issue :: issue in ReadEdges(edges).issues <==> SomeEdgeComplaint(edges, issue);
    }
  }
}
