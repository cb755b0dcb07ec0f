/** Canonical JSON identifies exactly the values that differ in key order only, and so tells graphs apart. */
module CanonicalGraphs {
  import opened Wrappers
  import opened Ordering
  import opened Values
  import opened WorkflowGraphs
  import opened NormalizationProperties
  import opened CanonicalJson

  /** Equal but for the order of keys, at every depth. */
  ghost predicate Same(a: Value, b: Value)
    decreases a
  {
    match a
    case Arr(items) =>
      && b.Arr? && |items| == |b.items|
      && forall i :: 0 <= i < |items| ==> Same(items[i], b.items[i])
    case Obj(fields) =>
      && b.Obj?
      && (forall k :: k in Keys(fields) <==> k in Keys(b.fields))
      && forall i, j :: 0 <= i < |fields| && 0 <= j < |b.fields| && fields[i].key == b.fields[j].key ==>
           Same(fields[i].value, b.fields[j].value)
    case _ => a == b
  }

  lemma {:induction false} GetAt(fields: seq<Field>, i: nat)
    requires NoDuplicates(Keys(fields)) && i < |fields|
    ensures Get(fields, fields[i].key) == fields[i].value
  {
    if i > 0 {
      assert Keys(fields)[0] != Keys(fields)[i];
      assert Keys(fields[1..]) == Keys(fields)[1..];
      GetAt(fields[1..], i - 1);
    }
  }

  lemma KeyIndex(fields: seq<Field>, key: string) returns (i: nat)
    requires key in Keys(fields)
    ensures i < |fields| && fields[i].key == key
  {
    i :| 0 <= i < |fields| && Keys(fields)[i] == key;
  }

  lemma ReorderKeys(fields: seq<Field>)
    requires NoDuplicates(Keys(fields))
    ensures Keys(Reorder(fields)) == Sort(Keys(fields)) && NoDuplicates(Keys(Reorder(fields)))
    ensures forall k :: k in Keys(Reorder(fields)) <==> k in Keys(fields)
  {
    SortLength(Keys(fields));
    SortNoDuplicates(Keys(fields));
    SortSameElements(Keys(fields));
  }

  lemma SameElementsSortEqual(a: seq<string>, b: seq<string>)
    requires NoDuplicates(a) && NoDuplicates(b) && forall k :: k in a <==> k in b
    ensures Sort(a) == Sort(b)
  {
    NoDuplicatesMultiset(a);
    NoDuplicatesMultiset(b);
    forall k ensures multiset(a)[k] == multiset(b)[k] {
      assert k in a <==> k in multiset(a);
      assert k in b <==> k in multiset(b);
    }
    SortSorted(a);
    SortSorted(b);
    SortedUnique(Sort(a), Sort(b));
  }

  ghost predicate SameGets(a: seq<Field>, b: seq<Field>)
  {
    && (forall k :: k in Keys(a) <==> k in Keys(b))
    && forall k :: k in Keys(a) ==> Get(a, k) == Get(b, k)
  }

  lemma ReorderAt(fields: seq<Field>, k: string)
    requires NoDuplicates(Keys(fields)) && k in Keys(fields)
    ensures Field(k, Get(fields, k)) in Reorder(fields)
  {
    ReorderKeys(fields);
    var m := KeyIndex(Reorder(fields), k);
    assert Reorder(fields)[m] in Reorder(fields);
  }

  lemma ReorderedMember(fields: seq<Field>, f: Field)
    requires f in Reorder(fields)
    ensures f.value == Get(fields, f.key)
  {
  }

  /** Two objects reorder to the same fields exactly when they have the same keys with the same values. */
  lemma ReorderEqual(a: seq<Field>, b: seq<Field>)
    requires NoDuplicates(Keys(a)) && NoDuplicates(Keys(b))
    ensures Reorder(a) == Reorder(b) <==> SameGets(a, b)
  {
    if Reorder(a) == Reorder(b) {
      ReorderSameGets(a, b);
    }
    if SameGets(a, b) {
      SameGetsReorder(a, b);
    }
  }

  lemma ReorderSameKeys(a: seq<Field>, b: seq<Field>)
    requires NoDuplicates(Keys(a)) && NoDuplicates(Keys(b)) && Reorder(a) == Reorder(b)
    ensures forall k :: k in Keys(a) <==> k in Keys(b)
  {
    ReorderKeys(a);
    ReorderKeys(b);
  }

  lemma ReorderSameGets(a: seq<Field>, b: seq<Field>)
    requires NoDuplicates(Keys(a)) && NoDuplicates(Keys(b)) && Reorder(a) == Reorder(b)
    ensures SameGets(a, b)
  {
    ReorderSameKeys(a, b);
    forall k | k in Keys(a) ensures Get(a, k) == Get(b, k) {
      ReorderAt(a, k);
      ReorderedMember(b, Field(k, Get(a, k)));
    }
  }

  lemma SameGetsReorder(a: seq<Field>, b: seq<Field>)
    requires NoDuplicates(Keys(a)) && NoDuplicates(Keys(b)) && SameGets(a, b)
    ensures Reorder(a) == Reorder(b)
  {
    SameElementsSortEqual(Keys(a), Keys(b));
    SortLength(Keys(a));
    SortLength(Keys(b));
    SortSameElements(Keys(a));
    forall m | 0 <= m < |Reorder(a)| ensures Reorder(a)[m] == Reorder(b)[m] {
      assert Sort(Keys(a))[m] in Keys(a);
    }
  }

  /** Looking a key up after the values were made canonical. */
  lemma GetCanonical(fields: seq<Field>, i: nat)
    requires NoDuplicates(Keys(fields)) && i < |fields|
    ensures Get(CanonicalFields(fields), fields[i].key) == Canonical(fields[i].value)
  {
    GetAt(CanonicalFields(fields), i);
  }

  /** The canonical forms agree exactly when the values differ in key order only. */
  lemma {:induction false} CanonicalIffSame(a: Value, b: Value)
    requires Plain(a) && Plain(b)
    ensures Canonical(a) == Canonical(b) <==> Same(a, b)
    decreases a
  {
    if a.Arr? && b.Arr? {
      ItemsIffSame(a.items, b.items);
    } else if a.Obj? && b.Obj? {
      FieldsIffSame(a.fields, b.fields);
    }
  }

  lemma {:induction false} ItemsIffSame(a: seq<Value>, b: seq<Value>)
    requires PlainItems(a) && PlainItems(b)
    ensures Canonical(Arr(a)) == Canonical(Arr(b)) <==> Same(Arr(a), Arr(b))
    decreases a
  {
    CanonicalArrays(a, b);
    if |a| == |b| {
      forall i | 0 <= i < |a| ensures Canonical(a[i]) == Canonical(b[i]) <==> Same(a[i], b[i]) {
        CanonicalIffSame(a[i], b[i]);
      }
    }
  }

  lemma {:induction false} FieldsIffSame(a: seq<Field>, b: seq<Field>)
    requires Plain(Obj(a)) && Plain(Obj(b))
    ensures Canonical(Obj(a)) == Canonical(Obj(b)) <==> Same(Obj(a), Obj(b))
    decreases a
  {
    hide Plain, Canonical, Same;
    PlainObject(a);
    PlainObject(b);
    CanonicalObjects(a, b);
    SameObjects(a, b);
    forall i, j | 0 <= i < |a| && 0 <= j < |b|
      ensures Canonical(a[i].value) == Canonical(b[j].value) <==> Same(a[i].value, b[j].value)
    {
      CanonicalIffSame(a[i].value, b[j].value);
    }
  }

  lemma PlainObject(fields: seq<Field>)
    requires Plain(Obj(fields))
    ensures NoDuplicates(Keys(fields)) && PlainFields(fields)
  {
  }

  ghost predicate SameFields(a: seq<Field>, b: seq<Field>)
  {
    && (forall k :: k in Keys(a) <==> k in Keys(b))
    && forall i, j :: 0 <= i < |a| && 0 <= j < |b| && a[i].key == b[j].key ==> Same(a[i].value, b[j].value)
  }

  lemma SameObjects(a: seq<Field>, b: seq<Field>)
    ensures Same(Obj(a), Obj(b)) <==> SameFields(a, b)
  {
  }

  lemma CanonicalArrays(a: seq<Value>, b: seq<Value>)
    ensures Canonical(Arr(a)) == Canonical(Arr(b))
            <==> |a| == |b| && forall i :: 0 <= i < |a| ==> Canonical(a[i]) == Canonical(b[i])
  {
    var ca, cb := Canonical(Arr(a)).items, Canonical(Arr(b)).items;
    assert |ca| == |a| && |cb| == |b|;
    assert forall i :: 0 <= i < |a| ==> ca[i] == Canonical(a[i]);
    assert forall i :: 0 <= i < |b| ==> cb[i] == Canonical(b[i]);
    if |a| == |b| && forall i :: 0 <= i < |a| ==> Canonical(a[i]) == Canonical(b[i]) {
      assert ca == cb;
    }
  }

  ghost predicate SameCanonicalFields(a: seq<Field>, b: seq<Field>)
  {
    && (forall k :: k in Keys(a) <==> k in Keys(b))
    && forall i, j :: 0 <= i < |a| && 0 <= j < |b| && a[i].key == b[j].key ==>
         Canonical(a[i].value) == Canonical(b[j].value)
  }

  lemma SameFieldsSameGets(a: seq<Field>, b: seq<Field>)
    requires NoDuplicates(Keys(a)) && NoDuplicates(Keys(b)) && SameCanonicalFields(a, b)
    ensures SameGets(CanonicalFields(a), CanonicalFields(b))
  {
    hide Canonical, CanonicalFields, Get;
    forall k | k in Keys(a) ensures Get(CanonicalFields(a), k) == Get(CanonicalFields(b), k) {
      var i := KeyIndex(a, k);
      var j := KeyIndex(b, k);
      GetCanonical(a, i);
      GetCanonical(b, j);
    }
  }

  lemma SameGetsSameFields(a: seq<Field>, b: seq<Field>)
    requires NoDuplicates(Keys(a)) && NoDuplicates(Keys(b)) && SameGets(CanonicalFields(a), CanonicalFields(b))
    ensures SameCanonicalFields(a, b)
  {
    hide Canonical, CanonicalFields, Get;
    forall i, j | 0 <= i < |a| && 0 <= j < |b| && a[i].key == b[j].key
      ensures Canonical(a[i].value) == Canonical(b[j].value)
    {
      assert Keys(a)[i] in Keys(a);
      GetCanonical(a, i);
      GetCanonical(b, j);
    }
  }

  lemma CanonicalObjects(a: seq<Field>, b: seq<Field>)
    requires NoDuplicates(Keys(a)) && NoDuplicates(Keys(b))
    ensures Canonical(Obj(a)) == Canonical(Obj(b)) <==> SameCanonicalFields(a, b)
  {
    hide SameGets, SameCanonicalFields, CanonicalFields, Reorder;
    ReorderEqual(CanonicalFields(a), CanonicalFields(b));
    if SameCanonicalFields(a, b) {
      SameFieldsSameGets(a, b);
    }
    if SameGets(CanonicalFields(a), CanonicalFields(b)) {
      SameGetsSameFields(a, b);
    }
  }

  lemma {:induction false} CanonicalPlain(v: Value)
    requires Plain(v)
    ensures Plain(Canonical(v))
  {
    match v
    case Arr(items) =>
      forall i | 0 <= i < |items| ensures Plain(Canonical(items[i])) {
        CanonicalPlain(items[i]);
      }
    case Obj(fields) =>
      forall i | 0 <= i < |fields| ensures Plain(Canonical(fields[i].value)) {
        CanonicalPlain(fields[i].value);
      }
      ReorderPlain(CanonicalFields(fields));
    case _ =>
  }

  lemma ReorderPlain(fields: seq<Field>)
    requires NoDuplicates(Keys(fields)) && PlainFields(fields)
    ensures Plain(Obj(Reorder(fields)))
  {
    ReorderKeys(fields);
    forall m | 0 <= m < |Reorder(fields)| ensures Plain(Reorder(fields)[m].value) {
      assert Keys(Reorder(fields))[m] in Keys(fields);
      var i := KeyIndex(fields, Reorder(fields)[m].key);
      GetAt(fields, i);
    }
  }

  /** Sorted keys, then `JSON.stringify`. */
  ghost function CanonicalText(v: Value): string
    requires Plain(v)
  {
    CanonicalPlain(v);
    Stringify(Canonical(v))
  }

  /** The canonical text is blind to key order, and to nothing else. */
  lemma CanonicalTextExact(a: Value, b: Value)
    requires Plain(a) && Plain(b)
    ensures CanonicalText(a) == CanonicalText(b) <==> Same(a, b)
  {
    CanonicalIffSame(a, b);
    CanonicalPlain(a);
    CanonicalPlain(b);
    if CanonicalText(a) == CanonicalText(b) {
      StringifyInjective(Canonical(a), Canonical(b));
    }
  }

  // ----- graphs -------------------------------------------------------------

  lemma SameGet(a: seq<Field>, b: seq<Field>, key: string)
    requires NoDuplicates(Keys(a)) && NoDuplicates(Keys(b)) && Same(Obj(a), Obj(b))
    ensures Same(Get(a, key), Get(b, key))
  {
    if key in Keys(a) {
      var i := KeyIndex(a, key);
      var j := KeyIndex(b, key);
      GetAt(a, i);
      GetAt(b, j);
    } else {
      AbsentKey(a, key);
      AbsentKey(b, key);
    }
  }

  lemma AbsentKey(fields: seq<Field>, key: string)
    requires key !in Keys(fields)
    ensures Get(fields, key) == Undefined
  {
    forall f | f in fields ensures f.key != key {
      var i :| 0 <= i < |fields| && fields[i] == f;
      assert Keys(fields)[i] == f.key;
    }
    GetAbsent(fields, key);
  }

  lemma {:induction false} TablePlain(keys: seq<string>, values: seq<Option<Value>>)
    requires |keys| == |values| && NoDuplicates(keys)
    requires forall i :: 0 <= i < |values| && values[i].Some? ==> Plain(values[i].value)
    ensures Plain(Obj(Table(keys, values)))
  {
    if keys != [] {
      var rest := Table(keys[1..], values[1..]);
      TablePlain(keys[1..], values[1..]);
      if values[0].Some? {
        TableKeys(keys[1..], values[1..]);
        assert Keys(Table(keys, values)) == [keys[0]] + Keys(rest);
        forall i | 0 <= i < |rest| ensures Keys(rest)[i] != keys[0] {
          assert rest[i] in rest;
        }
      } else {
        assert Table(keys, values) == rest;
      }
    }
  }

  lemma ConfigPlain(config: NodeConfig)
    ensures Plain(Obj(ConfigFields(config)))
  {
    var values := [TextValue(config.taskType), TextValue(config.agentId), TextValue(config.capability),
                   TextValue(config.approvalAction), ListValue(config.expectedTools),
                   ListValue(config.acceptanceCriteria)];
    TablePlain(CONFIG_KEYS, values);
  }

  lemma PositionPlain(position: Position)
    ensures Plain(Obj(PositionFields(position)))
  {
    assert "x"[0] != "y"[0];
    TablePlain(["x", "y"], [Some(Whole(position.x)), Some(Whole(position.y))]);
  }

  lemma NodePlain(node: WorkflowNode)
    ensures Plain(Obj(NodeFields(node)))
  {
    ConfigPlain(node.config);
    PositionPlain(node.position);
    TablePlain(NODE_KEYS, [Some(Str(node.id)), Some(Str(KindName(node.kind))), Some(Str(node.labelText)),
                           TextValue(node.description), Some(Obj(ConfigFields(node.config))),
                           Some(Obj(PositionFields(node.position)))]);
  }

  lemma EdgePlain(edge: WorkflowEdge)
    ensures Plain(Obj(EdgeFields(edge)))
  {
    assert "id"[0] != "to"[0];
    TablePlain(["id", "from", "to"], [Some(Str(edge.id)), Some(Str(edge.from)), Some(Str(edge.to))]);
  }

  lemma GraphPlain(graph: WorkflowGraph)
    ensures Plain(GraphValue(graph))
  {
    forall i | 0 <= i < |graph.nodes| ensures Plain(NodeValues(graph.nodes)[i]) {
      NodePlain(graph.nodes[i]);
    }
    forall i | 0 <= i < |graph.edges| ensures Plain(EdgeValues(graph.edges)[i]) {
      EdgePlain(graph.edges[i]);
    }
    TablePlain(["nodes", "edges"], [Some(Arr(NodeValues(graph.nodes))), Some(Arr(EdgeValues(graph.edges)))]);
  }

  lemma SameText(a: Option<string>, b: Option<string>)
    requires Same(ValueOr(TextValue(a)), ValueOr(TextValue(b)))
    ensures a == b
  {
  }

  lemma SameList(a: seq<string>, b: seq<string>)
    requires Same(ValueOr(ListValue(a)), ValueOr(ListValue(b)))
    ensures a == b
  {
    if a != [] {
      forall i | 0 <= i < |a| ensures a[i] == b[i] {
        assert Same(Strings(a)[i], Strings(b)[i]);
      }
    }
  }

  lemma SameConfigs(a: NodeConfig, b: NodeConfig)
    requires Same(Obj(ConfigFields(a)), Obj(ConfigFields(b)))
    ensures a == b
  {
    var f, g := ConfigFields(a), ConfigFields(b);
    ConfigPlain(a);
    ConfigPlain(b);
    ConfigGets(a);
    ConfigGets(b);
    SameGet(f, g, "taskType");
    SameGet(f, g, "agentId");
    SameGet(f, g, "capability");
    SameGet(f, g, "approvalAction");
    SameGet(f, g, "expectedTools");
    SameGet(f, g, "acceptanceCriteria");
    SameText(a.taskType, b.taskType);
    SameText(a.agentId, b.agentId);
    SameText(a.capability, b.capability);
    SameText(a.approvalAction, b.approvalAction);
    SameList(a.expectedTools, b.expectedTools);
    SameList(a.acceptanceCriteria, b.acceptanceCriteria);
  }

  lemma SamePositions(a: Position, b: Position)
    requires Same(Obj(PositionFields(a)), Obj(PositionFields(b)))
    ensures a == b
  {
    PositionPlain(a);
    PositionPlain(b);
    PositionGets(a);
    PositionGets(b);
    SameGet(PositionFields(a), PositionFields(b), "x");
    SameGet(PositionFields(a), PositionFields(b), "y");
    assert (a.x as real).Floor == (b.x as real).Floor && (a.y as real).Floor == (b.y as real).Floor;
  }

  lemma SameNodes(a: WorkflowNode, b: WorkflowNode)
    requires Same(Obj(NodeFields(a)), Obj(NodeFields(b)))
    ensures a == b
  {
    var f, g := NodeFields(a), NodeFields(b);
    NodePlain(a);
    NodePlain(b);
    NodeGets(a);
    NodeGets(b);
    SameGet(f, g, "id");
    SameGet(f, g, "kind");
    SameGet(f, g, "label");
    SameGet(f, g, "description");
    SameGet(f, g, "config");
    SameGet(f, g, "position");
    KindFixed(a.kind);
    KindFixed(b.kind);
    SameText(a.description, b.description);
    SameConfigs(a.config, b.config);
    SamePositions(a.position, b.position);
  }

  lemma SameEdges(a: WorkflowEdge, b: WorkflowEdge)
    requires Same(Obj(EdgeFields(a)), Obj(EdgeFields(b)))
    ensures a == b
  {
    EdgePlain(a);
    EdgePlain(b);
    EdgeGets(a);
    EdgeGets(b);
    SameGet(EdgeFields(a), EdgeFields(b), "id");
    SameGet(EdgeFields(a), EdgeFields(b), "from");
    SameGet(EdgeFields(a), EdgeFields(b), "to");
  }

  lemma SameGraphs(g: WorkflowGraph, h: WorkflowGraph)
    requires Same(GraphValue(g), GraphValue(h))
    ensures g == h
  {
    GraphPlain(g);
    GraphPlain(h);
    GraphGets(g);
    GraphGets(h);
    SameGet(GraphFields(g), GraphFields(h), "nodes");
    SameGet(GraphFields(g), GraphFields(h), "edges");
    forall i | 0 <= i < |g.nodes| ensures g.nodes[i] == h.nodes[i] {
      assert Same(NodeValues(g.nodes)[i], NodeValues(h.nodes)[i]);
      SameNodes(g.nodes[i], h.nodes[i]);
    }
    forall i | 0 <= i < |g.edges| ensures g.edges[i] == h.edges[i] {
      assert Same(EdgeValues(g.edges)[i], EdgeValues(h.edges)[i]);
      SameEdges(g.edges[i], h.edges[i]);
    }
  }

  ghost function CanonicalGraphJson(graph: WorkflowGraph): string
  {
    GraphPlain(graph);
    CanonicalText(GraphValue(graph))
  }

  /** Graphs with the same canonical text, and so anything with the same hash input, are the same graph. */
  lemma CanonicalGraphJsonInjective(g: WorkflowGraph, h: WorkflowGraph)
    requires CanonicalGraphJson(g) == CanonicalGraphJson(h)
    ensures g == h
  {
    GraphPlain(g);
    GraphPlain(h);
    CanonicalTextExact(GraphValue(g), GraphValue(h));
    SameGraphs(g, h);
  }
}
