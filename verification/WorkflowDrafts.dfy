/** `validateWorkflowDraft` of contracts/workflow.ts, and why an accepted draft can always make progress. */
module WorkflowDrafts {
  import opened Wrappers
  import opened Ordering
  import opened Digraphs
  import opened CycleDetection
  import opened Text

  /** `dependsOn` as it may arrive: absent, something that is not an array, or a list. */
  datatype DependsOn = Absent | NotArray | Listed(ids: seq<Id>)

  /** Text fields are `None` when what arrived is not a string. */
  datatype TaskDraft = TaskDraft(
    id: Option<string>,
    taskType: Option<string>,
    description: Option<string>,
    agentId: Option<string>,
    capability: Option<string>,
    dependsOn: DependsOn)

  /** List fields are `None` when what arrived is not an array. */
  datatype Draft = Draft(
    organizationId: Option<string>,
    name: Option<string>,
    description: Option<string>,
    projectId: Option<string>,
    participatingAgents: Option<seq<string>>,
    tasks: Option<seq<TaskDraft>>,
    failureBehavior: Option<string>)

  datatype DraftError =
    | NotAnObject
    | TextRequired(field: string)
    | AgentsRequired
    | TasksRequired
    | TaskTextRequired(index: nat)
    | AgentOrCapabilityRequired(index: nat)
    | DependsOnNotArray(index: nat)
    | DuplicateTask(id: Id)
    | SelfDependency(id: Id)
    | UnknownDependency(id: Id, dep: Id)
    | BadFailureBehavior
    | CircularDependency(cycle: seq<Id>)

  predicate HasText(value: Option<string>)
  {
    value.Some? && !IsBlank(value.value)
  }

  /** JavaScript truthiness of an optional string. */
  predicate Truthy(value: Option<string>)
  {
    value.Some? && value.value != ""
  }

  predicate TaskShapeOk(task: TaskDraft)
  {
    && HasText(task.id) && HasText(task.taskType) && HasText(task.description)
    && (Truthy(task.agentId) || Truthy(task.capability))
    && !task.dependsOn.NotArray?
  }

  function TaskId(task: TaskDraft): Id
  {
    if task.id.Some? then task.id.value else ""
  }

  /** `task.dependsOn ?? []` */
  function Deps(task: TaskDraft): seq<Id>
  {
    if task.dependsOn.Listed? then task.dependsOn.ids else []
  }

  function Nodes(tasks: seq<TaskDraft>): (nodes: seq<DependencyNode>)
    ensures |nodes| == |tasks|
  {
    seq(|tasks|, i requires 0 <= i < |tasks| => DependencyNode(TaskId(tasks[i]), Deps(tasks[i])))
  }

  function Ids(nodes: seq<DependencyNode>): set<Id>
  {
    set i | 0 <= i < |nodes| :: nodes[i].id
  }

  ghost predicate DistinctIds(nodes: seq<DependencyNode>)
  {
    forall i, j :: 0 <= i < j < |nodes| ==> nodes[i].id != nodes[j].id
  }

  ghost predicate DependenciesOk(nodes: seq<DependencyNode>, node: DependencyNode)
  {
    forall d :: d in node.dependsOn ==> d != node.id && d in Ids(nodes)
  }

  /** What makes a task graph safe to schedule. */
  ghost predicate Schedulable(nodes: seq<DependencyNode>)
  {
    && DistinctIds(nodes)
    && (forall i :: 0 <= i < |nodes| ==> DependenciesOk(nodes, nodes[i]))
    && Acyclic(DependencyEdges(DependencyMap(nodes)))
  }

  ghost predicate HeaderOk(draft: Draft)
  {
    && HasText(draft.organizationId) && HasText(draft.name) && HasText(draft.description) && HasText(draft.projectId)
    && draft.participatingAgents.Some? && draft.participatingAgents.value != []
    && draft.tasks.Some? && draft.tasks.value != []
  }

  predicate FailureBehaviorOk(value: Option<string>)
  {
    value.None? || value.value == "abort" || value.value == "continue"
  }

  ghost predicate Accepted(draft: Option<Draft>)
  {
    && draft.Some?
    && HeaderOk(draft.value)
    && (forall i :: 0 <= i < |draft.value.tasks.value| ==> TaskShapeOk(draft.value.tasks.value[i]))
    && FailureBehaviorOk(draft.value.failureBehavior)
    && Schedulable(Nodes(draft.value.tasks.value))
  }

  /** What a reported error says is true of the tasks. */
  ghost predicate TaskErrorHolds(tasks: seq<TaskDraft>, error: DraftError)
  {
    var nodes := Nodes(tasks);
    match error
    case TaskTextRequired(k) =>
      k < |tasks| && !(HasText(tasks[k].id) && HasText(tasks[k].taskType) && HasText(tasks[k].description))
    case AgentOrCapabilityRequired(k) => k < |tasks| && !Truthy(tasks[k].agentId) && !Truthy(tasks[k].capability)
    case DependsOnNotArray(k) => k < |tasks| && tasks[k].dependsOn.NotArray?
    case DuplicateTask(id) => exists i, j :: 0 <= i < j < |nodes| && nodes[i].id == id && nodes[j].id == id
    case SelfDependency(id) => exists i :: 0 <= i < |nodes| && nodes[i].id == id && id in nodes[i].dependsOn
    case UnknownDependency(id, dep) =>
      dep !in Ids(nodes) && exists i :: 0 <= i < |nodes| && nodes[i].id == id && dep in nodes[i].dependsOn
    case CircularDependency(cycle) => IsCycle(DependencyEdges(DependencyMap(nodes)), cycle)
    case _ => false
  }

  ghost predicate ErrorHolds(draft: Option<Draft>, error: DraftError)
  {
    if draft.None? then error == NotAnObject else
    var d := draft.value;
    match error
    case NotAnObject => false
    case TextRequired(field) =>
      || (field == "organizationId" && !HasText(d.organizationId))
      || (field == "name" && !HasText(d.name))
      || (field == "description" && !HasText(d.description))
      || (field == "projectId" && !HasText(d.projectId))
    case AgentsRequired => d.participatingAgents.None? || d.participatingAgents.value == []
    case TasksRequired => d.tasks.None? || d.tasks.value == []
    case BadFailureBehavior => !FailureBehaviorOk(d.failureBehavior)
    case _ => d.tasks.Some? && TaskErrorHolds(d.tasks.value, error)
  }

  method ValidateTaskSpec(task: TaskDraft, index: nat) returns (r: Result<(), DraftError>)
    ensures r.Ok? <==> TaskShapeOk(task)
    ensures r.Err? && r.error.TaskTextRequired? ==>
              !(HasText(task.id) && HasText(task.taskType) && HasText(task.description))
    ensures r.Err? && r.error.AgentOrCapabilityRequired? ==> !Truthy(task.agentId) && !Truthy(task.capability)
    ensures r.Err? && r.error.DependsOnNotArray? ==> task.dependsOn.NotArray?
    ensures r.Err? ==>
              r.error in {TaskTextRequired(index), AgentOrCapabilityRequired(index), DependsOnNotArray(index)}
  {
    if !HasText(task.id) || !HasText(task.taskType) || !HasText(task.description) {
      return Err(TaskTextRequired(index));
    }
    if !Truthy(task.agentId) && !Truthy(task.capability) {
      return Err(AgentOrCapabilityRequired(index));
    }
    if task.dependsOn.NotArray? {
      return Err(DependsOnNotArray(index));
    }
    return Ok(());
  }

  /** The two loops over task ids: no id twice, no dependency on oneself, every dependency known. */
  method ValidateIds(nodes: seq<DependencyNode>) returns (r: Result<(), DraftError>)
    ensures r.Ok? <==> DistinctIds(nodes) && forall i :: 0 <= i < |nodes| ==> DependenciesOk(nodes, nodes[i])
    ensures r.Err? ==> match r.error
                       case DuplicateTask(id) =>
                         exists i, j :: 0 <= i < j < |nodes| && nodes[i].id == id && nodes[j].id == id
                       case SelfDependency(id) =>
                         exists i :: 0 <= i < |nodes| && nodes[i].id == id && id in nodes[i].dependsOn
                       case UnknownDependency(id, dep) =>
                         && dep !in Ids(nodes)
                         && exists i :: 0 <= i < |nodes| && nodes[i].id == id && dep in nodes[i].dependsOn
                       case _ => false
  {
    var ids: set<Id> := {};
    for i := 0 to |nodes|
      invariant ids == Ids(nodes[..i])
      invariant DistinctIds(nodes[..i])
    {
      if nodes[i].id in ids {
        var j :| 0 <= j < i && nodes[..i][j].id == nodes[i].id;
        assert nodes[j].id == nodes[i].id;
        return Err(DuplicateTask(nodes[i].id));
      }
      ids := ids + {nodes[i].id};
      IdsAppend(nodes, i);
    }
    assert nodes[..|nodes|] == nodes;
    for i := 0 to |nodes|
      invariant forall k :: 0 <= k < i ==> DependenciesOk(nodes, nodes[k])
    {
      var deps := nodes[i].dependsOn;
      for k := 0 to |deps|
        invariant forall j :: 0 <= j < k ==> deps[j] != nodes[i].id && deps[j] in Ids(nodes)
      {
        if deps[k] == nodes[i].id {
          assert deps[k] in nodes[i].dependsOn && !DependenciesOk(nodes, nodes[i]);
          return Err(SelfDependency(nodes[i].id));
        }
        if deps[k] !in ids {
          assert deps[k] in nodes[i].dependsOn && !DependenciesOk(nodes, nodes[i]);
          return Err(UnknownDependency(nodes[i].id, deps[k]));
        }
      }
    }
    return Ok(());
  }

  lemma IdsAppend(nodes: seq<DependencyNode>, i: nat)
    requires i < |nodes|
    ensures Ids(nodes[..i + 1]) == Ids(nodes[..i]) + {nodes[i].id}
  {
    assert forall j :: 0 <= j < i ==> nodes[..i + 1][j] == nodes[..i][j];
    assert nodes[..i + 1][i] == nodes[i];
  }

  method ValidateHeader(d: Draft) returns (r: Result<(), DraftError>)
    ensures r.Ok? <==> HeaderOk(d)
    ensures r.Err? ==> ErrorHolds(Some(d), r.error)
  {
    if !HasText(d.organizationId) {
      return Err(TextRequired("organizationId"));
    }
    if !HasText(d.name) {
      return Err(TextRequired("name"));
    }
    if !HasText(d.description) {
      return Err(TextRequired("description"));
    }
    if !HasText(d.projectId) {
      return Err(TextRequired("projectId"));
    }
    if d.participatingAgents.None? || d.participatingAgents.value == [] {
      return Err(AgentsRequired);
    }
    if d.tasks.None? || d.tasks.value == [] {
      return Err(TasksRequired);
    }
    return Ok(());
  }

  method ValidateTasks(tasks: seq<TaskDraft>) returns (r: Result<(), DraftError>)
    ensures r.Ok? <==> forall i :: 0 <= i < |tasks| ==> TaskShapeOk(tasks[i])
    ensures r.Err? ==> TaskErrorHolds(tasks, r.error)
  {
    for i := 0 to |tasks|
      invariant forall k :: 0 <= k < i ==> TaskShapeOk(tasks[k])
    {
      r := ValidateTaskSpec(tasks[i], i);
      if r.Err? {
        return;
      }
    }
    return Ok(());
  }

  method ValidateGraph(tasks: seq<TaskDraft>, failureBehavior: Option<string>) returns (r: Result<(), DraftError>)
    ensures r.Ok? <==> FailureBehaviorOk(failureBehavior) && Schedulable(Nodes(tasks))
    ensures r.Err? ==> TaskErrorHolds(tasks, r.error)
                       || (r.error == BadFailureBehavior && !FailureBehaviorOk(failureBehavior))
  {
    r := ValidateIds(Nodes(tasks));
    if r.Err? {
      return;
    }
    if !FailureBehaviorOk(failureBehavior) {
      return Err(BadFailureBehavior);
    }
    var cycle := FindCycle(Nodes(tasks));
    if cycle.Some? {
      return Err(CircularDependency(cycle.value));
    }
    return Ok(());
  }

  /** A draft is accepted exactly when every rule holds, and an error that is reported is true. */
  method ValidateWorkflowDraft(draft: Option<Draft>) returns (r: Result<(), DraftError>)
    ensures r.Ok? <==> Accepted(draft)
    ensures r.Err? ==> ErrorHolds(draft, r.error)
  {
    if draft.None? {
      return Err(NotAnObject);
    }
    r := ValidateHeader(draft.value);
    if r.Err? {
      return;
    }
    r := ValidateTasks(draft.value.tasks.value);
    if r.Err? {
      return;
    }
    r := ValidateGraph(draft.value.tasks.value, draft.value.failureBehavior);
  }

  // ----- progress -----------------------------------------------------------

  ghost predicate Ready(node: DependencyNode, done: set<Id>)
  {
    node.id !in done && forall d :: d in node.dependsOn ==> d in done
  }

  ghost predicate Stuck(nodes: seq<DependencyNode>, done: set<Id>)
  {
    forall i :: 0 <= i < |nodes| ==> !Ready(nodes[i], done)
  }

  lemma {:induction false} DependencyMapAt(nodes: seq<DependencyNode>, i: nat)
    requires DistinctIds(nodes) && i < |nodes|
    ensures nodes[i].id in DependencyMap(nodes) && DependencyMap(nodes)[nodes[i].id] == nodes[i].dependsOn
  {
    var last := |nodes| - 1;
    if i < last {
      DependencyMapAt(nodes[..last], i);
    }
  }

  lemma DependencyIsEdge(nodes: seq<DependencyNode>, i: nat, d: Id)
    requires DistinctIds(nodes) && i < |nodes| && d in nodes[i].dependsOn && d in Ids(nodes)
    ensures (nodes[i].id, d) in DependencyEdges(DependencyMap(nodes))
    ensures (d, nodes[i].id) in Reverse(DependencyEdges(DependencyMap(nodes)))
  {
    DependencyMapAt(nodes, i);
    var k :| 0 <= k < |nodes| && nodes[k].id == d;
    var e := (nodes[i].id, d);
    assert e in DependencyEdges(DependencyMap(nodes));
    assert (e.1, e.0) in Reverse(DependencyEdges(DependencyMap(nodes)));
  }

  lemma EdgeIsDependency(nodes: seq<DependencyNode>, x: Id, d: Id) returns (i: nat)
    requires DistinctIds(nodes) && (x, d) in DependencyEdges(DependencyMap(nodes))
    ensures i < |nodes| && nodes[i].id == x && d in nodes[i].dependsOn
  {
    i :| 0 <= i < |nodes| && nodes[i].id == x;
    DependencyMapAt(nodes, i);
  }

  // ----- accepted drafts, field by field ------------------------------------

  /** A text with something in it to be seen. */
  predicate Visible(value: Option<string>)
  {
    value.Some? && exists i :: 0 <= i < |value.value| && !IsSpace(value.value[i])
  }

  lemma HasTextMeans(value: Option<string>)
    ensures HasText(value) <==> Visible(value)
  {
    if value.Some? {
      var s := value.value;
      var a, b := TrimParts(s);
      if Trim(s) != "" {
        assert s[|a|] == Trim(s)[0];
      } else {
        assert s == a + b;
      }
    }
  }

  ghost predicate TaskComplete(task: TaskDraft)
  {
    && Visible(task.id) && Visible(task.taskType) && Visible(task.description) && !task.dependsOn.NotArray?
    && ((task.agentId.Some? && task.agentId.value != "") || (task.capability.Some? && task.capability.value != ""))
  }

  /** Every dependency names another task of the draft. */
  ghost predicate DependsWithin(tasks: seq<TaskDraft>)
  {
    forall i, d :: 0 <= i < |tasks| && tasks[i].dependsOn.Listed? && d in tasks[i].dependsOn.ids ==>
      Some(d) != tasks[i].id && exists j :: 0 <= j < |tasks| && tasks[j].id == Some(d)
  }

  lemma DependsWithinMeans(tasks: seq<TaskDraft>)
    requires forall i :: 0 <= i < |tasks| ==> tasks[i].id.Some?
    ensures (forall i :: 0 <= i < |tasks| ==> DependenciesOk(Nodes(tasks), Nodes(tasks)[i])) <==> DependsWithin(tasks)
  {
    var nodes := Nodes(tasks);
    assert forall i :: 0 <= i < |tasks| ==> nodes[i].id == tasks[i].id.value && nodes[i].dependsOn == Deps(tasks[i]);
    forall d ensures d in Ids(nodes) <==> exists j :: 0 <= j < |tasks| && tasks[j].id == Some(d) {
      if j :| 0 <= j < |tasks| && tasks[j].id == Some(d) {
        assert nodes[j].id == d;
      }
      if d in Ids(nodes) {
        var j :| 0 <= j < |nodes| && nodes[j].id == d;
        assert tasks[j].id == Some(d);
      }
    }
    if forall i :: 0 <= i < |tasks| ==> DependenciesOk(nodes, nodes[i]) {
      forall i, d | 0 <= i < |tasks| && tasks[i].dependsOn.Listed? && d in tasks[i].dependsOn.ids
        ensures Some(d) != tasks[i].id && exists j :: 0 <= j < |tasks| && tasks[j].id == Some(d)
      {
        assert DependenciesOk(nodes, nodes[i]) && d in nodes[i].dependsOn;
      }
    }
  }

  ghost predicate TasksComplete(tasks: seq<TaskDraft>)
  {
    && (forall task :: task in tasks ==> TaskComplete(task))
    && (forall i, j :: 0 <= i < j < |tasks| ==> tasks[i].id != tasks[j].id)
    && DependsWithin(tasks) && Acyclic(DependencyEdges(DependencyMap(Nodes(tasks))))
  }

  /** A draft is accepted exactly when nothing is missing, every dependency is known, and there is no cycle. */
  lemma AcceptedExactly(draft: Draft)
    ensures Accepted(Some(draft)) <==>
              && Visible(draft.organizationId) && Visible(draft.name) && Visible(draft.description)
              && Visible(draft.projectId) && draft.participatingAgents.Some? && |draft.participatingAgents.value| > 0
              && draft.tasks.Some? && |draft.tasks.value| > 0 && TasksComplete(draft.tasks.value)
              && (draft.failureBehavior == None || draft.failureBehavior == Some("abort")
                  || draft.failureBehavior == Some("continue"))
  {
    HasTextMeans(draft.organizationId);
    HasTextMeans(draft.name);
    HasTextMeans(draft.description);
    HasTextMeans(draft.projectId);
    hide HasText, Visible, TasksComplete, TaskShapeOk, Schedulable, Nodes;
    if draft.tasks.Some? {
      TasksAccepted(draft.tasks.value);
    }
  }

  lemma TasksAccepted(tasks: seq<TaskDraft>)
    ensures (forall i :: 0 <= i < |tasks| ==> TaskShapeOk(tasks[i])) && Schedulable(Nodes(tasks))
            <==> TasksComplete(tasks)
  {
    ShapesMean(tasks);
    hide HasText, Visible, TaskComplete, TaskShapeOk, DependsWithin, Acyclic, Nodes;
    if forall i :: 0 <= i < |tasks| ==> TaskShapeOk(tasks[i]) {
      ShapedHaveIds(tasks);
      DependsWithinMeans(tasks);
    }
  }

  lemma ShapesMean(tasks: seq<TaskDraft>)
    ensures (forall i :: 0 <= i < |tasks| ==> TaskShapeOk(tasks[i]))
            <==> forall task :: task in tasks ==> TaskComplete(task)
  {
    forall task ensures TaskShapeOk(task) <==> TaskComplete(task) {
      HasTextMeans(task.id);
      HasTextMeans(task.taskType);
      HasTextMeans(task.description);
    }
  }

  lemma ShapedHaveIds(tasks: seq<TaskDraft>)
    requires forall i :: 0 <= i < |tasks| ==> TaskShapeOk(tasks[i])
    ensures forall i :: 0 <= i < |tasks| ==> tasks[i].id.Some?
    ensures DistinctIds(Nodes(tasks)) <==> forall i, j :: 0 <= i < j < |tasks| ==> tasks[i].id != tasks[j].id
  {
    var nodes := Nodes(tasks);
    forall i | 0 <= i < |tasks| ensures tasks[i].id == Some(nodes[i].id) {
      assert TaskShapeOk(tasks[i]);
    }
  }

  /** Where nothing outside `done` is ready, every unfinished task waits for another unfinished task. */
  lemma WaitsForAnother(nodes: seq<DependencyNode>, done: set<Id>, x: Id)
    requires Schedulable(nodes) && x in Ids(nodes) - done
    requires Stuck(nodes, done)
    ensures HasPredecessorIn(Reverse(DependencyEdges(DependencyMap(nodes))), Ids(nodes) - done, x)
  {
    var i :| 0 <= i < |nodes| && nodes[i].id == x;
    assert !Ready(nodes[i], done);
    var d :| d in nodes[i].dependsOn && d !in done;
    assert DependenciesOk(nodes, nodes[i]) && d in Ids(nodes);
    DependencyIsEdge(nodes, i, d);
  }

  /** An accepted draft cannot deadlock: short of all tasks done, some unfinished task has all it depends on. */
  lemma StuckOnlyWhenDone(nodes: seq<DependencyNode>, done: set<Id>)
    requires Schedulable(nodes) && Stuck(nodes, done)
    ensures Ids(nodes) <= done
  {
    var edges := DependencyEdges(DependencyMap(nodes));
    forall x | x in Ids(nodes) - done ensures HasPredecessorIn(Reverse(edges), Ids(nodes) - done, x) {
      WaitsForAnother(nodes, done, x);
    }
    ReverseAcyclic(edges);
    NoSelfSustainingSet(Reverse(edges), Ids(nodes) - done);
    forall x | x in Ids(nodes) ensures x in done {
      assert x !in Ids(nodes) - done;
    }
  }

  /** Tasks run one after another, each ready when its turn comes. */
  ghost predicate GreedyRun(nodes: seq<DependencyNode>, run: seq<Id>)
  {
    run == [] ||
    var last := |run| - 1;
    && GreedyRun(nodes, run[..last])
    && exists i :: 0 <= i < |nodes| && nodes[i].id == run[last] && Ready(nodes[i], Elements(run[..last]))
  }

  lemma {:induction false} GreedyRunDistinct(nodes: seq<DependencyNode>, run: seq<Id>)
    requires GreedyRun(nodes, run)
    ensures NoDuplicates(run) && Elements(run) <= Ids(nodes)
  {
    if run != [] {
      var last := |run| - 1;
      GreedyRunDistinct(nodes, run[..last]);
      assert run[last] !in Elements(run[..last]) && run[last] in Ids(nodes);
    }
  }

  lemma {:induction false} IdsSize(nodes: seq<DependencyNode>)
    requires DistinctIds(nodes)
    ensures |Ids(nodes)| == |nodes|
  {
    if nodes != [] {
      var last := |nodes| - 1;
      IdsSize(nodes[..last]);
      IdsAppend(nodes, last);
      assert nodes[..last + 1] == nodes;
    }
  }

  /** Whatever ready task is taken each time, a run that cannot go on has done every task, in one step each. */
  lemma GreedyRunFinishes(nodes: seq<DependencyNode>, run: seq<Id>)
    requires Schedulable(nodes) && GreedyRun(nodes, run) && Stuck(nodes, Elements(run))
    ensures Elements(run) == Ids(nodes) && |run| == |nodes|
  {
    StuckOnlyWhenDone(nodes, Elements(run));
    GreedyRunDistinct(nodes, run);
    NoDuplicatesSize(run);
    IdsSize(nodes);
  }
}
