/**
 * The task records of a workflow run (core/workflows/workflow-engine.ts, core/workflows/workflow-graph.ts): what always
 * holds of them, what is ready, what is skipped below a failure, and how many attempts are left.
 */
module WorkflowRecords {
  import opened Digraphs
  import opened CycleDetection
  import opened WorkflowDrafts

  datatype TaskStatus = Pending | AwaitingApproval | Completed | Failed | Blocked | Skipped

  datatype TaskRecord = TaskRecord(status: TaskStatus, retryCount: nat)

  type Records = map<Id, TaskRecord>

  // ----- what always holds --------------------------------------------------

  predicate IsDone(records: Records, id: Id)
  {
    id in records && records[id].status == Completed
  }

  /** Tasks that will not complete. */
  predicate IsLost(records: Records, id: Id)
  {
    id in records && records[id].status in {Failed, Blocked, Skipped}
  }

  predicate AllCompleted(records: Records)
  {
    forall id :: id in records ==> IsDone(records, id)
  }

  predicate SomeLost(records: Records)
  {
    exists id :: id in records && IsLost(records, id)
  }

  predicate SomeAwaiting(records: Records)
  {
    exists id :: id in records && records[id].status == AwaitingApproval
  }

  /** `hasActionableWork` */
  predicate SomeOpen(records: Records)
  {
    exists id :: id in records && records[id].status in {Pending, AwaitingApproval}
  }

  ghost predicate DependenciesDone(task: DependencyNode, records: Records)
  {
    forall d :: d in task.dependsOn ==> IsDone(records, d)
  }

  ghost predicate LosesDependency(task: DependencyNode, records: Records)
  {
    exists d :: d in task.dependsOn && IsLost(records, d)
  }

  /** Started tasks have all dependencies done, waiting ones have lost none, skipped ones have lost some. */
  ghost predicate TaskConsistent(task: DependencyNode, records: Records)
    requires task.id in records
  {
    match records[task.id].status
    case Pending => !LosesDependency(task, records)
    case Skipped => LosesDependency(task, records)
    case _ => DependenciesDone(task, records)
  }

  ghost predicate Covers(tasks: seq<DependencyNode>, records: Records)
  {
    records.Keys == Ids(tasks)
  }

  ghost predicate Consistent(tasks: seq<DependencyNode>, records: Records)
  {
    Covers(tasks, records) && forall i :: 0 <= i < |tasks| ==> TaskConsistent(tasks[i], records)
  }

  /** How records may change over any stretch of a run: what has ended stays as it ended, retries only grow. */
  ghost predicate Evolves(before: Records, after: Records)
  {
    && before.Keys == after.Keys
    && forall id :: id in before ==>
         && before[id].retryCount <= after[id].retryCount
         && (before[id].status in {Completed, Failed, Blocked, Skipped} ==> after[id] == before[id])
  }

  /** Only the record of `id` changes, and pending tasks may be skipped. */
  ghost predicate OnlySkipsBesides(before: Records, after: Records, id: Id)
  {
    && before.Keys == after.Keys
    && forall x :: x in before && x != id ==>
         after[x] == before[x] || (before[x].status == Pending && after[x] == before[x].(status := Skipped))
  }

  ghost predicate IsReady(task: DependencyNode, records: Records)
  {
    task.id in records && records[task.id].status == Pending && DependenciesDone(task, records)
  }

  /** Below a lost task everything is skipped: no transitive dependent of a failure was ever started. */
  lemma DependentsOfLostAreSkipped(tasks: seq<DependencyNode>, records: Records, lost: Id, x: Id)
    requires Schedulable(tasks) && Consistent(tasks, records) && IsLost(records, lost)
    requires x != lost && Reaches(DependencyEdges(DependencyMap(tasks)), x, lost)
    ensures x in records && records[x].status == Skipped
  {
    var edges := DependencyEdges(DependencyMap(tasks));
    var skipped := set id | id in records && (id == lost || records[id].status == Skipped);
    forall e | e in Reverse(edges) && e.0 in skipped ensures e.1 in skipped {
      DirectDependentSkipped(tasks, records, e.0, e.1);
    }
    ReverseReaches(edges, x, lost);
    ClosedUnderReaches(Reverse(edges), skipped, lost, x);
  }

  lemma DirectDependentSkipped(tasks: seq<DependencyNode>, records: Records, lost: Id, x: Id)
    requires Schedulable(tasks) && Consistent(tasks, records) && IsLost(records, lost)
    requires (x, lost) in DependencyEdges(DependencyMap(tasks))
    ensures x in records && records[x].status == Skipped
  {
    var i := EdgeIsDependency(tasks, x, lost);
    assert TaskConsistent(tasks[i], records) && !IsDone(records, lost);
  }

  ghost function PendingIds(records: Records): set<Id>
  {
    set id | id in records && records[id].status == Pending
  }

  /** If tasks are pending, none is awaiting approval and none is ready, then the graph has a cycle: it has none. */
  lemma PendingMeansReady(tasks: seq<DependencyNode>, records: Records)
    requires Schedulable(tasks) && Consistent(tasks, records)
    requires forall id :: id in records ==> records[id].status != AwaitingApproval
    requires forall i :: 0 <= i < |tasks| ==> !IsReady(tasks[i], records)
    ensures forall id :: id in records ==> records[id].status != Pending
  {
    var pending := PendingIds(records);
    var edges := DependencyEdges(DependencyMap(tasks));
    forall x | x in pending ensures HasPredecessorIn(Reverse(edges), pending, x) {
      PendingWaitsForPending(tasks, records, x);
    }
    ReverseAcyclic(edges);
    NoSelfSustainingSet(Reverse(edges), pending);
    forall id | id in records ensures records[id].status != Pending {
      assert id !in pending;
    }
  }

  lemma PendingWaitsForPending(tasks: seq<DependencyNode>, records: Records, x: Id)
    requires Schedulable(tasks) && Consistent(tasks, records)
    requires forall id :: id in records ==> records[id].status != AwaitingApproval
    requires x in records && records[x].status == Pending
    requires forall i :: 0 <= i < |tasks| ==> !IsReady(tasks[i], records)
    ensures HasPredecessorIn(Reverse(DependencyEdges(DependencyMap(tasks))),
                             PendingIds(records), x)
  {
    var i :| 0 <= i < |tasks| && tasks[i].id == x;
    var d := PendingDependency(tasks, records, i);
    DependencyIsEdge(tasks, i, d);
  }

  lemma PendingDependency(tasks: seq<DependencyNode>, records: Records, i: nat) returns (d: Id)
    requires Consistent(tasks, records) && i < |tasks| && DependenciesOk(tasks, tasks[i])
    requires forall id :: id in records ==> records[id].status != AwaitingApproval
    requires records[tasks[i].id].status == Pending && !IsReady(tasks[i], records)
    ensures d in tasks[i].dependsOn && d in PendingIds(records)
  {
    assert TaskConsistent(tasks[i], records);
    d :| d in tasks[i].dependsOn && !IsDone(records, d);
    assert !IsLost(records, d) && d in Ids(tasks);
  }

  // ----- the budget of dispatches -------------------------------------------

  /** How often a pending task can still be dispatched, of so many attempts in all. */
  ghost function Remaining(record: TaskRecord, attempts: nat): nat
  {
    if record.status != Pending then 0
    else if record.retryCount + 1 < attempts then attempts - record.retryCount
    else 1
  }

  ghost function Budget(tasks: seq<DependencyNode>, records: Records, attempts: nat): nat
    requires Ids(tasks) <= records.Keys
  {
    if tasks == [] then 0 else
      var last := |tasks| - 1;
      IdsAppend(tasks, last); assert tasks[..last + 1] == tasks;
      Budget(tasks[..last], records, attempts) + Remaining(records[tasks[last].id], attempts)
  }

  ghost predicate NoTaskGains(before: Records, after: Records, attempts: nat)
  {
    && before.Keys == after.Keys
    && forall id :: id in before ==> Remaining(after[id], attempts) <= Remaining(before[id], attempts)
  }

  lemma {:induction false} BudgetFalls(tasks: seq<DependencyNode>, before: Records, after: Records, attempts: nat,
      id: Id)
    requires Ids(tasks) <= before.Keys && NoTaskGains(before, after, attempts)
    ensures Budget(tasks, after, attempts) <= Budget(tasks, before, attempts)
    ensures id in Ids(tasks) && Remaining(after[id], attempts) < Remaining(before[id], attempts)
            ==> Budget(tasks, after, attempts) < Budget(tasks, before, attempts)
  {
    if tasks != [] {
      var last := |tasks| - 1;
      IdsAppend(tasks, last);
      assert tasks[..last + 1] == tasks;
      BudgetFalls(tasks[..last], before, after, attempts, id);
    }
  }

  lemma OneMore(n: nat, m: nat)
    ensures (n + 1) * m == n * m + m
  {
  }

  lemma {:induction false} BudgetBound(tasks: seq<DependencyNode>, records: Records, attempts: nat)
    requires Ids(tasks) <= records.Keys && attempts > 0
    ensures Budget(tasks, records, attempts) <= |tasks| * attempts
  {
    if tasks != [] {
      var last := |tasks| - 1;
      IdsAppend(tasks, last);
      assert tasks[..last + 1] == tasks;
      BudgetBound(tasks[..last], records, attempts);
      OneMore(last, attempts);
    }
  }

  // ----- skipping -----------------------------------------------------------

  ghost predicate TaskConsistentBut(task: DependencyNode, records: Records, lost: Id)
    requires task.id in records
  {
    if records[task.id].status == Pending then forall d :: d in task.dependsOn && IsLost(records, d) ==> d == lost
    else TaskConsistent(task, records)
  }

  /** Consistent but for tasks still pending directly below the task that has just been lost. */
  ghost predicate ConsistentBut(tasks: seq<DependencyNode>, records: Records, lost: Id)
  {
    && Covers(tasks, records) && IsLost(records, lost)
    && forall i :: 0 <= i < |tasks| ==> TaskConsistentBut(tasks[i], records, lost)
  }

  predicate Touches(task: DependencyNode, lost: Id, toSkip: set<Id>)
  {
    exists d :: d in task.dependsOn && (d == lost || d in toSkip)
  }

  function Skip(records: Records, toSkip: set<Id>): Records
  {
    map id | id in records :: if id in toSkip then records[id].(status := Skipped) else records[id]
  }

  ghost predicate IsSkipSet(tasks: seq<DependencyNode>, records: Records, lost: Id, toSkip: set<Id>)
    requires Covers(tasks, records)
  {
    && (forall x :: x in toSkip ==> x in records && records[x].status == Pending)
    && forall i :: 0 <= i < |tasks| && records[tasks[i].id].status == Pending ==>
         (tasks[i].id in toSkip <==> Touches(tasks[i], lost, toSkip))
  }

  lemma SkipConsistent(tasks: seq<DependencyNode>, records: Records, lost: Id, toSkip: set<Id>)
    requires ConsistentBut(tasks, records, lost) && IsSkipSet(tasks, records, lost, toSkip)
    ensures Consistent(tasks, Skip(records, toSkip)) && OnlySkipsBesides(records, Skip(records, toSkip), lost)
    ensures Skip(records, toSkip)[lost] == records[lost]
  {
    var after := Skip(records, toSkip);
    assert forall d :: IsLost(after, d) <==> IsLost(records, d) || d in toSkip;
    assert forall d :: IsDone(after, d) <==> IsDone(records, d);
    forall i | 0 <= i < |tasks| ensures TaskConsistent(tasks[i], after) {
      var task := tasks[i];
      if records[task.id].status == Skipped {
        var d :| d in task.dependsOn && IsLost(records, d);
        assert IsLost(after, d);
      } else if task.id in toSkip {
        var d :| d in task.dependsOn && (d == lost || d in toSkip);
        assert IsLost(after, d);
      }
    }
  }

  /** The tasks before position `k` that must be skipped along with the set are in it. */
  ghost predicate ClosedUpTo(tasks: seq<DependencyNode>, records: Records, lost: Id, toSkip: set<Id>, k: nat)
    requires Covers(tasks, records) && k <= |tasks|
  {
    forall i :: (0 <= i < k && records[tasks[i].id].status == Pending && Touches(tasks[i], lost, toSkip))
            ==> tasks[i].id in toSkip
  }

  ghost predicate Justified(tasks: seq<DependencyNode>, records: Records, lost: Id, toSkip: set<Id>)
    requires Covers(tasks, records)
  {
    && (forall x :: x in toSkip ==> x in records && records[x].status == Pending)
    && forall i :: 0 <= i < |tasks| && tasks[i].id in toSkip ==> Touches(tasks[i], lost, toSkip)
  }

  /** The pending tasks that depend, at whatever distance, on a lost one. */
  ghost function SkipsBelow(tasks: seq<DependencyNode>, records: Records, lost: Id): set<Id>
  {
    set x | x in records && records[x].status == Pending && Reaches(DependencyEdges(DependencyMap(tasks)), x, lost)
  }

  ghost predicate AllReach(tasks: seq<DependencyNode>, toSkip: set<Id>, lost: Id)
  {
    forall x :: x in toSkip ==> Reaches(DependencyEdges(DependencyMap(tasks)), x, lost)
  }

  lemma SkipOneMore(tasks: seq<DependencyNode>, records: Records, lost: Id, toSkip: set<Id>, k: nat)
    requires DistinctIds(tasks) && Covers(tasks, records) && k < |tasks| && lost in records
    requires Justified(tasks, records, lost, toSkip) && AllReach(tasks, toSkip, lost)
    requires Touches(tasks[k], lost, toSkip) && records[tasks[k].id].status == Pending
    ensures Justified(tasks, records, lost, toSkip + {tasks[k].id}) && AllReach(tasks, toSkip + {tasks[k].id}, lost)
  {
    TouchedReaches(tasks, records, lost, toSkip, k);
    forall i | 0 <= i < |tasks| && tasks[i].id in toSkip + {tasks[k].id}
      ensures Touches(tasks[i], lost, toSkip + {tasks[k].id})
    {
      assert tasks[i].id == tasks[k].id ==> i == k;
      var d :| d in tasks[i].dependsOn && (d == lost || d in toSkip);
    }
  }

  lemma TouchedReaches(tasks: seq<DependencyNode>, records: Records, lost: Id, toSkip: set<Id>, k: nat)
    requires DistinctIds(tasks) && Covers(tasks, records) && k < |tasks| && lost in records
    requires Justified(tasks, records, lost, toSkip) && AllReach(tasks, toSkip, lost)
    requires Touches(tasks[k], lost, toSkip)
    ensures Reaches(DependencyEdges(DependencyMap(tasks)), tasks[k].id, lost)
  {
    var edges := DependencyEdges(DependencyMap(tasks));
    var d :| d in tasks[k].dependsOn && (d == lost || d in toSkip);
    DependencyIsEdge(tasks, k, d);
    ReachesSelf(edges, lost);
    assert Reaches(edges, d, lost);
    ReachesSelf(edges, tasks[k].id);
    ReachesStep(edges, tasks[k].id, tasks[k].id, d);
    ReachesTransitive(edges, tasks[k].id, d, lost);
  }

  lemma NotStartedBefore(tasks: seq<DependencyNode>, records: Records, lost: Id, x: Id, d: Id)
    requires Schedulable(tasks) && ConsistentBut(tasks, records, lost)
    requires (x, d) in DependencyEdges(DependencyMap(tasks)) && !IsDone(records, d)
    ensures x in records && (records[x].status == Pending || IsLost(records, x))
  {
    var i := EdgeIsDependency(tasks, x, d);
    assert TaskConsistentBut(tasks[i], records, lost);
  }

  /** What waits for a task that is not done has not been started. */
  lemma NotStartedAbove(tasks: seq<DependencyNode>, records: Records, lost: Id, x: Id)
    requires Schedulable(tasks) && ConsistentBut(tasks, records, lost)
    requires Reaches(DependencyEdges(DependencyMap(tasks)), x, lost)
    ensures x in records && (records[x].status == Pending || IsLost(records, x))
  {
    var edges := DependencyEdges(DependencyMap(tasks));
    var idle := set id | id in records && (records[id].status == Pending || IsLost(records, id));
    forall e | e in Reverse(edges) && e.0 in idle ensures e.1 in idle {
      NotStartedBefore(tasks, records, lost, e.1, e.0);
    }
    ReverseReaches(edges, x, lost);
    ClosedUnderReaches(Reverse(edges), idle, lost, x);
  }

  lemma BelowIsTouched(tasks: seq<DependencyNode>, records: Records, lost: Id, k: nat)
    requires Schedulable(tasks) && ConsistentBut(tasks, records, lost) && k < |tasks|
    requires tasks[k].id in SkipsBelow(tasks, records, lost)
    ensures Touches(tasks[k], lost, SkipsBelow(tasks, records, lost))
  {
    var edges := DependencyEdges(DependencyMap(tasks));
    var walk :| WalkFromTo(edges, walk, tasks[k].id, lost);
    assert |walk| > 1;
    var d := walk[1];
    assert (tasks[k].id, d) in edges;
    var i := EdgeIsDependency(tasks, tasks[k].id, d);
    assert i == k && TaskConsistentBut(tasks[k], records, lost);
    SliceWalk(edges, walk, 1, |walk|);
    assert WalkFromTo(edges, walk[1..|walk|], d, lost);
    NotStartedAbove(tasks, records, lost, d);
  }

  lemma SkipsBelowIsSkipSet(tasks: seq<DependencyNode>, records: Records, lost: Id)
    requires Schedulable(tasks) && ConsistentBut(tasks, records, lost)
    ensures IsSkipSet(tasks, records, lost, SkipsBelow(tasks, records, lost))
  {
    var toSkip := SkipsBelow(tasks, records, lost);
    forall i | 0 <= i < |tasks| && tasks[i].id in toSkip ensures Touches(tasks[i], lost, toSkip) {
      BelowIsTouched(tasks, records, lost, i);
    }
    forall i | 0 <= i < |tasks| && records[tasks[i].id].status == Pending && Touches(tasks[i], lost, toSkip)
      ensures tasks[i].id in toSkip
    {
      TouchedReaches(tasks, records, lost, toSkip, i);
    }
  }

  lemma SkipSetExact(tasks: seq<DependencyNode>, records: Records, lost: Id, toSkip: set<Id>)
    requires Schedulable(tasks) && ConsistentBut(tasks, records, lost)
    requires IsSkipSet(tasks, records, lost, toSkip) && AllReach(tasks, toSkip, lost)
    ensures toSkip == SkipsBelow(tasks, records, lost)
  {
    SkipConsistent(tasks, records, lost, toSkip);
    var after := Skip(records, toSkip);
    forall x | x in SkipsBelow(tasks, records, lost) ensures x in toSkip {
      DependentsOfLostAreSkipped(tasks, after, lost, x);
    }
  }

  /** The fixpoint loop: repeats passes over the tasks until one finds nothing more to skip. */
  method FindSkips(tasks: seq<DependencyNode>, records: Records, lost: Id) returns (toSkip: set<Id>)
    requires Schedulable(tasks) && ConsistentBut(tasks, records, lost)
    ensures IsSkipSet(tasks, records, lost, toSkip) && toSkip == SkipsBelow(tasks, records, lost)
  {
    toSkip := {};
    var changed := true;
    while changed
      invariant Justified(tasks, records, lost, toSkip) && AllReach(tasks, toSkip, lost)
      invariant !changed ==> ClosedUpTo(tasks, records, lost, toSkip, |tasks|)
      decreases records.Keys - toSkip, changed
    {
      toSkip, changed := SkipPass(tasks, records, lost, toSkip);
    }
    ClosedIsSkipSet(tasks, records, lost, toSkip);
    SkipSetExact(tasks, records, lost, toSkip);
  }

  /** One pass over the tasks: something more is skipped, or nothing is left to skip. */
  method SkipPass(tasks: seq<DependencyNode>, records: Records, lost: Id, before: set<Id>)
    returns (toSkip: set<Id>, changed: bool)
    requires DistinctIds(tasks) && Covers(tasks, records) && lost in records
    requires Justified(tasks, records, lost, before) && AllReach(tasks, before, lost)
    ensures Justified(tasks, records, lost, toSkip) && AllReach(tasks, toSkip, lost)
    ensures if changed then records.Keys - toSkip < records.Keys - before
            else toSkip == before && ClosedUpTo(tasks, records, lost, toSkip, |tasks|)
  {
    toSkip, changed := before, false;
    for k := 0 to |tasks|
      invariant Justified(tasks, records, lost, toSkip) && AllReach(tasks, toSkip, lost) && before <= toSkip
      invariant if changed then records.Keys - toSkip < records.Keys - before
                else toSkip == before && ClosedUpTo(tasks, records, lost, toSkip, k)
    {
      var task := tasks[k];
      if records[task.id].status == Pending && task.id !in toSkip && Touches(task, lost, toSkip) {
        assert task.id in records.Keys - toSkip;
        SkipOneMore(tasks, records, lost, toSkip, k);
        toSkip, changed := toSkip + {task.id}, true;
      }
    }
  }

  lemma ClosedIsSkipSet(tasks: seq<DependencyNode>, records: Records, lost: Id, toSkip: set<Id>)
    requires Covers(tasks, records) && Justified(tasks, records, lost, toSkip)
    requires ClosedUpTo(tasks, records, lost, toSkip, |tasks|)
    ensures IsSkipSet(tasks, records, lost, toSkip)
  {
  }

  // ----- one task -----------------------------------------------------------

  /** `spec` may be dispatched or resumed: it is unfinished and everything it depends on is done. */
  ghost predicate IsOpen(task: DependencyNode, records: Records)
  {
    && task.id in records && records[task.id].status in {Pending, AwaitingApproval}
    && DependenciesDone(task, records)
  }

  /** A task other than the one that ends stays consistent, unless it is pending and loses that one. */
  lemma OtherStaysConsistent(task: DependencyNode, records: Records, after: Records, id: Id, record: TaskRecord)
    requires id in records && records[id].status in {Pending, AwaitingApproval} && after == records[id := record]
    requires task.id in records && task.id != id && TaskConsistent(task, records)
    requires record.status != Skipped
    ensures if record.status in {Failed, Blocked} then TaskConsistentBut(task, after, id)
            else TaskConsistent(task, after)
  {
    assert forall d :: IsDone(records, d) ==> IsDone(after, d);
    assert forall d :: d != id ==> (IsLost(records, d) <==> IsLost(after, d));
    if records[task.id].status == Skipped {
      var d :| d in task.dependsOn && IsLost(records, d);
      assert IsLost(after, d);
    }
  }

  lemma EndedConsistent(task: DependencyNode, records: Records, record: TaskRecord)
    requires IsOpen(task, records) && record.status != Skipped
    ensures TaskConsistent(task, records[task.id := record]) || task.id in task.dependsOn
  {
    var after := records[task.id := record];
    if task.id !in task.dependsOn {
      assert forall d :: d in task.dependsOn ==> IsDone(records, d) && IsDone(after, d);
    }
  }

  lemma EndsConsistently(tasks: seq<DependencyNode>, records: Records, i: nat, record: TaskRecord)
    requires Consistent(tasks, records) && DistinctIds(tasks) && i < |tasks| && IsOpen(tasks[i], records)
    requires record.status != Skipped
    ensures var after := records[tasks[i].id := record];
            if record.status in {Failed, Blocked} then ConsistentBut(tasks, after, tasks[i].id)
            else Consistent(tasks, after)
  {
    var id := tasks[i].id;
    var after := records[id := record];
    assert after.Keys == records.Keys + {id} == records.Keys;
    assert id !in tasks[i].dependsOn by {
      assert !IsDone(records, id);
    }
    EndedConsistent(tasks[i], records, record);
    forall j | 0 <= j < |tasks| && j != i
      ensures tasks[j].id != id && TaskConsistent(tasks[j], records)
    {
    }
    forall j | 0 <= j < |tasks| && j != i
      ensures if record.status in {Failed, Blocked} then TaskConsistentBut(tasks[j], after, id)
              else TaskConsistent(tasks[j], after)
    {
      OtherStaysConsistent(tasks[j], records, after, id, record);
    }
  }

  /** While another task is worked on, a ready task stays ready. */
  lemma StaysReady(tasks: seq<DependencyNode>, before: Records, after: Records, i: nat, id: Id)
    requires i < |tasks| && tasks[i].id != id && IsReady(tasks[i], before) && Consistent(tasks, after)
    requires OnlySkipsBesides(before, after, id) && !IsDone(before, id)
    ensures IsReady(tasks[i], after)
  {
    assert TaskConsistent(tasks[i], after);
    forall d | d in tasks[i].dependsOn ensures IsDone(after, d) {
      assert IsDone(before, d);
    }
  }

  lemma EvolvesTransitive(a: Records, b: Records, c: Records)
    requires Evolves(a, b) && Evolves(b, c)
    ensures Evolves(a, c)
  {
  }

  /** What one turn of the inner loop leaves behind: a smaller budget, and the later tasks of the list still ready. */
  lemma AfterOneTurn(tasks: seq<DependencyNode>, ready: seq<DependencyNode>, k: nat, before: Records, after: Records,
      attempts: nat)
    requires Consistent(tasks, before) && Consistent(tasks, after) && DistinctIds(ready) && k < |ready|
    requires forall j :: k <= j < |ready| ==> ready[j] in tasks && IsReady(ready[j], before)
    requires OnlySkipsBesides(before, after, ready[k].id)
    requires Remaining(after[ready[k].id], attempts) < Remaining(before[ready[k].id], attempts)
    ensures forall j :: k < j < |ready| ==> IsReady(ready[j], after)
    ensures Budget(tasks, after, attempts) < Budget(tasks, before, attempts)
  {
    BudgetFalls(tasks, before, after, attempts, ready[k].id);
    forall j | k < j < |ready| ensures IsReady(ready[j], after) {
      var n :| 0 <= n < |tasks| && tasks[n] == ready[j];
      StaysReady(tasks, before, after, n, ready[k].id);
    }
  }

  lemma SkipsEvolve(before: Records, after: Records, id: Id)
    requires OnlySkipsBesides(before, after, id) && id in before
    requires before[id].status in {Pending, AwaitingApproval} && before[id].retryCount <= after[id].retryCount
    ensures Evolves(before, after)
  {
  }

  /** `computeReadySpecs`: the tasks that have not started and whose dependencies have all completed. */
  function ReadyTasks(tasks: seq<DependencyNode>, records: Records): (ready: seq<DependencyNode>)
  {
    if tasks == [] then [] else
      var last := |tasks| - 1;
      var task := tasks[last];
      ReadyTasks(tasks[..last], records)
      + if task.id in records && records[task.id].status == Pending
           && forall d :: d in task.dependsOn ==> d in records && records[d].status == Completed
        then [task] else []
  }

  lemma {:induction false} ReadyTasksExact(tasks: seq<DependencyNode>, records: Records)
    requires DistinctIds(tasks)
    ensures forall t :: t in ReadyTasks(tasks, records) <==> t in tasks && IsReady(t, records)
    ensures DistinctIds(ReadyTasks(tasks, records))
  {
    if tasks != [] {
      var last := |tasks| - 1;
      ReadyTasksExact(tasks[..last], records);
      assert tasks == tasks[..last] + [tasks[last]];
      var ready := ReadyTasks(tasks[..last], records);
      forall k | 0 <= k < |ready| ensures ready[k].id != tasks[last].id {
        assert ready[k] in ready && ready[k] in tasks[..last];
      }
    }
  }

  /** The list is what stands at these positions, which rise. */
  ghost predicate StandsAt(tasks: seq<DependencyNode>, at: seq<nat>, list: seq<DependencyNode>)
  {
    && |at| == |list| && (forall k :: 0 <= k < |at| ==> at[k] < |tasks| && tasks[at[k]] == list[k])
    && (forall j, k :: 0 <= j < k < |at| ==> at[j] < at[k])
  }

  /** The ready tasks stand in the order of the tasks. */
  lemma {:induction false} ReadyTasksInOrder(tasks: seq<DependencyNode>, records: Records) returns (at: seq<nat>)
    ensures StandsAt(tasks, at, ReadyTasks(tasks, records))
  {
    if tasks == [] {
      at := [];
    } else {
      var last := |tasks| - 1;
      var before := ReadyTasksInOrder(tasks[..last], records);
      OneMoreTask(tasks, before, ReadyTasks(tasks[..last], records));
      at := if ReadyTasks(tasks, records) == ReadyTasks(tasks[..last], records) then before else before + [last];
      hide StandsAt, IsReady;
    }
  }

  lemma OneMoreTask(tasks: seq<DependencyNode>, at: seq<nat>, list: seq<DependencyNode>)
    requires tasks != [] && StandsAt(tasks[..|tasks| - 1], at, list)
    ensures StandsAt(tasks, at, list) && StandsAt(tasks, at + [|tasks| - 1], list + [tasks[|tasks| - 1]])
  {
    assert forall k :: 0 <= k < |at| ==> tasks[..|tasks| - 1][at[k]] == tasks[at[k]];
  }

  lemma NothingReadyNothingOpen(tasks: seq<DependencyNode>, records: Records)
    requires Schedulable(tasks) && Consistent(tasks, records)
    requires forall t :: t in tasks ==> !IsReady(t, records)
    requires !SomeOpen(records) || !SomeAwaiting(records)
    ensures !SomeOpen(records)
  {
    if !SomeAwaiting(records) {
      PendingMeansReady(tasks, records);
    }
  }
}
