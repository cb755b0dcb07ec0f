/**
 * The scheduler of core/workflows/workflow-engine.ts as functions on the state of a run, and what every step and every
 * whole run keeps.
 */
module WorkflowSteps {
  import opened Digraphs
  import opened CycleDetection
  import opened WorkflowDrafts
  import opened WorkflowRecords

  datatype Failure =
    | MaxDuration | MaxAgentExecutions | MaxHandoffs | MaxToolCalls | AssignmentInvalid(id: Id) | TaskFailed(id: Id)
    | NotConverged | SomeTasksFailed | NoTasksCompleted

  datatype RunStatus = Running | Paused | Finished | Stopped(reason: Failure)

  datatype Outcome = Completes | AwaitsApproval | Fails(retryable: bool)

  /** What the engine asks of the clock, the registry and the orchestrator; each question carries its number. */
  datatype Services = Services(
    overtime: nat -> bool,
    assignmentValid: (nat, Id) -> bool,
    handoffsExceeded: (nat, Id) -> bool,
    toolCallsExceeded: (nat, Id) -> bool,
    outcome: (nat, Id) -> Outcome)

  /** What a run never changes. */
  datatype Plan = Plan(
    tasks: seq<DependencyNode>,
    maxRetries: real,
    maxAgentExecutions: real,
    abortOnFailure: bool,
    services: Services)

  datatype State = State(records: Records, status: RunStatus, agentExecutions: int, questions: nat)

  // ----- the steps ----------------------------------------------------------

  /** The record after an attempt: a retryable failure waits again while retries are left. */
  function AfterOutcome(record: TaskRecord, outcome: Outcome, maxRetries: real): TaskRecord
  {
    match outcome
    case AwaitsApproval => record.(status := AwaitingApproval)
    case Completes => record.(status := Completed)
    case Fails(retryable) =>
      if retryable && record.retryCount as real < maxRetries then TaskRecord(Pending, record.retryCount + 1)
      else record.(status := Failed)
  }

  /** The records after a task has got a new one: when that is a loss, all that was waiting for it is skipped. */
  ghost function Settled(tasks: seq<DependencyNode>, records: Records, id: Id, record: TaskRecord): Records
  {
    var after := records[id := record];
    if record.status in {Failed, Blocked} then Skip(after, SkipsBelow(tasks, after, id)) else after
  }

  ghost function EndWith(plan: Plan, s: State, id: Id, record: TaskRecord, reason: Failure): State
  {
    s.(records := Settled(plan.tasks, s.records, id, record),
       status := if plan.abortOnFailure && record.status in {Failed, Blocked} then Stopped(reason) else Running)
  }

  /** One ready task, after the limit on executions: the assignment, the handoffs, the attempt. */
  ghost function AfterAssignment(plan: Plan, s: State, id: Id): State
    requires id in s.records
  {
    if !plan.services.assignmentValid(s.questions, id) then
      EndWith(plan, s, id, s.records[id].(status := Blocked), AssignmentInvalid(id))
    else if plan.services.handoffsExceeded(s.questions, id) then s.(status := Stopped(MaxHandoffs))
    else AfterAttempt(plan, s.(agentExecutions := s.agentExecutions + 1), id)
  }

  /** The tool calls of an attempt, and its outcome. */
  ghost function AfterAttempt(plan: Plan, s: State, id: Id): State
    requires id in s.records
  {
    if plan.services.toolCallsExceeded(s.questions, id) then s.(status := Stopped(MaxToolCalls))
    else
      var after := AfterOutcome(s.records[id], plan.services.outcome(s.questions, id), plan.maxRetries);
      EndWith(plan, s, id, after, TaskFailed(id))
  }

  ghost function AfterTurn(plan: Plan, s: State, id: Id): State
    requires id in s.records
  {
    if s.agentExecutions as real >= plan.maxAgentExecutions then s.(status := Stopped(MaxAgentExecutions))
    else AfterAssignment(plan, s.(questions := s.questions + 1), id)
  }

  ghost predicate Known(ready: seq<DependencyNode>, records: Records)
  {
    forall k :: 0 <= k < |ready| ==> ready[k].id in records
  }

  /** The ready tasks one after the other, until one of them stops the run. */
  ghost function AfterTurns(plan: Plan, s: State, ready: seq<DependencyNode>): (t: State)
    requires Known(ready, s.records)
    ensures t.records.Keys == s.records.Keys
  {
    if ready == [] then s
    else
      var before := AfterTurns(plan, s, ready[..|ready| - 1]);
      if before.status != Running then before else AfterTurn(plan, before, ready[|ready| - 1].id)
  }

  function FinalStatus(records: Records): RunStatus
  {
    if AllCompleted(records) then Finished
    else if SomeLost(records) then Stopped(SomeTasksFailed)
    else Stopped(NoTasksCompleted)
  }

  /** One pass: the tasks that are ready, or the end when none is. */
  ghost function AfterPass(plan: Plan, s: State): (t: State)
    requires s.records.Keys == Ids(plan.tasks)
    ensures t.records.Keys == s.records.Keys
  {
    var ready := ReadyTasks(plan.tasks, s.records);
    if ready == [] then
      s.(status := if SomeOpen(s.records) && SomeAwaiting(s.records) then Paused else FinalStatus(s.records))
    else
      ReadyTasksKnown(plan.tasks, s.records);
      AfterTurns(plan, s, ready)
  }

  /** The clock first, then a pass. */
  ghost function AfterTimedPass(plan: Plan, s: State): (t: State)
    requires s.records.Keys == Ids(plan.tasks)
    ensures t.records.Keys == s.records.Keys
  {
    var asked := s.(questions := s.questions + 1);
    if plan.services.overtime(asked.questions) then asked.(status := Stopped(MaxDuration)) else AfterPass(plan, asked)
  }

  /** At most so many more passes. */
  ghost function AfterPasses(plan: Plan, s: State, passes: nat): State
    requires s.records.Keys == Ids(plan.tasks)
    decreases passes
  {
    if passes == 0 then s.(status := Stopped(NotConverged))
    else
      var t := AfterTimedPass(plan, s);
      if t.status != Running then t else AfterPasses(plan, t, passes - 1)
  }

  function Ceil(x: real): int
  {
    -((-x).Floor)
  }

  /** How often a task can be tried at most: a retry is made while the count of retries is below the limit. */
  function Attempts(maxRetries: real): (attempts: nat)
    ensures attempts > 0
  {
    if maxRetries <= 0.0 then 1 else Ceil(maxRetries) + 1
  }

  lemma RetryLeft(retries: nat, maxRetries: real)
    ensures retries as real < maxRetries <==> retries + 1 < Attempts(maxRetries)
  {
  }

  /** The ceiling on passes, for so many tasks. */
  function Ceiling(n: nat, maxRetries: real): real
  {
    n as real * (maxRetries + 1.0) + 5.0
  }

  /** How many passes the loop can make: those numbered below the ceiling. */
  function PassesBelow(ceiling: real): nat
  {
    if ceiling <= 0.0 then 0 else Ceil(ceiling)
  }

  function MaxPasses(plan: Plan): nat
  {
    PassesBelow(Ceiling(|plan.tasks|, plan.maxRetries))
  }

  /** More passes than all the tasks together have attempts. */
  predicate CeilingSuffices(n: nat, maxRetries: real)
  {
    (n * Attempts(maxRetries)) as real < Ceiling(n, maxRetries)
  }

  lemma BelowCeiling(k: nat, ceiling: real)
    ensures k as real < ceiling <==> k < PassesBelow(ceiling)
  {
  }

  /** The outcome of one parked task. */
  ghost function AfterOneParked(plan: Plan, s: State, id: Id, resumed: (nat, Id) -> Outcome): (t: State)
    requires id in s.records
    ensures t.records.Keys == s.records.Keys
  {
    var asked := s.(questions := s.questions + 1);
    EndWith(plan, asked, id, AfterOutcome(s.records[id], resumed(asked.questions, id), plan.maxRetries), TaskFailed(id))
  }

  /** The parked tasks among the first `k` get their outcomes, until one of them stops the run. */
  ghost function AfterParked(plan: Plan, s: State, k: nat, resumed: (nat, Id) -> Outcome): (t: State)
    requires k <= |plan.tasks| && s.records.Keys == Ids(plan.tasks)
    ensures t.records.Keys == s.records.Keys
  {
    if k == 0 then s
    else
      var before, id := AfterParked(plan, s, k - 1, resumed), plan.tasks[k - 1].id;
      if before.status != Running || s.records[id].status != AwaitingApproval then before
      else AfterOneParked(plan, before, id, resumed)
  }

  lemma {:induction tasks} ReadyTasksKnown(tasks: seq<DependencyNode>, records: Records)
    ensures Known(ReadyTasks(tasks, records), records)
  {
  }

  /** A turn after which the run has stopped is the last. */
  lemma {:induction false} StoppedStays(plan: Plan, s: State, ready: seq<DependencyNode>, k: nat)
    requires k <= |ready| && Known(ready, s.records)
    requires AfterTurns(plan, s, ready[..k]).status != Running
    ensures AfterTurns(plan, s, ready) == AfterTurns(plan, s, ready[..k])
    decreases |ready|
  {
    if k == |ready| {
      assert ready[..k] == ready;
    } else {
      var before := ready[..|ready| - 1];
      assert before[..k] == ready[..k];
      StoppedStays(plan, s, before, k);
    }
  }

  lemma {:induction false} ParkedStays(plan: Plan, s: State, k: nat, n: nat, resumed: (nat, Id) -> Outcome)
    requires k <= n <= |plan.tasks| && s.records.Keys == Ids(plan.tasks)
    requires AfterParked(plan, s, k, resumed).status != Running
    ensures AfterParked(plan, s, n, resumed) == AfterParked(plan, s, k, resumed)
  {
    hide AfterOneParked;
    if k < n {
      ParkedStays(plan, s, k, n - 1, resumed);
    }
  }

  // ----- what every step keeps ----------------------------------------------

  /** The clauses of the invariant: the tasks can be scheduled, the records are consistent, the limit is kept. */
  datatype Clause = Tasks | Progress | Limit

  ghost predicate Holds(plan: Plan, s: State, clause: Clause)
  {
    match clause
    case Tasks => Schedulable(plan.tasks)
    case Progress => Consistent(plan.tasks, s.records)
    case Limit =>
      && 0 <= s.agentExecutions
      && (s.agentExecutions as real < plan.maxAgentExecutions + 1.0 || s.agentExecutions == 0)
  }

  ghost predicate Sound(plan: Plan, s: State)
  {
    Covers(plan.tasks, s.records) && forall clause :: Holds(plan, s, clause)
  }

  ghost function Initial(plan: Plan): State
  {
    State(map id | id in Ids(plan.tasks) :: TaskRecord(Pending, 0), Running, 0, 0)
  }

  lemma InitialSound(plan: Plan)
    requires Schedulable(plan.tasks)
    ensures Sound(plan, Initial(plan))
  {
    forall clause ensures Holds(plan, Initial(plan), clause) {
    }
  }

  /** The invariant does not speak of the status or of how much was asked. */
  lemma SoundAlso(plan: Plan, s: State, t: State)
    requires Sound(plan, s) && t.records == s.records && t.agentExecutions == s.agentExecutions
    ensures Sound(plan, t)
  {
    forall clause ensures Holds(plan, t, clause) {
      assert Holds(plan, s, clause);
    }
  }

  lemma SoundExecuted(plan: Plan, s: State, t: State)
    requires Sound(plan, s) && t.records == s.records && t.agentExecutions == s.agentExecutions + 1
    requires s.agentExecutions as real < plan.maxAgentExecutions
    ensures Sound(plan, t)
  {
    forall clause ensures Holds(plan, t, clause) {
      assert Holds(plan, s, clause);
    }
  }

  lemma EndWithConsistent(plan: Plan, s: State, i: nat, record: TaskRecord, reason: Failure)
    requires Schedulable(plan.tasks) && Consistent(plan.tasks, s.records) && record.status != Skipped
    requires i < |plan.tasks| && IsOpen(plan.tasks[i], s.records)
    ensures var (id, t) := (plan.tasks[i].id, EndWith(plan, s, plan.tasks[i].id, record, reason));
            && Consistent(plan.tasks, t.records) && OnlySkipsBesides(s.records, t.records, id)
            && id in t.records && t.records[id] == record
  {
    var id := plan.tasks[i].id;
    var after := s.records[id := record];
    EndsConsistently(plan.tasks, s.records, i, record);
    if record.status in {Failed, Blocked} {
      SkipsBelowIsSkipSet(plan.tasks, after, id);
      SkipConsistent(plan.tasks, after, id, SkipsBelow(plan.tasks, after, id));
    }
  }

  /** Stopped by a limit or a failure, in the middle of the work. */
  predicate IsCutShort(status: RunStatus)
  {
    status.Stopped? && !(status.reason in {NotConverged, SomeTasksFailed, NoTasksCompleted})
  }

  /** What a stretch of a run keeps. */
  ghost predicate Keeps(plan: Plan, records: Records, t: State)
  {
    Sound(plan, t) && Evolves(records, t.records) && (t.status == Running || IsCutShort(t.status))
  }

  /** An open task that gets its next record: nothing else changes but by skips. */
  lemma EndWithStep(plan: Plan, s: State, i: nat, record: TaskRecord, reason: Failure)
    requires Sound(plan, s) && record.status != Skipped && i < |plan.tasks| && IsOpen(plan.tasks[i], s.records)
    requires s.records[plan.tasks[i].id].retryCount <= record.retryCount && IsCutShort(Stopped(reason))
    ensures var (id, t) := (plan.tasks[i].id, EndWith(plan, s, plan.tasks[i].id, record, reason));
            Keeps(plan, s.records, t) && OnlySkipsBesides(s.records, t.records, id) && t.records[id] == record
  {
    assert Holds(plan, s, Tasks) && Holds(plan, s, Progress);
    EndWithConsistent(plan, s, i, record, reason);
    var id := plan.tasks[i].id;
    var t := EndWith(plan, s, id, record, reason);
    SkipsEvolve(s.records, t.records, id);
    forall clause ensures Holds(plan, t, clause) {
      assert Holds(plan, s, clause);
    }
  }

  /** Only the task itself and skips change, and a run that goes on has fewer attempts left for the task. */
  ghost predicate TurnKeeps(plan: Plan, records: Records, t: State, id: Id)
    requires id in records
  {
    && Keeps(plan, records, t) && OnlySkipsBesides(records, t.records, id)
    && (t.status == Running ==>
          Remaining(t.records[id], Attempts(plan.maxRetries)) < Remaining(records[id], Attempts(plan.maxRetries)))
  }

  lemma Unchanged(plan: Plan, s: State, t: State, id: Id)
    requires Sound(plan, s) && t.records == s.records && id in s.records && IsCutShort(t.status)
    requires t.agentExecutions == s.agentExecutions
    ensures TurnKeeps(plan, s.records, t, id)
  {
    SoundAlso(plan, s, t);
  }

  lemma AttemptSound(plan: Plan, s: State, i: nat)
    requires Sound(plan, s) && i < |plan.tasks| && IsReady(plan.tasks[i], s.records)
    ensures TurnKeeps(plan, s.records, AfterAttempt(plan, s, plan.tasks[i].id), plan.tasks[i].id)
  {
    var id := plan.tasks[i].id;
    if plan.services.toolCallsExceeded(s.questions, id) {
      Unchanged(plan, s, AfterAttempt(plan, s, id), id);
    } else {
      var after := AfterOutcome(s.records[id], plan.services.outcome(s.questions, id), plan.maxRetries);
      RetryLeft(s.records[id].retryCount, plan.maxRetries);
      EndWithStep(plan, s, i, after, TaskFailed(id));
    }
  }

  lemma AssignmentSound(plan: Plan, s: State, i: nat)
    requires Sound(plan, s) && i < |plan.tasks| && IsReady(plan.tasks[i], s.records)
    requires s.agentExecutions as real < plan.maxAgentExecutions
    ensures TurnKeeps(plan, s.records, AfterAssignment(plan, s, plan.tasks[i].id), plan.tasks[i].id)
  {
    var id := plan.tasks[i].id;
    if !plan.services.assignmentValid(s.questions, id) {
      EndWithStep(plan, s, i, s.records[id].(status := Blocked), AssignmentInvalid(id));
    } else if plan.services.handoffsExceeded(s.questions, id) {
      Unchanged(plan, s, AfterAssignment(plan, s, id), id);
    } else {
      var executed := s.(agentExecutions := s.agentExecutions + 1);
      SoundExecuted(plan, s, executed);
      AttemptSound(plan, executed, i);
    }
  }

  lemma AfterTurnSound(plan: Plan, s: State, i: nat)
    requires Sound(plan, s) && i < |plan.tasks| && IsReady(plan.tasks[i], s.records)
    ensures TurnKeeps(plan, s.records, AfterTurn(plan, s, plan.tasks[i].id), plan.tasks[i].id)
  {
    hide AfterAssignment;
    if s.agentExecutions as real >= plan.maxAgentExecutions {
      Unchanged(plan, s, AfterTurn(plan, s, plan.tasks[i].id), plan.tasks[i].id);
    } else {
      var asked := s.(questions := s.questions + 1);
      SoundAlso(plan, s, asked);
      AssignmentSound(plan, asked, i);
    }
  }

  // ----- what a pass keeps --------------------------------------------------

  ghost predicate AllReady(tasks: seq<DependencyNode>, ready: seq<DependencyNode>, k: nat, records: Records)
    requires k <= |ready|
  {
    forall j :: k <= j < |ready| ==> ready[j] in tasks && IsReady(ready[j], records)
  }

  /** No attempt is gained, and if `strictly`, some are used up. */
  ghost predicate BudgetUsed(plan: Plan, s: State, t: State, strictly: bool)
    requires Ids(plan.tasks) <= s.records.Keys && Ids(plan.tasks) <= t.records.Keys
  {
    var before := Budget(plan.tasks, s.records, Attempts(plan.maxRetries));
    var after := Budget(plan.tasks, t.records, Attempts(plan.maxRetries));
    after <= before && (strictly ==> after < before)
  }

  /** The first `k` ready tasks have had their turns; the others are still ready. */
  ghost predicate TurnsKeep(plan: Plan, s: State, ready: seq<DependencyNode>, k: nat, t: State)
    requires k <= |ready| && Sound(plan, s)
  {
    && Keeps(plan, s.records, t)
    && (t.status == Running ==> AllReady(plan.tasks, ready, k, t.records) && BudgetUsed(plan, s, t, k > 0))
  }

  lemma OneTurn(plan: Plan, t: State, ready: seq<DependencyNode>, k: nat)
    requires Sound(plan, t) && k < |ready| && DistinctIds(ready) && AllReady(plan.tasks, ready, k, t.records)
    ensures var u := AfterTurn(plan, t, ready[k].id);
            && TurnKeeps(plan, t.records, u, ready[k].id)
            && (u.status == Running ==> AllReady(plan.tasks, ready, k + 1, u.records) && BudgetUsed(plan, t, u, true))
  {
    assert ready[k] in plan.tasks;
    var i :| 0 <= i < |plan.tasks| && plan.tasks[i] == ready[k];
    AfterTurnSound(plan, t, i);
    var u := AfterTurn(plan, t, ready[k].id);
    if u.status == Running {
      assert Holds(plan, t, Progress) && Holds(plan, u, Progress);
      AfterOneTurn(plan.tasks, ready, k, t.records, u.records, Attempts(plan.maxRetries));
    }
  }

  lemma NextTurn(plan: Plan, s: State, ready: seq<DependencyNode>, k: nat, t: State)
    requires Sound(plan, s) && k < |ready| && DistinctIds(ready) && TurnsKeep(plan, s, ready, k, t)
    requires t.status == Running
    ensures TurnsKeep(plan, s, ready, k + 1, AfterTurn(plan, t, ready[k].id))
  {
    OneTurn(plan, t, ready, k);
    EvolvesTransitive(s.records, t.records, AfterTurn(plan, t, ready[k].id).records);
  }

  /** Tasks found ready stay ready while those before them are worked on. */
  lemma {:induction false} AfterTurnsSound(plan: Plan, s: State, ready: seq<DependencyNode>, k: nat)
    requires Sound(plan, s) && s.status == Running && k <= |ready| && Known(ready, s.records)
    requires DistinctIds(ready) && AllReady(plan.tasks, ready, 0, s.records)
    ensures TurnsKeep(plan, s, ready, k, AfterTurns(plan, s, ready[..k]))
  {
    if k > 0 {
      AfterTurnsSound(plan, s, ready, k - 1);
      assert ready[..k][..k - 1] == ready[..k - 1];
      var t := AfterTurns(plan, s, ready[..k - 1]);
      if t.status == Running {
        NextTurn(plan, s, ready, k - 1, t);
      }
    }
  }

  // ----- what whole runs come to --------------------------------------------

  /**
   * How scheduling may end: not for want of passes if the ceiling suffices for all attempts; finished with every task
   * completed; failed with losses and nothing left to do; paused with an approval awaited and nothing ready.
   */
  ghost predicate GoodEnd(plan: Plan, s: State)
  {
    && s.status != Running && s.status != Stopped(NoTasksCompleted)
    && (s.status == Stopped(NotConverged) ==> !CeilingSuffices(|plan.tasks|, plan.maxRetries))
    && (s.status == Finished ==> AllCompleted(s.records))
    && (s.status == Stopped(SomeTasksFailed) ==> SomeLost(s.records) && !SomeOpen(s.records))
    && (s.status == Paused ==> SomeAwaiting(s.records) && NothingReady(plan.tasks, s.records))
  }

  ghost predicate NothingReady(tasks: seq<DependencyNode>, records: Records)
  {
    forall t :: t in tasks ==> !IsReady(t, records)
  }

  lemma FinalStatusTrue(records: Records)
    requires !SomeOpen(records)
    ensures if AllCompleted(records) then FinalStatus(records) == Finished
            else FinalStatus(records) == Stopped(SomeTasksFailed) && SomeLost(records)
  {
    if !AllCompleted(records) {
      var id :| id in records && !IsDone(records, id);
      assert IsLost(records, id);
    }
  }

  lemma NothingReadyEnds(plan: Plan, s: State)
    requires Sound(plan, s) && ReadyTasks(plan.tasks, s.records) == []
    ensures GoodEnd(plan, s.(status := if SomeOpen(s.records) && SomeAwaiting(s.records) then Paused
                                       else FinalStatus(s.records)))
  {
    assert Holds(plan, s, Tasks) && Holds(plan, s, Progress);
    NothingReadyMeans(plan.tasks, s.records);
    if !(SomeOpen(s.records) && SomeAwaiting(s.records)) {
      FinalStatusTrue(s.records);
    }
  }

  lemma NothingReadyMeans(tasks: seq<DependencyNode>, records: Records)
    requires Schedulable(tasks) && Consistent(tasks, records) && ReadyTasks(tasks, records) == []
    ensures NothingReady(tasks, records) && (!SomeOpen(records) || SomeAwaiting(records))
  {
    ReadyTasksExact(tasks, records);
    assert NothingReady(tasks, records);
    if !SomeAwaiting(records) {
      NothingReadyNothingOpen(tasks, records);
    }
  }

  lemma ReadyTasksAreReady(plan: Plan, s: State)
    requires Sound(plan, s)
    ensures var ready := ReadyTasks(plan.tasks, s.records);
            DistinctIds(ready) && Known(ready, s.records) && AllReady(plan.tasks, ready, 0, s.records)
  {
    assert Holds(plan, s, Tasks);
    ReadyTasksExact(plan.tasks, s.records);
    var ready := ReadyTasks(plan.tasks, s.records);
    forall k | 0 <= k < |ready| ensures ready[k] in plan.tasks && IsReady(ready[k], s.records) {
      assert ready[k] in ready;
    }
  }

  /** What one pass comes to: fewer attempts left, or a good end. */
  ghost predicate PassKeeps(plan: Plan, s: State, t: State)
    requires Sound(plan, s)
  {
    && Sound(plan, t) && Evolves(s.records, t.records)
    && if t.status == Running then BudgetUsed(plan, s, t, true)
       else GoodEnd(plan, t) && t.status != Stopped(NotConverged)
  }

  lemma PassSound(plan: Plan, s: State)
    requires Sound(plan, s) && s.status == Running
    ensures PassKeeps(plan, s, AfterPass(plan, s))
  {
    var ready := ReadyTasks(plan.tasks, s.records);
    if ready == [] {
      NothingReadyEnds(plan, s);
      SoundAlso(plan, s, AfterPass(plan, s));
    } else {
      ReadyTasksAreReady(plan, s);
      AfterTurnsSound(plan, s, ready, |ready|);
      assert ready[..|ready|] == ready;
    }
  }

  lemma TimedPassSound(plan: Plan, s: State)
    requires Sound(plan, s) && s.status == Running
    ensures PassKeeps(plan, s, AfterTimedPass(plan, s))
  {
    var asked := s.(questions := s.questions + 1);
    SoundAlso(plan, s, asked);
    if plan.services.overtime(asked.questions) {
      SoundAlso(plan, s, AfterTimedPass(plan, s));
    } else {
      PassSound(plan, asked);
    }
  }

  /** What a number of passes comes to. */
  ghost predicate RunKeeps(plan: Plan, s: State, t: State)
  {
    Sound(plan, t) && Evolves(s.records, t.records) && GoodEnd(plan, t)
  }

  lemma LaterPasses(plan: Plan, s: State, t: State, u: State)
    requires Sound(plan, s) && PassKeeps(plan, s, t) && RunKeeps(plan, t, u)
    ensures RunKeeps(plan, s, u)
  {
    EvolvesTransitive(s.records, t.records, u.records);
  }

  lemma OutOfPasses(plan: Plan, s: State)
    requires Sound(plan, s) && !CeilingSuffices(|plan.tasks|, plan.maxRetries)
    ensures RunKeeps(plan, s, AfterPasses(plan, s, 0))
  {
    SoundAlso(plan, s, AfterPasses(plan, s, 0));
  }

  /** Wherever it starts, scheduling with more passes left than attempts ends well. */
  lemma {:induction false} AfterPassesSound(plan: Plan, s: State, passes: nat)
    requires Sound(plan, s) && s.status == Running
    requires CeilingSuffices(|plan.tasks|, plan.maxRetries) ==>
               Budget(plan.tasks, s.records, Attempts(plan.maxRetries)) < passes
    ensures RunKeeps(plan, s, AfterPasses(plan, s, passes))
    decreases passes
  {
    hide AfterTimedPass, CeilingSuffices;
    if passes == 0 {
      OutOfPasses(plan, s);
    } else {
      TimedPassSound(plan, s);
      var t := AfterTimedPass(plan, s);
      if t.status == Running {
        AfterPassesSound(plan, t, passes - 1);
        LaterPasses(plan, s, t, AfterPasses(plan, t, passes - 1));
      }
    }
  }

  /** From any sound state, scheduling under the ceiling of the source ends well. */
  lemma SchedulingEndsWell(plan: Plan, s: State)
    requires Sound(plan, s) && s.status == Running
    ensures RunKeeps(plan, s, AfterPasses(plan, s, MaxPasses(plan)))
  {
    BudgetBound(plan.tasks, s.records, Attempts(plan.maxRetries));
    BelowCeiling(|plan.tasks| * Attempts(plan.maxRetries), Ceiling(|plan.tasks|, plan.maxRetries));
    AfterPassesSound(plan, s, MaxPasses(plan));
  }

  /** A ceiling that is not positive fails the run at once, whatever could have been done. */
  lemma NoPasses(plan: Plan, s: State)
    requires s.records.Keys == Ids(plan.tasks) && Ceiling(|plan.tasks|, plan.maxRetries) <= 0.0
    ensures AfterPasses(plan, s, MaxPasses(plan)) == s.(status := Stopped(NotConverged))
  {
    assert MaxPasses(plan) == 0;
  }

  // ----- resuming -----------------------------------------------------------

  ghost predicate StillParked(plan: Plan, s: State, t: State, k: nat)
    requires k <= |plan.tasks| && Ids(plan.tasks) <= s.records.Keys && Ids(plan.tasks) <= t.records.Keys
  {
    forall j :: k <= j < |plan.tasks| && s.records[plan.tasks[j].id].status == AwaitingApproval ==>
      t.records[plan.tasks[j].id] == s.records[plan.tasks[j].id]
  }

  /** What the loop over the parked tasks has done so far. */
  ghost predicate ParkedKeeps(plan: Plan, s: State, t: State, k: nat)
    requires k <= |plan.tasks|
  {
    Sound(plan, s) && Keeps(plan, s.records, t) && (t.status == Running ==> StillParked(plan, s, t, k))
  }

  lemma ParkedTurn(plan: Plan, s: State, k: nat, resumed: (nat, Id) -> Outcome)
    requires Sound(plan, s) && k < |plan.tasks| && s.records[plan.tasks[k].id].status == AwaitingApproval
    ensures var t := AfterOneParked(plan, s, plan.tasks[k].id, resumed);
            Keeps(plan, s.records, t) && OnlySkipsBesides(s.records, t.records, plan.tasks[k].id)
  {
    var id, asked := plan.tasks[k].id, s.(questions := s.questions + 1);
    SoundAlso(plan, s, asked);
    AwaitingIsOpen(plan, s, k);
    var after := AfterOutcome(s.records[id], resumed(asked.questions, id), plan.maxRetries);
    EndWithStep(plan, asked, k, after, TaskFailed(id));
  }

  lemma AwaitingIsOpen(plan: Plan, s: State, k: nat)
    requires Sound(plan, s) && k < |plan.tasks| && s.records[plan.tasks[k].id].status == AwaitingApproval
    ensures IsOpen(plan.tasks[k], s.records)
  {
    assert Holds(plan, s, Progress);
    assert TaskConsistent(plan.tasks[k], s.records);
  }

  lemma ParkedStep(plan: Plan, s: State, t: State, u: State, k: nat)
    requires k < |plan.tasks| && ParkedKeeps(plan, s, t, k) && t.status == Running
    requires Keeps(plan, t.records, u) && OnlySkipsBesides(t.records, u.records, plan.tasks[k].id)
    ensures ParkedKeeps(plan, s, u, k + 1)
  {
    EvolvesTransitive(s.records, t.records, u.records);
    assert Holds(plan, s, Tasks);
    forall j | k < j < |plan.tasks| && s.records[plan.tasks[j].id].status == AwaitingApproval
      ensures u.records[plan.tasks[j].id] == s.records[plan.tasks[j].id]
    {
      assert plan.tasks[j].id != plan.tasks[k].id;
    }
  }

  lemma ParkedNext(plan: Plan, s: State, t: State, k: nat, resumed: (nat, Id) -> Outcome)
    requires k < |plan.tasks| && ParkedKeeps(plan, s, t, k) && t.status == Running
    requires s.records[plan.tasks[k].id].status == AwaitingApproval
    ensures ParkedKeeps(plan, s, AfterOneParked(plan, t, plan.tasks[k].id, resumed), k + 1)
  {
    assert t.records[plan.tasks[k].id] == s.records[plan.tasks[k].id];
    ParkedTurn(plan, t, k, resumed);
    ParkedStep(plan, s, t, AfterOneParked(plan, t, plan.tasks[k].id, resumed), k);
  }

  lemma {:induction false} AfterParkedSound(plan: Plan, s: State, k: nat, resumed: (nat, Id) -> Outcome)
    requires Sound(plan, s) && s.status == Running && k <= |plan.tasks|
    ensures ParkedKeeps(plan, s, AfterParked(plan, s, k, resumed), k)
  {
    if k > 0 {
      AfterParkedSound(plan, s, k - 1, resumed);
      var t := AfterParked(plan, s, k - 1, resumed);
      if t.status == Running && s.records[plan.tasks[k - 1].id].status == AwaitingApproval {
        ParkedNext(plan, s, t, k - 1, resumed);
      }
    }
  }

  lemma TaskKnown(plan: Plan, s: State, k: nat)
    requires Sound(plan, s) && k < |plan.tasks|
    ensures plan.tasks[k].id in s.records
  {
  }

  /** Where the loop over the parked tasks stands: the next one is as it was. */
  lemma ParkedSoFar(plan: Plan, s: State, k: nat, resumed: (nat, Id) -> Outcome)
    requires Sound(plan, s) && s.status == Running && k < |plan.tasks|
    requires AfterParked(plan, s, k, resumed).status == Running
    ensures var (t, id) := (AfterParked(plan, s, k, resumed), plan.tasks[k].id);
            && Sound(plan, t) && id in s.records
            && (s.records[id].status == AwaitingApproval ==> t.records[id] == s.records[id])
  {
    AfterParkedSound(plan, s, k, resumed);
  }

  /** A resumed run: the parked tasks first, then scheduling. */
  ghost function AfterResume(plan: Plan, s: State, resumed: (nat, Id) -> Outcome): State
    requires s.records.Keys == Ids(plan.tasks)
  {
    var parked := AfterParked(plan, s.(status := Running), |plan.tasks|, resumed);
    if parked.status != Running then parked else AfterPasses(plan, parked, MaxPasses(plan))
  }

  lemma ResumingEndsWell(plan: Plan, s: State, resumed: (nat, Id) -> Outcome)
    requires Sound(plan, s) && s.status == Paused
    ensures RunKeeps(plan, s, AfterResume(plan, s, resumed))
  {
    var running := s.(status := Running);
    SoundAlso(plan, s, running);
    AfterParkedSound(plan, running, |plan.tasks|, resumed);
    var parked := AfterParked(plan, running, |plan.tasks|, resumed);
    if parked.status == Running {
      SchedulingEndsWell(plan, parked);
      EvolvesTransitive(s.records, parked.records, AfterPasses(plan, parked, MaxPasses(plan)).records);
    }
  }
}
