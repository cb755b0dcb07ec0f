/**
 * The workflow engine of core/workflows/workflow-engine.ts: the loops and updates in place, each method proved to take
 * the run where the functions of `WorkflowSteps` say.
 */
module WorkflowEngine {
  import opened Wrappers
  import opened Digraphs
  import opened CycleDetection
  import opened WorkflowDrafts
  import opened WorkflowRecords
  import opened WorkflowSteps

  class WorkflowRun {
    const plan: Plan
    var records: Records
    var status: RunStatus
    var agentExecutions: int
    var questions: nat

    ghost function Current(): State
      reads this
    {
      State(records, status, agentExecutions, questions)
    }

    ghost predicate Valid()
      reads this
    {
      Sound(plan, Current())
    }

    /** Every task starts pending with no retries. */
    constructor (plan: Plan)
      requires Schedulable(plan.tasks)
      ensures this.plan == plan && Valid() && Current() == Initial(plan)
    {
      this.plan := plan;
      records := map id | id in Ids(plan.tasks) :: TaskRecord(Pending, 0);
      status, agentExecutions, questions := Running, 0, 0;
      new;
      InitialSound(plan);
    }

    /** Marks everything below a lost task that is still pending as skipped. */
    method PropagateSkip(lost: Id)
      requires Schedulable(plan.tasks) && ConsistentBut(plan.tasks, records, lost)
      modifies this`records
      ensures records == Skip(old(records), SkipsBelow(plan.tasks, old(records), lost))
    {
      var toSkip := FindSkips(plan.tasks, records, lost);
      records := Skip(records, toSkip);
    }

    /** Ends or restarts one open task; a loss is propagated, and in abort mode stops the run. */
    method Settle(ghost i: nat, id: Id, record: TaskRecord, reason: Failure)
      requires Valid() && status == Running && record.status != Skipped
      requires i < |plan.tasks| && plan.tasks[i].id == id && IsOpen(plan.tasks[i], records)
      modifies this`records, this`status
      ensures Current() == EndWith(plan, old(Current()), id, record, reason)
    {
      assert Holds(plan, Current(), Tasks) && Holds(plan, Current(), Progress);
      EndsConsistently(plan.tasks, records, i, record);
      records := records[id := record];
      if record.status == Failed || record.status == Blocked {
        PropagateSkip(id);
        if plan.abortOnFailure {
          status := Stopped(reason);
        }
      }
    }

    method ApplyTaskOutcome(ghost i: nat, id: Id, outcome: Outcome)
      requires Valid() && status == Running
      requires i < |plan.tasks| && plan.tasks[i].id == id && IsOpen(plan.tasks[i], records)
      modifies this`records, this`status
      ensures Current() == EndWith(plan, old(Current()), id,
                                   AfterOutcome(old(records[id]), outcome, plan.maxRetries), TaskFailed(id))
      ensures outcome == Completes ==>
                status == Running && records == old(records)[id := old(records[id]).(status := Completed)]
      ensures outcome == AwaitsApproval ==>
                status == Running && records == old(records)[id := old(records[id]).(status := AwaitingApproval)]
    {
      var record := records[id];
      match outcome
      case AwaitsApproval => Settle(i, id, record.(status := AwaitingApproval), TaskFailed(id));
      case Completes => Settle(i, id, record.(status := Completed), TaskFailed(id));
      case Fails(retryable) =>
        if (record.retryCount as real) < plan.maxRetries && retryable {
          Settle(i, id, TaskRecord(Pending, record.retryCount + 1), TaskFailed(id));
        } else {
          Settle(i, id, record.(status := Failed), TaskFailed(id));
        }
    }

    method Finalize()
      modifies this`status
      ensures status == FinalStatus(records)
      ensures !SomeOpen(records) ==>
                if AllCompleted(records) then status == Finished
                else status == Stopped(SomeTasksFailed) && SomeLost(records)
    {
      if !SomeOpen(records) {
        FinalStatusTrue(records);
      }
      if AllCompleted(records) {
        status := Finished;
      } else if SomeLost(records) {
        status := Stopped(SomeTasksFailed);
      } else {
        status := Stopped(NoTasksCompleted);
      }
    }

    /** One turn of the inner loop over ready tasks, after the limit on executions: assign, then dispatch. */
    method Dispatch(ghost i: nat, id: Id)
      requires Valid() && status == Running && agentExecutions as real < plan.maxAgentExecutions
      requires i < |plan.tasks| && plan.tasks[i].id == id && IsReady(plan.tasks[i], records)
      modifies this`records, this`status, this`agentExecutions
      ensures Current() == AfterAssignment(plan, old(Current()), id)
    {
      if !plan.services.assignmentValid(questions, id) {
        Settle(i, id, records[id].(status := Blocked), AssignmentInvalid(id));
        return;
      }
      if plan.services.handoffsExceeded(questions, id) {
        status := Stopped(MaxHandoffs);
        return;
      }
      ghost var before := Current();
      agentExecutions := agentExecutions + 1;
      SoundExecuted(plan, before, Current());
      Attempt(i, id);
    }

    method Attempt(ghost i: nat, id: Id)
      requires Valid() && status == Running
      requires i < |plan.tasks| && plan.tasks[i].id == id && IsReady(plan.tasks[i], records)
      modifies this`records, this`status
      ensures Current() == AfterAttempt(plan, old(Current()), id)
    {
      if plan.services.toolCallsExceeded(questions, id) {
        status := Stopped(MaxToolCalls);
        return;
      }
      ApplyTaskOutcome(i, id, plan.services.outcome(questions, id));
    }

    method RunReady(ghost i: nat, spec: DependencyNode)
      requires Valid() && status == Running
      requires i < |plan.tasks| && plan.tasks[i] == spec && IsReady(spec, records)
      modifies this`records, this`status, this`agentExecutions, this`questions
      ensures Current() == AfterTurn(plan, old(Current()), spec.id)
    {
      if agentExecutions as real >= plan.maxAgentExecutions {
        status := Stopped(MaxAgentExecutions);
        return;
      }
      ghost var before := Current();
      questions := questions + 1;
      SoundAlso(plan, before, Current());
      Dispatch(i, spec.id);
    }

    /** The inner loop over the tasks found ready at the start of the pass. */
    method RunAllReady(ready: seq<DependencyNode>)
      requires Valid() && status == Running && DistinctIds(ready) && Known(ready, records)
      requires AllReady(plan.tasks, ready, 0, records)
      modifies this`records, this`status, this`agentExecutions, this`questions
      ensures Current() == AfterTurns(plan, old(Current()), ready)
    {
      ghost var start := Current();
      for k := 0 to |ready|
        invariant Current() == AfterTurns(plan, start, ready[..k]) && status == Running
      {
        AfterTurnsSound(plan, start, ready, k);
        assert ready[..k + 1][..k] == ready[..k];
        assert ready[k] in plan.tasks;
        ghost var i :| 0 <= i < |plan.tasks| && plan.tasks[i] == ready[k];
        RunReady(i, ready[k]);
        if status != Running {
          StoppedStays(plan, start, ready, k + 1);
          return;
        }
      }
      assert ready[..|ready|] == ready;
    }

    /** One pass of the outer loop, after the clock. */
    method RunPass()
      requires Valid() && status == Running
      modifies this`records, this`status, this`agentExecutions, this`questions
      ensures Current() == AfterPass(plan, old(Current()))
    {
      var ready := ReadyTasks(plan.tasks, records);
      if ready == [] {
        if SomeOpen(records) && SomeAwaiting(records) {
          status := Paused;
        } else {
          Finalize();
        }
        return;
      }
      ReadyTasksAreReady(plan, Current());
      RunAllReady(ready);
    }

    /** The body of the scheduling loop. */
    method RunTimedPass()
      requires Valid() && status == Running
      modifies this`records, this`status, this`agentExecutions, this`questions
      ensures Current() == AfterTimedPass(plan, old(Current())) && Valid()
    {
      ghost var before := Current();
      TimedPassSound(plan, before);
      questions := questions + 1;
      if plan.services.overtime(questions) {
        status := Stopped(MaxDuration);
        return;
      }
      SoundAlso(plan, before, Current());
      RunPass();
    }

    /** The scheduling loop: where the specification says, and so always to a good end. */
    method Schedule()
      requires Valid() && status == Running
      modifies this`records, this`status, this`agentExecutions, this`questions
      ensures Current() == AfterPasses(plan, old(Current()), MaxPasses(plan))
      ensures RunKeeps(plan, old(Current()), Current())
    {
      hide Ceiling, CeilingSuffices;
      SchedulingEndsWell(plan, Current());
      SchedulePasses(Ceiling(|plan.tasks|, plan.maxRetries));
    }

    /** One pass of a run that is bound to end in a given state after so many. */
    method SchedulePass(ghost end: State, ghost left: nat)
      requires Valid() && status == Running && left > 0 && end == AfterPasses(plan, Current(), left)
      modifies this`records, this`status, this`agentExecutions, this`questions
      ensures if status == Running then Valid() && end == AfterPasses(plan, Current(), left - 1) else Current() == end
    {
      RunTimedPass();
    }

    method SchedulePasses(maxPasses: real)
      requires Valid() && status == Running
      modifies this`records, this`status, this`agentExecutions, this`questions
      ensures Current() == AfterPasses(plan, old(Current()), PassesBelow(maxPasses))
    {
      hide AfterTimedPass;
      ghost var ceiling := PassesBelow(maxPasses);
      ghost var end := AfterPasses(plan, Current(), ceiling);
      var pass := 0;
      while pass as real < maxPasses
        invariant 0 <= pass <= ceiling && Valid() && status == Running
        invariant end == AfterPasses(plan, Current(), ceiling - pass)
        decreases ceiling - pass
      {
        BelowCeiling(pass, maxPasses);
        SchedulePass(end, ceiling - pass);
        if status != Running {
          return;
        }
        pass := pass + 1;
      }
      BelowCeiling(pass, maxPasses);
      status := Stopped(NotConverged);
    }

    method ResumeOne(k: nat, resumed: (nat, Id) -> Outcome)
      requires Valid() && status == Running && k < |plan.tasks|
      requires records[plan.tasks[k].id].status == AwaitingApproval
      modifies this`records, this`status, this`questions
      ensures Current() == AfterOneParked(plan, old(Current()), plan.tasks[k].id, resumed)
    {
      ghost var before := Current();
      AwaitingIsOpen(plan, before, k);
      questions := questions + 1;
      SoundAlso(plan, before, Current());
      ApplyTaskOutcome(k, plan.tasks[k].id, resumed(questions, plan.tasks[k].id));
    }

    /** The next task of the loop, if it was parked when the run was resumed. */
    method ResumeNext(ghost start: State, k: nat, wasParked: bool, resumed: (nat, Id) -> Outcome)
      requires Sound(plan, start) && start.status == Running && status == Running && k < |plan.tasks|
      requires Current() == AfterParked(plan, start, k, resumed)
      requires wasParked == (start.records[plan.tasks[k].id].status == AwaitingApproval)
      modifies this`records, this`status, this`questions
      ensures Current() == AfterParked(plan, start, k + 1, resumed)
    {
      ParkedSoFar(plan, start, k, resumed);
      if wasParked {
        ResumeOne(k, resumed);
      }
    }

    /** The loop over the tasks that were parked when the run was resumed. */
    method ResumeParked(resumed: (nat, Id) -> Outcome)
      requires Valid() && status == Running
      modifies this`records, this`status, this`questions
      ensures Current() == AfterParked(plan, old(Current()), |plan.tasks|, resumed)
    {
      hide AfterOneParked;
      ghost var start := Current();
      var parked := records;
      for k := 0 to |plan.tasks|
        invariant Current() == AfterParked(plan, start, k, resumed) && status == Running
      {
        TaskKnown(plan, start, k);
        ResumeNext(start, k, parked[plan.tasks[k].id].status == AwaitingApproval, resumed);
        if status != Running {
          ParkedStays(plan, start, k + 1, |plan.tasks|, resumed);
          return;
        }
      }
    }

    /** Re-enters a paused run: the parked tasks get their outcome, then scheduling goes on. */
    method Resume(resumed: (nat, Id) -> Outcome)
      requires Valid() && status == Paused
      modifies this`records, this`status, this`agentExecutions, this`questions
      ensures Current() == AfterResume(plan, old(Current()), resumed)
      ensures RunKeeps(plan, old(Current()), Current())
    {
      ghost var start := Current();
      ResumingEndsWell(plan, start, resumed);
      status := Running;
      SoundAlso(plan, start, Current());
      AfterParkedSound(plan, Current(), |plan.tasks|, resumed);
      ResumeParked(resumed);
      if status != Running {
        return;
      }
      Schedule();
    }
  }

  datatype CreateError = InvalidDraft(error: DraftError) | TooManyTasks

  /** `WorkflowSystem.create` followed by `run`: only an accepted draft within the task limit becomes a run. */
  method Create(draft: Option<Draft>, maxTasks: real, maxRetries: real, maxAgentExecutions: real,
      services: Services)
    returns (r: Result<WorkflowRun, CreateError>)
    ensures r.Ok? <==> Accepted(draft) && |draft.value.tasks.value| as real <= maxTasks
    ensures r.Ok? ==> && fresh(r.value) && r.value.Valid() && r.value.Current() == Initial(r.value.plan)
                      && r.value.plan == Plan(Nodes(draft.value.tasks.value), maxRetries, maxAgentExecutions,
                                              draft.value.failureBehavior != Some("continue"), services)
    ensures r.Err? && r.error.InvalidDraft? ==> ErrorHolds(draft, r.error.error)
  {
    var verdict := ValidateWorkflowDraft(draft);
    if verdict.Err? {
      return Err(InvalidDraft(verdict.error));
    }
    var tasks := Nodes(draft.value.tasks.value);
    if |tasks| as real > maxTasks {
      return Err(TooManyTasks);
    }
    var abortOnFailure := draft.value.failureBehavior != Some("continue");
    var run := new WorkflowRun(Plan(tasks, maxRetries, maxAgentExecutions, abortOnFailure, services));
    return Ok(run);
  }
}
