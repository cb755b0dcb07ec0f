/**
 * What the answers of the services come to on whole runs of core/workflows/workflow-engine.ts: the record of every task
 * and the end of the run, from the questions that were put and what was answered.
 */
module WorkflowOutcomes {
  import opened Digraphs
  import opened CycleDetection
  import opened WorkflowDrafts
  import opened WorkflowRecords
  import opened WorkflowSteps

  /** What a turn of a task met with. */
  datatype Verdict = Refused | HandoffLimit | ToolLimit | Answer(outcome: Outcome)

  /** The questions of a run: one about the time when a pass begins, one for every turn of a task. */
  datatype Entry = PassBegins(question: nat) | Turn(question: nat, id: Id, verdict: Verdict)

  type Log = seq<Entry>

  // ----- the log of a run ---------------------------------------------------

  function VerdictOf(services: Services, question: nat, id: Id): Verdict
  {
    if !services.assignmentValid(question, id) then Refused
    else if services.handoffsExceeded(question, id) then HandoffLimit
    else if services.toolCallsExceeded(question, id) then ToolLimit
    else Answer(services.outcome(question, id))
  }

  ghost function TurnLog(plan: Plan, s: State, id: Id): Log
  {
    if s.agentExecutions as real >= plan.maxAgentExecutions then []
    else [Turn(s.questions + 1, id, VerdictOf(plan.services, s.questions + 1, id))]
  }

  ghost function TurnsLog(plan: Plan, s: State, ready: seq<DependencyNode>): Log
    requires Known(ready, s.records)
  {
    if ready == [] then []
    else
      var last := |ready| - 1;
      var before := AfterTurns(plan, s, ready[..last]);
      TurnsLog(plan, s, ready[..last])
      + if before.status != Running then [] else TurnLog(plan, before, ready[last].id)
  }

  ghost function PassLog(plan: Plan, s: State): Log
    requires s.records.Keys == Ids(plan.tasks)
  {
    var asked := s.(questions := s.questions + 1);
    ReadyTasksKnown(plan.tasks, s.records);
    [PassBegins(asked.questions)]
    + if plan.services.overtime(asked.questions) then []
      else TurnsLog(plan, asked, ReadyTasks(plan.tasks, s.records))
  }

  ghost function PassesLog(plan: Plan, s: State, passes: nat): Log
    requires s.records.Keys == Ids(plan.tasks)
    decreases passes
  {
    if passes == 0 then []
    else
      var t := AfterTimedPass(plan, s);
      PassLog(plan, s) + if t.status != Running then [] else PassesLog(plan, t, passes - 1)
  }

  ghost function ParkedLog(plan: Plan, s: State, k: nat, resumed: (nat, Id) -> Outcome): Log
    requires k <= |plan.tasks| && s.records.Keys == Ids(plan.tasks)
  {
    if k == 0 then []
    else
      var before, id := AfterParked(plan, s, k - 1, resumed), plan.tasks[k - 1].id;
      ParkedLog(plan, s, k - 1, resumed)
      + if before.status != Running || s.records[id].status != AwaitingApproval then []
        else [Turn(before.questions + 1, id, Answer(resumed(before.questions + 1, id)))]
  }

  /** A whole run: scheduling with so many passes, or resuming with the decisions that were made. */
  datatype Run = Scheduling(passes: nat) | Resuming(resumed: (nat, Id) -> Outcome)

  ghost predicate CanStart(plan: Plan, s: State, run: Run)
  {
    Sound(plan, s) && s.status == if run.Scheduling? then Running else Paused
  }

  ghost function LogOf(plan: Plan, s: State, run: Run): Log
    requires CanStart(plan, s, run)
  {
    match run
    case Scheduling(passes) => PassesLog(plan, s, passes)
    case Resuming(resumed) =>
      var running := s.(status := Running);
      var parked := AfterParked(plan, running, |plan.tasks|, resumed);
      ParkedLog(plan, running, |plan.tasks|, resumed)
      + if parked.status != Running then [] else PassesLog(plan, parked, MaxPasses(plan))
  }

  ghost function EndOf(plan: Plan, s: State, run: Run): State
    requires CanStart(plan, s, run)
  {
    match run
    case Scheduling(passes) => AfterPasses(plan, s, passes)
    case Resuming(resumed) => AfterResume(plan, s, resumed)
  }

  // ----- what a log says ----------------------------------------------------

  /** What the turns of one task met with, in order. */
  ghost function VerdictsOn(log: Log, id: Id): seq<Verdict>
  {
    if log == [] then []
    else
      var last := |log| - 1;
      VerdictsOn(log[..last], id) + if log[last].Turn? && log[last].id == id then [log[last].verdict] else []
  }

  lemma {:induction false} VerdictsAppend(a: Log, b: Log, id: Id)
    ensures VerdictsOn(a + b, id) == VerdictsOn(a, id) + VerdictsOn(b, id)
  {
    if b == [] {
      assert a + b == a;
    } else {
      var last := |b| - 1;
      assert (a + b)[..|a + b| - 1] == a + b[..last];
      VerdictsAppend(a, b[..last], id);
    }
  }

  /** A failure that may be tried again, while a retry is left. */
  predicate TriesAgain(verdict: Verdict, retries: int, maxRetries: real)
  {
    verdict == Answer(Fails(true)) && retries as real < maxRetries
  }

  /** Every turn but the last was a failure that could be tried again. */
  ghost predicate AllTryAgain(verdicts: seq<Verdict>, retries: nat, maxRetries: real)
  {
    forall k :: 0 <= k < |verdicts| ==> TriesAgain(verdicts[k], retries + k, maxRetries)
  }

  /** How a task stands after its last turn, with the retries it had before that turn. */
  ghost predicate StandsBy(verdict: Verdict, retries: int, maxRetries: real, after: TaskRecord)
  {
    if TriesAgain(verdict, retries, maxRetries) then after.status == Pending && after.retryCount == retries + 1
    else
      && after.retryCount == retries
      && after.status == match verdict
                         case Refused => Blocked
                         case HandoffLimit => Pending
                         case ToolLimit => Pending
                         case Answer(Completes) => Completed
                         case Answer(AwaitsApproval) => AwaitingApproval
                         case Answer(Fails(_)) => Failed
  }

  /** From what its turns met with: how the record of a task changes. */
  ghost predicate TaskAccount(before: TaskRecord, verdicts: seq<Verdict>, maxRetries: real, after: TaskRecord)
  {
    if verdicts == [] then after == before || (before.status == Pending && after == before.(status := Skipped))
    else
      var last := |verdicts| - 1;
      && before.status in {Pending, AwaitingApproval}
      && AllTryAgain(verdicts[..last], before.retryCount, maxRetries)
      && StandsBy(verdicts[last], before.retryCount + last, maxRetries, after)
  }

  ghost predicate Becomes(before: Records, after: Records, id: Id, status: TaskStatus)
  {
    id in before && id in after && after[id].status == status && before[id].status != status
  }

  /** What must have happened for a run to be stopped for a reason. */
  ghost predicate HasReason(plan: Plan, before: Records, log: Log, after: Records, reason: Failure)
  {
    match reason
    case MaxDuration => exists e :: e in log && e.PassBegins? && plan.services.overtime(e.question)
    case MaxHandoffs => exists e :: e in log && e.Turn? && e.verdict == HandoffLimit
    case MaxToolCalls => exists e :: e in log && e.Turn? && e.verdict == ToolLimit
    case AssignmentInvalid(id) => plan.abortOnFailure && Becomes(before, after, id, Blocked)
    case TaskFailed(id) => plan.abortOnFailure && Becomes(before, after, id, Failed)
    case _ => false
  }

  /** The reasons that stop a run in the middle of a pass, other than the limit on executions. */
  predicate IsEvent(reason: Failure)
  {
    reason in {MaxDuration, MaxHandoffs, MaxToolCalls} || reason.AssignmentInvalid? || reason.TaskFailed?
  }

  ghost predicate StatusAccount(plan: Plan, s: State, log: Log, t: State)
  {
    forall reason :: IsEvent(reason) ==>
      (t.status == Stopped(reason) <==> HasReason(plan, s.records, log, t.records, reason))
  }

  /** Whatever had a turn has all its dependencies completed. */
  ghost predicate OnlyUnblocked(plan: Plan, log: Log, records: Records)
  {
    forall e, i :: e in log && e.Turn? && 0 <= i < |plan.tasks| && plan.tasks[i].id == e.id ==>
      DependenciesDone(plan.tasks[i], records)
  }

  /** The account of a stretch of a run. */
  ghost predicate Account(plan: Plan, s: State, log: Log, t: State)
  {
    && Sound(plan, s) && Sound(plan, t) && Evolves(s.records, t.records)
    && OnlyUnblocked(plan, log, t.records)
    && (forall e :: e in log && e.Turn? ==> e.id in s.records)
    && (forall id :: id in s.records ==>
          TaskAccount(s.records[id], VerdictsOn(log, id), plan.maxRetries, t.records[id]))
    && StatusAccount(plan, s, log, t)
  }

  // ----- one step -----------------------------------------------------------

  lemma NothingAsked(plan: Plan, s: State, t: State)
    requires Sound(plan, s) && t.records == s.records && t.agentExecutions == s.agentExecutions
    requires t.status.Stopped? ==> !IsEvent(t.status.reason)
    ensures Account(plan, s, [], t)
  {
    SoundAlso(plan, s, t);
  }

  lemma PassBegun(plan: Plan, s: State, t: State)
    requires Sound(plan, s) && t.records == s.records && t.agentExecutions == s.agentExecutions
    requires t.status == if plan.services.overtime(t.questions) then Stopped(MaxDuration) else Running
    ensures Account(plan, s, [PassBegins(t.questions)], t)
  {
    SoundAlso(plan, s, t);
    var log := [PassBegins(t.questions)];
    assert log[..0] == [];
    forall reason | IsEvent(reason)
      ensures t.status == Stopped(reason) <==> HasReason(plan, s.records, log, t.records, reason)
    {
      assert log[0] in log;
    }
  }

  /** How a turn leaves the run. */
  predicate LeavesRun(plan: Plan, id: Id, verdict: Verdict, after: TaskRecord, status: RunStatus)
  {
    status == if verdict == HandoffLimit then Stopped(MaxHandoffs)
              else if verdict == ToolLimit then Stopped(MaxToolCalls)
              else if plan.abortOnFailure && after.status == Failed then Stopped(TaskFailed(id))
              else if plan.abortOnFailure && after.status == Blocked then Stopped(AssignmentInvalid(id))
              else Running
  }

  lemma OneVerdict(question: nat, id: Id, verdict: Verdict, x: Id)
    ensures VerdictsOn([Turn(question, id, verdict)], x) == if x == id then [verdict] else []
  {
    assert [Turn(question, id, verdict)][..0] == [];
  }

  lemma OneTurnStatus(plan: Plan, s: State, i: nat, question: nat, verdict: Verdict, t: State)
    requires i < |plan.tasks| && IsOpen(plan.tasks[i], s.records)
    requires OnlySkipsBesides(s.records, t.records, plan.tasks[i].id)
    requires LeavesRun(plan, plan.tasks[i].id, verdict, t.records[plan.tasks[i].id], t.status)
    requires StandsBy(verdict, s.records[plan.tasks[i].id].retryCount, plan.maxRetries, t.records[plan.tasks[i].id])
    ensures StatusAccount(plan, s, [Turn(question, plan.tasks[i].id, verdict)], t)
  {
    var id := plan.tasks[i].id;
    var log := [Turn(question, id, verdict)];
    assert log[0] in log;
    forall reason | IsEvent(reason)
      ensures t.status == Stopped(reason) <==> HasReason(plan, s.records, log, t.records, reason)
    {
    }
  }

  lemma OneTurnAccount(plan: Plan, s: State, i: nat, question: nat, verdict: Verdict, t: State)
    requires Sound(plan, s) && Sound(plan, t) && Evolves(s.records, t.records)
    requires i < |plan.tasks| && IsOpen(plan.tasks[i], s.records)
    requires OnlySkipsBesides(s.records, t.records, plan.tasks[i].id)
    requires StandsBy(verdict, s.records[plan.tasks[i].id].retryCount, plan.maxRetries, t.records[plan.tasks[i].id])
    requires LeavesRun(plan, plan.tasks[i].id, verdict, t.records[plan.tasks[i].id], t.status)
    ensures Account(plan, s, [Turn(question, plan.tasks[i].id, verdict)], t)
  {
    hide Holds, StatusAccount, TaskAccount, OnlyUnblocked, LeavesRun, StandsBy;
    var id := plan.tasks[i].id;
    var log := [Turn(question, id, verdict)];
    TasksDistinct(plan, s);
    OneTurnUnblocked(plan, s, i, log, t);
    OneTurnStatus(plan, s, i, question, verdict, t);
    forall x | x in s.records ensures TaskAccount(s.records[x], VerdictsOn(log, x), plan.maxRetries, t.records[x]) {
      OneVerdict(question, id, verdict, x);
      OneTurnTask(s.records, id, verdict, plan.maxRetries, t.records, x);
    }
  }

  lemma TasksDistinct(plan: Plan, s: State)
    requires Sound(plan, s)
    ensures DistinctIds(plan.tasks)
  {
    assert Holds(plan, s, Tasks);
  }

  lemma OneTurnUnblocked(plan: Plan, s: State, i: nat, log: Log, t: State)
    requires DistinctIds(plan.tasks) && i < |plan.tasks| && IsOpen(plan.tasks[i], s.records)
    requires Evolves(s.records, t.records) && |log| == 1 && log[0].Turn? && log[0].id == plan.tasks[i].id
    ensures OnlyUnblocked(plan, log, t.records)
  {
  }

  lemma OneTurnTask(before: Records, id: Id, verdict: Verdict, maxRetries: real, after: Records, x: Id)
    requires id in before && before[id].status in {Pending, AwaitingApproval} && x in before
    requires OnlySkipsBesides(before, after, id) && StandsBy(verdict, before[id].retryCount, maxRetries, after[id])
    ensures TaskAccount(before[x], if x == id then [verdict] else [], maxRetries, after[x])
  {
    assert [verdict][..0] == [];
  }

  /** An answer that was put to a task leaves its record as the answer says, and the run with it. */
  lemma AnswerStands(plan: Plan, s: State, i: nat, outcome: Outcome)
    requires Sound(plan, s) && s.status == Running && i < |plan.tasks| && IsOpen(plan.tasks[i], s.records)
    ensures var id := plan.tasks[i].id;
            var t := EndWith(plan, s, id, AfterOutcome(s.records[id], outcome, plan.maxRetries), TaskFailed(id));
            && Keeps(plan, s.records, t) && OnlySkipsBesides(s.records, t.records, id)
            && StandsBy(Answer(outcome), s.records[id].retryCount, plan.maxRetries, t.records[id])
            && LeavesRun(plan, id, Answer(outcome), t.records[id], t.status)
  {
    var id := plan.tasks[i].id;
    EndWithStep(plan, s, i, AfterOutcome(s.records[id], outcome, plan.maxRetries), TaskFailed(id));
  }

  lemma AttemptAccount(plan: Plan, s: State, i: nat)
    requires Sound(plan, s) && s.status == Running && i < |plan.tasks| && IsReady(plan.tasks[i], s.records)
    requires plan.services.assignmentValid(s.questions, plan.tasks[i].id)
    requires !plan.services.handoffsExceeded(s.questions, plan.tasks[i].id)
    ensures var id := plan.tasks[i].id;
            var verdict := VerdictOf(plan.services, s.questions, id);
            Account(plan, s, [Turn(s.questions, id, verdict)], AfterAttempt(plan, s, id))
  {
    var id := plan.tasks[i].id;
    var verdict := VerdictOf(plan.services, s.questions, id);
    AttemptSound(plan, s, i);
    if verdict.Answer? {
      AnswerStands(plan, s, i, verdict.outcome);
    }
    OneTurnAccount(plan, s, i, s.questions, verdict, AfterAttempt(plan, s, id));
  }

  lemma AssignmentAccount(plan: Plan, s: State, i: nat)
    requires Sound(plan, s) && s.status == Running && i < |plan.tasks| && IsReady(plan.tasks[i], s.records)
    requires s.agentExecutions as real < plan.maxAgentExecutions
    ensures var id := plan.tasks[i].id;
            var verdict := VerdictOf(plan.services, s.questions, id);
            Account(plan, s, [Turn(s.questions, id, verdict)], AfterAssignment(plan, s, id))
  {
    var id := plan.tasks[i].id;
    var verdict := VerdictOf(plan.services, s.questions, id);
    AssignmentSound(plan, s, i);
    if !plan.services.assignmentValid(s.questions, id) {
      EndWithStep(plan, s, i, s.records[id].(status := Blocked), AssignmentInvalid(id));
      OneTurnAccount(plan, s, i, s.questions, verdict, AfterAssignment(plan, s, id));
    } else if plan.services.handoffsExceeded(s.questions, id) {
      OneTurnAccount(plan, s, i, s.questions, verdict, AfterAssignment(plan, s, id));
    } else {
      var executed := s.(agentExecutions := s.agentExecutions + 1);
      SoundExecuted(plan, s, executed);
      AttemptAccount(plan, executed, i);
      SameAccount(plan, executed, s, [Turn(s.questions, id, verdict)], AfterAssignment(plan, s, id));
    }
  }

  /** An account speaks of the records at the start and of nothing else there. */
  lemma SameAccount(plan: Plan, s: State, r: State, log: Log, t: State)
    requires Account(plan, s, log, t) && Sound(plan, r) && r.records == s.records
    ensures Account(plan, r, log, t)
  {
    forall reason | IsEvent(reason)
      ensures t.status == Stopped(reason) <==> HasReason(plan, r.records, log, t.records, reason)
    {
    }
  }

  lemma TurnAccount(plan: Plan, s: State, i: nat)
    requires Sound(plan, s) && s.status == Running && i < |plan.tasks| && IsReady(plan.tasks[i], s.records)
    ensures Account(plan, s, TurnLog(plan, s, plan.tasks[i].id), AfterTurn(plan, s, plan.tasks[i].id))
  {
    hide AfterAssignment, Account;
    var id := plan.tasks[i].id;
    if s.agentExecutions as real >= plan.maxAgentExecutions {
      NothingAsked(plan, s, AfterTurn(plan, s, id));
    } else {
      var asked := s.(questions := s.questions + 1);
      SoundAlso(plan, s, asked);
      AssignmentAccount(plan, asked, i);
      SameAccount(plan, asked, s, TurnLog(plan, s, id), AfterTurn(plan, s, id));
    }
  }

  lemma ParkedAccount(plan: Plan, s: State, i: nat, resumed: (nat, Id) -> Outcome)
    requires Sound(plan, s) && s.status == Running && i < |plan.tasks|
    requires s.records[plan.tasks[i].id].status == AwaitingApproval
    ensures var id := plan.tasks[i].id;
            Account(plan, s, [Turn(s.questions + 1, id, Answer(resumed(s.questions + 1, id)))],
                    AfterOneParked(plan, s, id, resumed))
  {
    var id, asked := plan.tasks[i].id, s.(questions := s.questions + 1);
    var outcome := resumed(asked.questions, id);
    AwaitingIsOpen(plan, s, i);
    SoundAlso(plan, s, asked);
    AnswerStands(plan, asked, i, outcome);
    OneTurnAccount(plan, s, i, asked.questions, Answer(outcome), AfterOneParked(plan, s, id, resumed));
  }

  // ----- one stretch after the other ----------------------------------------

  /** Only tasks that are still to be tried have turns. */
  ghost predicate OnlyPending(log: Log, records: Records)
  {
    forall e :: e in log && e.Turn? ==> e.id in records && records[e.id].status == Pending
  }

  /** Whatever has a turn is still to be tried, or had none before. */
  ghost predicate Fits(before: Log, log: Log, records: Records)
  {
    forall e :: e in log && e.Turn? ==>
      e.id in records && (records[e.id].status == Pending || VerdictsOn(before, e.id) == [])
  }

  lemma {:induction false} NoVerdicts(log: Log, id: Id)
    ensures VerdictsOn(log, id) == [] <==> forall e :: e in log && e.Turn? ==> e.id != id
  {
    if log != [] {
      var last := |log| - 1;
      assert log == log[..last] + [log[last]];
      NoVerdicts(log[..last], id);
    }
  }

  /** A task that has had its turns and is pending again can be tried again; so it is not skipped. */
  lemma NotSkippedLater(plan: Plan, s: State, a: Log, t: State, u: State, id: Id)
    requires Account(plan, s, a, t) && Sound(plan, u) && Evolves(t.records, u.records)
    requires id in s.records && VerdictsOn(a, id) != []
    ensures u.records[id].status != Skipped
  {
    hide Holds, StatusAccount, TaskAccount;
    NoVerdicts(a, id);
    var e :| e in a && e.Turn? && e.id == id;
    var i :| 0 <= i < |plan.tasks| && plan.tasks[i].id == id;
    SoundTask(plan, u, i);
    DoneStaysDone(plan.tasks[i], t.records, u.records);
  }

  lemma SoundTask(plan: Plan, s: State, i: nat)
    requires Sound(plan, s) && i < |plan.tasks|
    ensures plan.tasks[i].id in s.records && TaskConsistent(plan.tasks[i], s.records)
  {
    assert Holds(plan, s, Progress);
  }

  lemma DoneStaysDone(task: DependencyNode, before: Records, after: Records)
    requires DependenciesDone(task, before) && Evolves(before, after) && task.id in after
    requires TaskConsistent(task, after)
    ensures DependenciesDone(task, after) && after[task.id].status != Skipped
  {
    assert forall d :: d in task.dependsOn ==> IsDone(before, d) && IsDone(after, d);
  }

  lemma TaskAccounts(before: TaskRecord, v: seq<Verdict>, mid: TaskRecord, w: seq<Verdict>, after: TaskRecord,
      maxRetries: real)
    requires TaskAccount(before, v, maxRetries, mid) && TaskAccount(mid, w, maxRetries, after)
    requires v != [] && w != [] ==> mid.status == Pending && HandoffLimit !in v && ToolLimit !in v
    requires v != [] ==> after.status != Skipped
    ensures TaskAccount(before, v + w, maxRetries, after)
  {
    if w == [] {
      assert v + w == v;
    } else if v == [] {
      assert v + w == w;
    } else {
      var n, m := |v| - 1, |w| - 1;
      assert v[n] in v;
      assert (v + w)[..|v + w| - 1] == v + w[..m];
      assert TriesAgain(v[n], before.retryCount + n, maxRetries);
      forall k | 0 <= k < |v + w[..m]| ensures TriesAgain((v + w[..m])[k], before.retryCount + k, maxRetries) {
        if k < n {
          assert (v + w[..m])[k] == v[..n][k];
        } else if k > n {
          assert (v + w[..m])[k] == w[..m][k - |v|];
        }
      }
    }
  }

  lemma {:induction false} VerdictsIn(log: Log, id: Id, verdict: Verdict)
    ensures verdict in VerdictsOn(log, id) <==> exists e :: e in log && e.Turn? && e.id == id && e.verdict == verdict
  {
    if log != [] {
      var last := |log| - 1;
      assert log == log[..last] + [log[last]];
      VerdictsIn(log[..last], id, verdict);
    }
  }

  /** While a run goes on, no limit has been met and nothing has been lost that stops it. */
  lemma StillRunning(plan: Plan, s: State, a: Log, t: State, id: Id)
    requires StatusAccount(plan, s, a, t) && t.status == Running
    ensures HandoffLimit !in VerdictsOn(a, id) && ToolLimit !in VerdictsOn(a, id)
  {
    VerdictsIn(a, id, HandoffLimit);
    VerdictsIn(a, id, ToolLimit);
    assert !HasReason(plan, s.records, a, t.records, MaxHandoffs);
    assert !HasReason(plan, s.records, a, t.records, MaxToolCalls);
  }

  lemma JoinStatus(plan: Plan, s: State, a: Log, t: State, b: Log, u: State)
    requires Account(plan, s, a, t) && t.status == Running && Account(plan, t, b, u)
    ensures StatusAccount(plan, s, a + b, u)
  {
    forall reason | IsEvent(reason)
      ensures u.status == Stopped(reason) <==> HasReason(plan, s.records, a + b, u.records, reason)
    {
      assert !HasReason(plan, s.records, a, t.records, reason);
      assert u.status == Stopped(reason) <==> HasReason(plan, t.records, b, u.records, reason);
    }
  }

  lemma JoinTask(plan: Plan, s: State, a: Log, t: State, b: Log, u: State, id: Id)
    requires Account(plan, s, a, t) && t.status == Running && Account(plan, t, b, u) && Fits(a, b, t.records)
    requires id in s.records
    ensures TaskAccount(s.records[id], VerdictsOn(a + b, id), plan.maxRetries, u.records[id])
  {
    VerdictsAppend(a, b, id);
    StillRunning(plan, s, a, t, id);
    if VerdictsOn(b, id) != [] {
      NoVerdicts(b, id);
    }
    if VerdictsOn(a, id) != [] {
      NotSkippedLater(plan, s, a, t, u, id);
    }
    TaskAccounts(s.records[id], VerdictsOn(a, id), t.records[id], VerdictsOn(b, id), u.records[id], plan.maxRetries);
  }

  lemma JoinUnblocked(plan: Plan, a: Log, t: Records, b: Log, u: Records)
    requires OnlyUnblocked(plan, a, t) && Evolves(t, u) && OnlyUnblocked(plan, b, u)
    ensures OnlyUnblocked(plan, a + b, u)
  {
    forall e, i | e in a + b && e.Turn? && 0 <= i < |plan.tasks| && plan.tasks[i].id == e.id
      ensures DependenciesDone(plan.tasks[i], u)
    {
      if e in a {
        assert DependenciesDone(plan.tasks[i], t);
      }
    }
  }

  /** The account of two stretches, one after the other. */
  lemma JoinAccounts(plan: Plan, s: State, a: Log, t: State, b: Log, u: State)
    requires Account(plan, s, a, t) && t.status == Running && Account(plan, t, b, u) && Fits(a, b, t.records)
    ensures Account(plan, s, a + b, u)
  {
    EvolvesTransitive(s.records, t.records, u.records);
    JoinUnblocked(plan, a, t.records, b, u.records);
    JoinStatus(plan, s, a, t, b, u);
    forall id | id in s.records
      ensures TaskAccount(s.records[id], VerdictsOn(a + b, id), plan.maxRetries, u.records[id])
    {
      JoinTask(plan, s, a, t, b, u, id);
    }
  }

  lemma JoinPending(plan: Plan, s: State, a: Log, t: State, b: Log)
    requires Account(plan, s, a, t) && OnlyPending(a, s.records) && OnlyPending(b, t.records)
    ensures OnlyPending(a + b, s.records)
  {
    forall e | e in a + b && e.Turn? ensures e.id in s.records && s.records[e.id].status == Pending {
      if e !in a {
        NoVerdicts(a, e.id);
        assert TaskAccount(s.records[e.id], VerdictsOn(a, e.id), plan.maxRetries, t.records[e.id]);
      }
    }
  }

  // ----- passes -------------------------------------------------------------

  /** A stretch of scheduling. */
  ghost predicate Scheduled(plan: Plan, s: State, log: Log, t: State)
  {
    Account(plan, s, log, t) && OnlyPending(log, s.records)
  }

  lemma JoinScheduled(plan: Plan, s: State, a: Log, t: State, b: Log, u: State)
    requires Scheduled(plan, s, a, t) && t.status == Running && Scheduled(plan, t, b, u)
    ensures Scheduled(plan, s, a + b, u)
  {
    JoinAccounts(plan, s, a, t, b, u);
    JoinPending(plan, s, a, t, b);
  }

  lemma {:induction false} TurnsScheduled(plan: Plan, s: State, ready: seq<DependencyNode>, k: nat)
    requires Sound(plan, s) && s.status == Running && k <= |ready| && Known(ready, s.records)
    requires DistinctIds(ready) && AllReady(plan.tasks, ready, 0, s.records)
    ensures Scheduled(plan, s, TurnsLog(plan, s, ready[..k]), AfterTurns(plan, s, ready[..k]))
  {
    hide Account;
    if k == 0 {
      NothingAsked(plan, s, s);
    } else {
      TurnsScheduled(plan, s, ready, k - 1);
      assert ready[..k][..k - 1] == ready[..k - 1];
      var t := AfterTurns(plan, s, ready[..k - 1]);
      if t.status == Running {
        AfterTurnsSound(plan, s, ready, k - 1);
        OneTurnScheduled(plan, t, ready, k - 1);
        JoinScheduled(plan, s, TurnsLog(plan, s, ready[..k - 1]), t,
                      TurnLog(plan, t, ready[k - 1].id), AfterTurn(plan, t, ready[k - 1].id));
      } else {
        assert TurnsLog(plan, s, ready[..k - 1]) + [] == TurnsLog(plan, s, ready[..k - 1]);
      }
    }
  }

  lemma OneTurnScheduled(plan: Plan, t: State, ready: seq<DependencyNode>, k: nat)
    requires Sound(plan, t) && t.status == Running && k < |ready| && AllReady(plan.tasks, ready, k, t.records)
    ensures ready[k].id in t.records
    ensures Scheduled(plan, t, TurnLog(plan, t, ready[k].id), AfterTurn(plan, t, ready[k].id))
  {
    hide Account;
    assert ready[k] in plan.tasks;
    var i :| 0 <= i < |plan.tasks| && plan.tasks[i] == ready[k];
    TurnAccount(plan, t, i);
  }

  lemma PassScheduled(plan: Plan, s: State)
    requires Sound(plan, s) && s.status == Running
    ensures Scheduled(plan, s, PassLog(plan, s), AfterTimedPass(plan, s))
  {
    hide Account;
    var asked := s.(questions := s.questions + 1);
    SoundAlso(plan, s, asked);
    var begun := [PassBegins(asked.questions)];
    if plan.services.overtime(asked.questions) {
      PassBegun(plan, s, AfterTimedPass(plan, s));
      assert begun + [] == begun;
    } else {
      PassBegun(plan, s, asked);
      RestScheduled(plan, asked);
      ReadyTasksKnown(plan.tasks, s.records);
      JoinScheduled(plan, s, begun, asked, TurnsLog(plan, asked, ReadyTasks(plan.tasks, s.records)),
                    AfterPass(plan, asked));
    }
  }

  lemma RestScheduled(plan: Plan, s: State)
    requires Sound(plan, s) && s.status == Running
    ensures Known(ReadyTasks(plan.tasks, s.records), s.records)
    ensures Scheduled(plan, s, TurnsLog(plan, s, ReadyTasks(plan.tasks, s.records)), AfterPass(plan, s))
  {
    hide Account;
    var ready := ReadyTasks(plan.tasks, s.records);
    ReadyTasksAreReady(plan, s);
    if ready == [] {
      NothingAsked(plan, s, AfterPass(plan, s));
    } else {
      TurnsScheduled(plan, s, ready, |ready|);
      assert ready[..|ready|] == ready;
    }
  }

  lemma {:induction false} PassesScheduled(plan: Plan, s: State, passes: nat)
    requires Sound(plan, s) && s.status == Running
    ensures Scheduled(plan, s, PassesLog(plan, s, passes), AfterPasses(plan, s, passes))
    decreases passes
  {
    hide Account, AfterTimedPass, PassLog;
    if passes == 0 {
      NothingAsked(plan, s, AfterPasses(plan, s, 0));
    } else {
      PassScheduled(plan, s);
      TimedPassSound(plan, s);
      var t := AfterTimedPass(plan, s);
      if t.status == Running {
        PassesScheduled(plan, t, passes - 1);
        JoinScheduled(plan, s, PassLog(plan, s), t, PassesLog(plan, t, passes - 1), AfterPasses(plan, t, passes - 1));
      } else {
        assert PassLog(plan, s) + [] == PassLog(plan, s);
      }
    }
  }

  // ----- resuming -----------------------------------------------------------

  lemma ParkedUnfolds(plan: Plan, s: State, k: nat, resumed: (nat, Id) -> Outcome)
    requires k < |plan.tasks| && s.records.Keys == Ids(plan.tasks)
    ensures var (t, id) := (AfterParked(plan, s, k, resumed), plan.tasks[k].id);
            var log := ParkedLog(plan, s, k, resumed);
            && id in s.records && id in t.records
            && if t.status != Running || s.records[id].status != AwaitingApproval then
                 AfterParked(plan, s, k + 1, resumed) == t && ParkedLog(plan, s, k + 1, resumed) == log
               else
                 && AfterParked(plan, s, k + 1, resumed) == AfterOneParked(plan, t, id, resumed)
                 && ParkedLog(plan, s, k + 1, resumed)
                    == log + [Turn(t.questions + 1, id, Answer(resumed(t.questions + 1, id)))]
  {
    hide AfterOneParked;
    var log := ParkedLog(plan, s, k, resumed);
    assert log + [] == log;
  }

  lemma OtherId(tasks: seq<DependencyNode>, i: nat, j: nat)
    requires i < j < |tasks| && DistinctIds(tasks)
    ensures tasks[i].id != tasks[j].id
  {
  }

  lemma {:induction false} ParkedOnce(plan: Plan, s: State, k: nat, j: nat, resumed: (nat, Id) -> Outcome)
    requires k <= j < |plan.tasks| && s.records.Keys == Ids(plan.tasks) && DistinctIds(plan.tasks)
    ensures VerdictsOn(ParkedLog(plan, s, k, resumed), plan.tasks[j].id) == []
  {
    hide *;
    if k == 0 {
      NothingParked(plan, s, plan.tasks[j].id, resumed);
    } else {
      ParkedOnce(plan, s, k - 1, j, resumed);
      ParkedBefore(plan, s, k - 1, j, resumed);
    }
  }

  lemma NothingParked(plan: Plan, s: State, id: Id, resumed: (nat, Id) -> Outcome)
    requires s.records.Keys == Ids(plan.tasks)
    ensures VerdictsOn(ParkedLog(plan, s, 0, resumed), id) == []
  {
  }

  lemma ParkedBefore(plan: Plan, s: State, k: nat, j: nat, resumed: (nat, Id) -> Outcome)
    requires k < j < |plan.tasks| && s.records.Keys == Ids(plan.tasks) && DistinctIds(plan.tasks)
    ensures VerdictsOn(ParkedLog(plan, s, k + 1, resumed), plan.tasks[j].id)
            == VerdictsOn(ParkedLog(plan, s, k, resumed), plan.tasks[j].id)
  {
    OtherId(plan.tasks, k, j);
    hide *;
    ParkedUnfolds(plan, s, k, resumed);
    var before, id := AfterParked(plan, s, k, resumed), plan.tasks[k].id;
    var verdict := Answer(resumed(before.questions + 1, id));
    OneVerdict(before.questions + 1, id, verdict, plan.tasks[j].id);
    VerdictsAppend(ParkedLog(plan, s, k, resumed), [Turn(before.questions + 1, id, verdict)], plan.tasks[j].id);
  }

  lemma {:induction false} ParkedAccounts(plan: Plan, s: State, k: nat, resumed: (nat, Id) -> Outcome)
    requires Sound(plan, s) && s.status == Running && k <= |plan.tasks|
    ensures Account(plan, s, ParkedLog(plan, s, k, resumed), AfterParked(plan, s, k, resumed))
    decreases k, 1
  {
    hide *;
    if k == 0 {
      ParkedStart(plan, s, resumed);
    } else {
      NextParked(plan, s, k - 1, resumed);
    }
  }

  lemma ParkedStart(plan: Plan, s: State, resumed: (nat, Id) -> Outcome)
    requires Sound(plan, s) && s.status == Running
    ensures Account(plan, s, ParkedLog(plan, s, 0, resumed), AfterParked(plan, s, 0, resumed))
  {
    hide Account;
    NothingAsked(plan, s, s);
  }

  lemma {:induction false} NextParked(plan: Plan, s: State, k: nat, resumed: (nat, Id) -> Outcome)
    requires Sound(plan, s) && s.status == Running && k < |plan.tasks|
    ensures Account(plan, s, ParkedLog(plan, s, k + 1, resumed), AfterParked(plan, s, k + 1, resumed))
    decreases k + 1, 0
  {
    hide Account, AfterOneParked, AfterParked, ParkedLog, Evolves, Holds;
    ParkedAccounts(plan, s, k, resumed);
    ParkedUnfolds(plan, s, k, resumed);
    var t, id := AfterParked(plan, s, k, resumed), plan.tasks[k].id;
    if t.status == Running && s.records[id].status == AwaitingApproval {
      var next := [Turn(t.questions + 1, id, Answer(resumed(t.questions + 1, id)))];
      ParkedSoFar(plan, s, k, resumed);
      ParkedDistinct(plan, s);
      ParkedOnce(plan, s, k, k, resumed);
      ParkedAccount(plan, t, k, resumed);
      JoinAccounts(plan, s, ParkedLog(plan, s, k, resumed), t, next, AfterOneParked(plan, t, id, resumed));
    }
  }

  lemma ParkedDistinct(plan: Plan, s: State)
    requires Sound(plan, s)
    ensures DistinctIds(plan.tasks)
  {
    assert Holds(plan, s, Tasks);
  }

  /** The account of a whole run, scheduled or resumed. */
  lemma RunAccount(plan: Plan, s: State, run: Run)
    requires CanStart(plan, s, run)
    ensures Account(plan, s, LogOf(plan, s, run), EndOf(plan, s, run))
  {
    hide Account, AfterPasses, AfterParked;
    match run
    case Scheduling(passes) => PassesScheduled(plan, s, passes);
    case Resuming(resumed) =>
      var running := s.(status := Running);
      SoundAlso(plan, s, running);
      ParkedAccounts(plan, running, |plan.tasks|, resumed);
      var parked, log := AfterParked(plan, running, |plan.tasks|, resumed),
          ParkedLog(plan, running, |plan.tasks|, resumed);
      if parked.status == Running {
        AfterParkedSound(plan, running, |plan.tasks|, resumed);
        PassesScheduled(plan, parked, MaxPasses(plan));
        JoinAccounts(plan, running, log, parked,
                     PassesLog(plan, parked, MaxPasses(plan)), AfterPasses(plan, parked, MaxPasses(plan)));
      } else {
        assert log + [] == log;
      }
      SameAccount(plan, running, s, LogOf(plan, s, run), EndOf(plan, s, run));
  }

  // ----- what whole runs come to --------------------------------------------

  /** Some turn of the task met with this. */
  ghost predicate MetWith(log: Log, id: Id, verdict: Verdict)
  {
    exists e :: e in log && e.Turn? && e.id == id && e.verdict == verdict
  }

  ghost predicate HadTurn(log: Log, id: Id)
  {
    exists e :: e in log && e.Turn? && e.id == id
  }

  lemma OfTask(plan: Plan, s: State, run: Run, id: Id, verdict: Verdict)
    requires CanStart(plan, s, run) && id in s.records
    ensures var (log, t) := (LogOf(plan, s, run), EndOf(plan, s, run));
            && id in t.records
            && TaskAccount(s.records[id], VerdictsOn(log, id), plan.maxRetries, t.records[id])
            && (verdict in VerdictsOn(log, id) <==> MetWith(log, id, verdict))
            && (VerdictsOn(log, id) == [] <==> !HadTurn(log, id))
  {
    hide LogOf, EndOf, CanStart;
    RunAccount(plan, s, run);
    VerdictsIn(LogOf(plan, s, run), id, verdict);
    NoVerdicts(LogOf(plan, s, run), id);
  }

  /** A verdict after which a task is not tried again can only be the last. */
  lemma FinalIsLast(before: TaskRecord, v: seq<Verdict>, maxRetries: real, after: TaskRecord, verdict: Verdict)
    requires TaskAccount(before, v, maxRetries, after) && verdict in v && verdict != Answer(Fails(true))
    ensures v[|v| - 1] == verdict
  {
    assert forall k :: 0 <= k < |v| - 1 ==> v[..|v| - 1][k] == v[k];
  }

  /** A task is completed in the end exactly when it was before or one of its own questions was answered so. */
  lemma CompletedExactly(plan: Plan, s: State, run: Run, id: Id)
    requires CanStart(plan, s, run) && id in s.records
    ensures IsDone(EndOf(plan, s, run).records, id)
            <==> IsDone(s.records, id) || MetWith(LogOf(plan, s, run), id, Answer(Completes))
  {
    hide LogOf, EndOf, CanStart;
    var t, v := EndOf(plan, s, run), VerdictsOn(LogOf(plan, s, run), id);
    OfTask(plan, s, run, id, Answer(Completes));
    if Answer(Completes) in v {
      FinalIsLast(s.records[id], v, plan.maxRetries, t.records[id], Answer(Completes));
    }
    if v != [] {
      assert v[|v| - 1] in v;
    }
  }

  /** A task awaits approval in the end exactly when it was told to, or was waiting and had no turn. */
  lemma AwaitingExactly(plan: Plan, s: State, run: Run, id: Id)
    requires CanStart(plan, s, run) && id in s.records
    ensures id in EndOf(plan, s, run).records
    ensures EndOf(plan, s, run).records[id].status == AwaitingApproval
            <==> MetWith(LogOf(plan, s, run), id, Answer(AwaitsApproval))
                 || (s.records[id].status == AwaitingApproval && !HadTurn(LogOf(plan, s, run), id))
  {
    hide LogOf, EndOf, CanStart;
    var t, v := EndOf(plan, s, run), VerdictsOn(LogOf(plan, s, run), id);
    OfTask(plan, s, run, id, Answer(AwaitsApproval));
    if Answer(AwaitsApproval) in v {
      FinalIsLast(s.records[id], v, plan.maxRetries, t.records[id], Answer(AwaitsApproval));
    }
    if v != [] {
      assert v[|v| - 1] in v;
    }
  }

  /** A task is blocked in the end exactly when it was before or no agent could be assigned to it. */
  lemma BlockedExactly(plan: Plan, s: State, run: Run, id: Id)
    requires CanStart(plan, s, run) && id in s.records
    ensures id in EndOf(plan, s, run).records
    ensures EndOf(plan, s, run).records[id].status == Blocked
            <==> s.records[id].status == Blocked || MetWith(LogOf(plan, s, run), id, Refused)
  {
    hide LogOf, EndOf, CanStart;
    var t, v := EndOf(plan, s, run), VerdictsOn(LogOf(plan, s, run), id);
    OfTask(plan, s, run, id, Refused);
    if Refused in v {
      FinalIsLast(s.records[id], v, plan.maxRetries, t.records[id], Refused);
    }
    if v != [] {
      assert v[|v| - 1] in v;
    }
  }

  /** A failure that may not be tried again ends its task. */
  lemma FinalFailure(plan: Plan, s: State, run: Run, id: Id)
    requires CanStart(plan, s, run) && id in s.records
    requires MetWith(LogOf(plan, s, run), id, Answer(Fails(false)))
    ensures id in EndOf(plan, s, run).records && EndOf(plan, s, run).records[id].status == Failed
  {
    hide LogOf, EndOf, CanStart;
    var t, v := EndOf(plan, s, run), VerdictsOn(LogOf(plan, s, run), id);
    OfTask(plan, s, run, id, Answer(Fails(false)));
    FinalIsLast(s.records[id], v, plan.maxRetries, t.records[id], Answer(Fails(false)));
  }

  /** A task has another turn only when its last one was a failure to be tried again and a retry was left. */
  lemma TurnsAgain(plan: Plan, s: State, run: Run, before: Log, e: Entry, after: Log)
    requires CanStart(plan, s, run) && LogOf(plan, s, run) == before + [e] + after
    requires e.Turn? && HadTurn(after, e.id)
    ensures e.id in s.records
    ensures TriesAgain(e.verdict, s.records[e.id].retryCount + |VerdictsOn(before, e.id)|, plan.maxRetries)
  {
    hide *;
    InMiddle(before, e, after);
    TurnsKnown(plan, s, run, e);
    VerdictsAround(before, e, after);
    OfTask(plan, s, run, e.id, e.verdict);
    TriedBefore(s.records[e.id], VerdictsOn(before, e.id), e.verdict, VerdictsOn(after, e.id), plan.maxRetries,
                EndOf(plan, s, run).records[e.id]);
  }

  lemma InMiddle(before: Log, e: Entry, after: Log)
    ensures e in before + [e] + after
  {
    assert (before + [e] + after)[|before|] == e;
  }

  lemma TurnsKnown(plan: Plan, s: State, run: Run, e: Entry)
    requires CanStart(plan, s, run) && e in LogOf(plan, s, run) && e.Turn?
    ensures e.id in s.records
  {
    hide LogOf, EndOf, CanStart;
    RunAccount(plan, s, run);
  }

  lemma VerdictsAround(before: Log, e: Entry, after: Log)
    requires e.Turn?
    ensures VerdictsOn(before + [e] + after, e.id)
            == VerdictsOn(before, e.id) + [e.verdict] + VerdictsOn(after, e.id)
    ensures VerdictsOn(after, e.id) == [] <==> !HadTurn(after, e.id)
  {
    VerdictsAppend(before + [e], after, e.id);
    VerdictsAppend(before, [e], e.id);
    OneVerdict(e.question, e.id, e.verdict, e.id);
    NoVerdicts(after, e.id);
  }

  lemma TriedBefore(record: TaskRecord, a: seq<Verdict>, verdict: Verdict, b: seq<Verdict>, maxRetries: real,
      after: TaskRecord)
    requires TaskAccount(record, a + [verdict] + b, maxRetries, after) && b != []
    ensures TriesAgain(verdict, record.retryCount + |a|, maxRetries)
  {
    var v := a + [verdict] + b;
    assert v[..|v| - 1][|a|] == v[|a|] == verdict;
  }

  /** What has had a turn depends, at any distance, on completed tasks only: nothing goes on behind an open approval. */
  lemma TurnsNeedDone(plan: Plan, s: State, run: Run, x: Id, id: Id)
    requires CanStart(plan, s, run) && HadTurn(LogOf(plan, s, run), x) && x != id
    requires Reaches(DependencyEdges(DependencyMap(plan.tasks)), x, id)
    ensures IsDone(EndOf(plan, s, run).records, id)
  {
    RunAccount(plan, s, run);
    var edges, records := DependencyEdges(DependencyMap(plan.tasks)), EndOf(plan, s, run).records;
    var closed := set y | y in records && (y == x || IsDone(records, y));
    hide LogOf, EndOf, CanStart, StatusAccount, TaskAccount;
    TasksDistinct(plan, s);
    forall d | d in edges && d.0 in closed ensures d.1 in closed {
      var i := EdgeIsDependency(plan.tasks, d.0, d.1);
      SoundTask(plan, EndOf(plan, s, run), i);
      assert DependenciesDone(plan.tasks[i], records);
    }
    ClosedUnderReaches(edges, closed, x, id);
  }

  /** A task that is lost at the end, and was not before. */
  ghost predicate Loses(before: Records, after: Records, id: Id)
  {
    IsLost(after, id) && !IsLost(before, id)
  }

  /** Where nothing has newly failed or been blocked, nothing is newly skipped: skips have a cause. */
  lemma NoSkipWithoutCause(plan: Plan, s: State, t: State)
    requires Sound(plan, s) && Sound(plan, t) && Evolves(s.records, t.records)
    requires forall y :: y in t.records ==>
               !Becomes(s.records, t.records, y, Failed) && !Becomes(s.records, t.records, y, Blocked)
    ensures forall y :: !Becomes(s.records, t.records, y, Skipped)
  {
    var skipped := set y | y in t.records && Becomes(s.records, t.records, y, Skipped);
    var edges := DependencyEdges(DependencyMap(plan.tasks));
    forall y | y in skipped ensures HasPredecessorIn(Reverse(edges), skipped, y) {
      var i :| 0 <= i < |plan.tasks| && plan.tasks[i].id == y;
      SkipHasCause(plan, s, t, i);
    }
    AcyclicBackwards(plan, s);
    NoSelfSustainingSet(Reverse(edges), skipped);
    forall y ensures !Becomes(s.records, t.records, y, Skipped) {
      assert y !in skipped;
    }
  }

  lemma LossHasCause(plan: Plan, s: State, t: State, id: Id) returns (x: Id)
    requires Sound(plan, s) && Sound(plan, t) && Evolves(s.records, t.records) && Loses(s.records, t.records, id)
    ensures Becomes(s.records, t.records, x, Failed) || Becomes(s.records, t.records, x, Blocked)
  {
    LossIs(s.records, t.records, id);
    if y :| y in t.records
            && (Becomes(s.records, t.records, y, Failed) || Becomes(s.records, t.records, y, Blocked)) {
      x := y;
    } else {
      x := id;
      NoSkipWithoutCause(plan, s, t);
    }
  }

  lemma LossIs(before: Records, after: Records, id: Id)
    requires Evolves(before, after) && Loses(before, after, id)
    ensures Becomes(before, after, id, Failed) || Becomes(before, after, id, Blocked)
            || Becomes(before, after, id, Skipped)
  {
  }

  lemma AcyclicBackwards(plan: Plan, s: State)
    requires Sound(plan, s)
    ensures Acyclic(Reverse(DependencyEdges(DependencyMap(plan.tasks))))
  {
    assert Holds(plan, s, Tasks);
    ReverseAcyclic(DependencyEdges(DependencyMap(plan.tasks)));
  }

  /** A task that is newly skipped depends on one that is newly lost. */
  lemma SkipHasCause(plan: Plan, s: State, t: State, i: nat)
    requires Sound(plan, s) && Sound(plan, t) && Evolves(s.records, t.records) && i < |plan.tasks|
    requires Becomes(s.records, t.records, plan.tasks[i].id, Skipped)
    requires forall y :: y in t.records ==>
               !Becomes(s.records, t.records, y, Failed) && !Becomes(s.records, t.records, y, Blocked)
    ensures exists d :: && Becomes(s.records, t.records, d, Skipped)
                        && (d, plan.tasks[i].id) in Reverse(DependencyEdges(DependencyMap(plan.tasks)))
  {
    SoundTask(plan, s, i);
    SoundTask(plan, t, i);
    TasksDistinct(plan, s);
    var d :| d in plan.tasks[i].dependsOn && IsLost(t.records, d);
    assert !IsLost(s.records, d);
    assert Becomes(s.records, t.records, d, Skipped);
    DependencyIsEdge(plan.tasks, i, d);
  }

  /**
   * In abort mode a run that loses a task stops for a task that failed or was blocked in it; otherwise no run ever
   * stops for a task.
   */
  lemma LossStops(plan: Plan, s: State, run: Run)
    requires CanStart(plan, s, run)
    ensures var t := EndOf(plan, s, run);
            && (plan.abortOnFailure && (exists id :: Loses(s.records, t.records, id)) ==>
                  exists x :: || (t.status == Stopped(TaskFailed(x)) && Becomes(s.records, t.records, x, Failed))
                              || (t.status == Stopped(AssignmentInvalid(x))
                                  && Becomes(s.records, t.records, x, Blocked)))
            && (!plan.abortOnFailure ==>
                  forall x :: t.status != Stopped(TaskFailed(x)) && t.status != Stopped(AssignmentInvalid(x)))
  {
    RunAccount(plan, s, run);
    var t, log := EndOf(plan, s, run), LogOf(plan, s, run);
    hide LogOf, EndOf, CanStart, TaskAccount, Evolves, Sound, OnlyUnblocked, HasReason;
    forall x {
      TaskReasons(plan, s, log, t, x);
    }
    if plan.abortOnFailure {
      if id :| Loses(s.records, t.records, id) {
        var x := LossHasCause(plan, s, t, id);
        TaskReasons(plan, s, log, t, x);
      }
    }
  }

  /** A run is stopped for a task exactly when, in abort mode, the task fails or is blocked in it. */
  lemma TaskReasons(plan: Plan, s: State, log: Log, t: State, x: Id)
    requires StatusAccount(plan, s, log, t)
    ensures t.status == Stopped(TaskFailed(x)) <==> plan.abortOnFailure && Becomes(s.records, t.records, x, Failed)
    ensures t.status == Stopped(AssignmentInvalid(x))
            <==> plan.abortOnFailure && Becomes(s.records, t.records, x, Blocked)
  {
    assert t.status == Stopped(TaskFailed(x)) <==> HasReason(plan, s.records, log, t.records, TaskFailed(x));
    assert t.status == Stopped(AssignmentInvalid(x))
      <==> HasReason(plan, s.records, log, t.records, AssignmentInvalid(x));
  }

  /** A run is stopped for time, handoffs or tool calls exactly when the limit was met. */
  lemma LimitsExactly(plan: Plan, s: State, run: Run)
    requires CanStart(plan, s, run)
    ensures var (log, t) := (LogOf(plan, s, run), EndOf(plan, s, run));
            && (t.status == Stopped(MaxDuration)
                <==> exists e :: e in log && e.PassBegins? && plan.services.overtime(e.question))
            && (t.status == Stopped(MaxHandoffs) <==> exists id :: MetWith(log, id, HandoffLimit))
            && (t.status == Stopped(MaxToolCalls) <==> exists id :: MetWith(log, id, ToolLimit))
  {
    hide LogOf, EndOf, CanStart, TaskAccount, Evolves, OnlyUnblocked, Sound, StatusAccount;
    RunAccount(plan, s, run);
    LimitReasons(plan, s, LogOf(plan, s, run), EndOf(plan, s, run));
  }

  lemma LimitReasons(plan: Plan, s: State, log: Log, t: State)
    requires StatusAccount(plan, s, log, t)
    ensures t.status == Stopped(MaxDuration)
            <==> exists e :: e in log && e.PassBegins? && plan.services.overtime(e.question)
    ensures t.status == Stopped(MaxHandoffs) <==> exists id :: MetWith(log, id, HandoffLimit)
    ensures t.status == Stopped(MaxToolCalls) <==> exists id :: MetWith(log, id, ToolLimit)
  {
    assert t.status == Stopped(MaxDuration) <==> HasReason(plan, s.records, log, t.records, MaxDuration);
    assert t.status == Stopped(MaxHandoffs) <==> HasReason(plan, s.records, log, t.records, MaxHandoffs);
    assert t.status == Stopped(MaxToolCalls) <==> HasReason(plan, s.records, log, t.records, MaxToolCalls);
    if e :| e in log && e.Turn? && e.verdict == HandoffLimit {
      assert MetWith(log, e.id, HandoffLimit);
    }
    if e :| e in log && e.Turn? && e.verdict == ToolLimit {
      assert MetWith(log, e.id, ToolLimit);
    }
  }

  // ----- the questions themselves -------------------------------------------

  /** What the services say, or in a resumed run the decision on a task that was waiting. */
  ghost predicate Truthful(plan: Plan, s: State, run: Run, e: Entry)
  {
    e.Turn? ==>
      || e.verdict == VerdictOf(plan.services, e.question, e.id)
      || (run.Resuming? && e.id in s.records && s.records[e.id].status == AwaitingApproval
          && e.verdict == Answer(run.resumed(e.question, e.id)))
  }

  /** Each question has a number of its own, and they rise. */
  ghost predicate Numbered(log: Log, from: nat, to: nat)
  {
    && from <= to
    && (forall k :: 0 <= k < |log| ==> from < log[k].question <= to)
    && (forall j, k :: 0 <= j < k < |log| ==> log[j].question < log[k].question)
  }

  ghost predicate Served(plan: Plan, log: Log)
  {
    forall e :: e in log && e.Turn? ==> e.verdict == VerdictOf(plan.services, e.question, e.id)
  }

  lemma JoinNumbered(a: Log, from: nat, mid: nat, b: Log, to: nat)
    requires Numbered(a, from, mid) && Numbered(b, mid, to)
    ensures Numbered(a + b, from, to)
  {
  }

  lemma {:induction false} TurnsNumbered(plan: Plan, s: State, ready: seq<DependencyNode>)
    requires Known(ready, s.records)
    ensures Numbered(TurnsLog(plan, s, ready), s.questions, AfterTurns(plan, s, ready).questions)
    ensures Served(plan, TurnsLog(plan, s, ready))
  {
    hide AfterAssignment;
    if ready != [] {
      var last := |ready| - 1;
      TurnsNumbered(plan, s, ready[..last]);
      var t := AfterTurns(plan, s, ready[..last]);
      if t.status == Running {
        TurnNumbered(plan, t, ready[last].id);
        JoinNumbered(TurnsLog(plan, s, ready[..last]), s.questions, t.questions, TurnLog(plan, t, ready[last].id),
                     AfterTurn(plan, t, ready[last].id).questions);
      }
    }
  }

  lemma TurnNumbered(plan: Plan, s: State, id: Id)
    requires id in s.records
    ensures Numbered(TurnLog(plan, s, id), s.questions, AfterTurn(plan, s, id).questions)
    ensures Served(plan, TurnLog(plan, s, id))
  {
  }

  lemma PassNumbered(plan: Plan, s: State)
    requires s.records.Keys == Ids(plan.tasks)
    ensures Numbered(PassLog(plan, s), s.questions, AfterTimedPass(plan, s).questions)
    ensures Served(plan, PassLog(plan, s))
  {
    var asked, ready := s.(questions := s.questions + 1), ReadyTasks(plan.tasks, s.records);
    ReadyTasksKnown(plan.tasks, s.records);
    var begun := [PassBegins(asked.questions)];
    assert Numbered(begun, s.questions, asked.questions);
    if !plan.services.overtime(asked.questions) {
      TurnsNumbered(plan, asked, ready);
      JoinNumbered(begun, s.questions, asked.questions, TurnsLog(plan, asked, ready),
                   AfterTurns(plan, asked, ready).questions);
    }
  }

  lemma {:induction false} PassesNumbered(plan: Plan, s: State, passes: nat)
    requires s.records.Keys == Ids(plan.tasks)
    ensures Numbered(PassesLog(plan, s, passes), s.questions, AfterPasses(plan, s, passes).questions)
    ensures Served(plan, PassesLog(plan, s, passes))
    decreases passes
  {
    hide AfterTimedPass, PassLog;
    if passes > 0 {
      PassNumbered(plan, s);
      var t := AfterTimedPass(plan, s);
      if t.status == Running {
        PassesNumbered(plan, t, passes - 1);
        JoinNumbered(PassLog(plan, s), s.questions, t.questions, PassesLog(plan, t, passes - 1),
                     AfterPasses(plan, t, passes - 1).questions);
      }
    }
  }

  ghost predicate Decided(s: State, resumed: (nat, Id) -> Outcome, log: Log)
  {
    forall e :: e in log && e.Turn? ==>
      && e.id in s.records && s.records[e.id].status == AwaitingApproval
      && e.verdict == Answer(resumed(e.question, e.id))
  }

  lemma {:induction false} ParkedNumbered(plan: Plan, s: State, k: nat, resumed: (nat, Id) -> Outcome)
    requires k <= |plan.tasks| && s.records.Keys == Ids(plan.tasks)
    ensures Numbered(ParkedLog(plan, s, k, resumed), s.questions, AfterParked(plan, s, k, resumed).questions)
    ensures Decided(s, resumed, ParkedLog(plan, s, k, resumed))
  {
    hide *;
    if k == 0 {
      NoneNumbered(plan, s, resumed);
    } else {
      ParkedNumbered(plan, s, k - 1, resumed);
      ParkedNumberedNext(plan, s, k - 1, resumed);
    }
  }

  lemma NoneNumbered(plan: Plan, s: State, resumed: (nat, Id) -> Outcome)
    requires s.records.Keys == Ids(plan.tasks)
    ensures Numbered(ParkedLog(plan, s, 0, resumed), s.questions, AfterParked(plan, s, 0, resumed).questions)
    ensures Decided(s, resumed, ParkedLog(plan, s, 0, resumed))
  {
  }

  lemma ParkedNumberedNext(plan: Plan, s: State, k: nat, resumed: (nat, Id) -> Outcome)
    requires k < |plan.tasks| && s.records.Keys == Ids(plan.tasks)
    requires Numbered(ParkedLog(plan, s, k, resumed), s.questions, AfterParked(plan, s, k, resumed).questions)
    requires Decided(s, resumed, ParkedLog(plan, s, k, resumed))
    ensures Numbered(ParkedLog(plan, s, k + 1, resumed), s.questions, AfterParked(plan, s, k + 1, resumed).questions)
    ensures Decided(s, resumed, ParkedLog(plan, s, k + 1, resumed))
  {
    hide AfterParked, ParkedLog, AfterOneParked;
    ParkedUnfolds(plan, s, k, resumed);
    var t, id := AfterParked(plan, s, k, resumed), plan.tasks[k].id;
    if t.status == Running && s.records[id].status == AwaitingApproval {
      OneParkedQuestion(plan, t, id, resumed);
      JoinNumbered(ParkedLog(plan, s, k, resumed), s.questions, t.questions,
                   [Turn(t.questions + 1, id, Answer(resumed(t.questions + 1, id)))], t.questions + 1);
    }
  }

  lemma OneParkedQuestion(plan: Plan, s: State, id: Id, resumed: (nat, Id) -> Outcome)
    requires id in s.records
    ensures AfterOneParked(plan, s, id, resumed).questions == s.questions + 1
  {
  }

  /** Every entry of a log is a question of its own, in order, with the answer that was given to it. */
  lemma LogIsTruthful(plan: Plan, s: State, run: Run)
    requires CanStart(plan, s, run)
    ensures Numbered(LogOf(plan, s, run), s.questions, EndOf(plan, s, run).questions)
    ensures forall e :: e in LogOf(plan, s, run) ==> Truthful(plan, s, run, e)
  {
    hide AfterPasses, AfterParked, ParkedLog, PassesLog;
    match run
    case Scheduling(passes) => PassesNumbered(plan, s, passes);
    case Resuming(resumed) =>
      var running := s.(status := Running);
      ParkedNumbered(plan, running, |plan.tasks|, resumed);
      var parked := AfterParked(plan, running, |plan.tasks|, resumed);
      if parked.status == Running {
        PassesNumbered(plan, parked, MaxPasses(plan));
        JoinNumbered(ParkedLog(plan, running, |plan.tasks|, resumed), s.questions, parked.questions,
                     PassesLog(plan, parked, MaxPasses(plan)),
                     AfterPasses(plan, parked, MaxPasses(plan)).questions);
      }
  }

  // ----- the limit on executions --------------------------------------------

  /** The turns in which a task was handed to the orchestrator. */
  ghost function Dispatched(log: Log): nat
  {
    if log == [] then 0
    else
      var e := log[|log| - 1];
      Dispatched(log[..|log| - 1]) + if e.Turn? && (e.verdict == ToolLimit || e.verdict.Answer?) then 1 else 0
  }

  lemma {:induction false} DispatchedAppend(a: Log, b: Log)
    ensures Dispatched(a + b) == Dispatched(a) + Dispatched(b)
  {
    if b == [] {
      assert a + b == a;
    } else {
      assert (a + b)[..|a + b| - 1] == a + b[..|b| - 1];
      DispatchedAppend(a, b[..|b| - 1]);
    }
  }

  lemma OneDispatched(e: Entry)
    ensures Dispatched([e]) == if e.Turn? && (e.verdict == ToolLimit || e.verdict.Answer?) then 1 else 0
  {
    assert [e][..|[e]| - 1] == [];
  }

  /** Executions count the dispatches, and the limit stops a run only once it is reached. */
  ghost predicate Counted(plan: Plan, s: State, log: Log, t: State)
  {
    && t.agentExecutions == s.agentExecutions + Dispatched(log)
    && (t.status == Stopped(MaxAgentExecutions) && s.status == Running ==>
          t.agentExecutions as real >= plan.maxAgentExecutions)
  }

  lemma JoinCounted(plan: Plan, s: State, a: Log, t: State, b: Log, u: State)
    requires Counted(plan, s, a, t) && Counted(plan, t, b, u) && t.status == Running
    ensures Counted(plan, s, a + b, u)
  {
    DispatchedAppend(a, b);
  }

  lemma TurnCounted(plan: Plan, s: State, id: Id)
    requires id in s.records && s.status == Running
    ensures Counted(plan, s, TurnLog(plan, s, id), AfterTurn(plan, s, id))
  {
    hide Settled, AfterOutcome;
    OneDispatched(Turn(s.questions + 1, id, VerdictOf(plan.services, s.questions + 1, id)));
  }

  lemma {:induction false} TurnsCounted(plan: Plan, s: State, ready: seq<DependencyNode>)
    requires Known(ready, s.records) && s.status == Running
    ensures Counted(plan, s, TurnsLog(plan, s, ready), AfterTurns(plan, s, ready))
  {
    hide AfterTurn, TurnLog, Counted;
    if ready == [] {
      NothingCounted(plan, s, s.status);
    } else {
      var last := |ready| - 1;
      TurnsCounted(plan, s, ready[..last]);
      var t := AfterTurns(plan, s, ready[..last]);
      if t.status == Running {
        TurnCounted(plan, t, ready[last].id);
        JoinCounted(plan, s, TurnsLog(plan, s, ready[..last]), t, TurnLog(plan, t, ready[last].id),
                    AfterTurn(plan, t, ready[last].id));
      } else {
        assert TurnsLog(plan, s, ready[..last]) + [] == TurnsLog(plan, s, ready[..last]);
      }
    }
  }

  lemma NothingCounted(plan: Plan, s: State, status: RunStatus)
    requires s.status == Running && status != Stopped(MaxAgentExecutions)
    ensures Counted(plan, s, [], s.(status := status))
  {
  }

  lemma PassCounted(plan: Plan, s: State)
    requires s.records.Keys == Ids(plan.tasks) && s.status == Running
    ensures Counted(plan, s, PassLog(plan, s), AfterTimedPass(plan, s))
  {
    hide AfterTurns, TurnsLog;
    var asked, ready := s.(questions := s.questions + 1), ReadyTasks(plan.tasks, s.records);
    ReadyTasksKnown(plan.tasks, s.records);
    var begun := [PassBegins(asked.questions)];
    OneDispatched(PassBegins(asked.questions));
    assert Counted(plan, s, begun, asked);
    if plan.services.overtime(asked.questions) {
      assert begun + [] == begun;
    } else {
      RestCounted(plan, asked);
      JoinCounted(plan, s, begun, asked, TurnsLog(plan, asked, ready), AfterPass(plan, asked));
    }
  }

  lemma RestCounted(plan: Plan, s: State)
    requires s.records.Keys == Ids(plan.tasks) && s.status == Running
    ensures Known(ReadyTasks(plan.tasks, s.records), s.records)
    ensures Counted(plan, s, TurnsLog(plan, s, ReadyTasks(plan.tasks, s.records)), AfterPass(plan, s))
  {
    ReadyTasksKnown(plan.tasks, s.records);
    TurnsCounted(plan, s, ReadyTasks(plan.tasks, s.records));
  }

  /** For scheduling of any length: executions are the dispatches. */
  lemma {:induction false} ExecutionsCounted(plan: Plan, s: State, passes: nat)
    requires s.records.Keys == Ids(plan.tasks) && s.status == Running
    ensures Counted(plan, s, PassesLog(plan, s, passes), AfterPasses(plan, s, passes))
    decreases passes
  {
    hide AfterTimedPass, PassLog, Counted;
    if passes == 0 {
      NothingCounted(plan, s, Stopped(NotConverged));
    } else {
      PassCounted(plan, s);
      var t := AfterTimedPass(plan, s);
      if t.status == Running {
        ExecutionsCounted(plan, t, passes - 1);
        JoinCounted(plan, s, PassLog(plan, s), t, PassesLog(plan, t, passes - 1), AfterPasses(plan, t, passes - 1));
      } else {
        assert PassLog(plan, s) + [] == PassLog(plan, s);
      }
    }
  }
}
