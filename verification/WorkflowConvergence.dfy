/**
 * For which retry limits the ceiling on passes in core/workflows/workflow-engine.ts is high enough: for every number of
 * tasks, exactly when a run can fail for want of passes.
 */
module WorkflowConvergence {
  import opened Decimal
  import opened Digraphs
  import opened CycleDetection
  import opened WorkflowDrafts
  import opened WorkflowRecords
  import opened WorkflowSteps

  ghost predicate Converges(plan: Plan)
  {
    AfterPasses(plan, Initial(plan), MaxPasses(plan)).status != Stopped(NotConverged)
  }

  /** Whatever the tasks, the other limits and the answers of the services. */
  ghost predicate AlwaysConverges(n: nat, maxRetries: real)
  {
    forall plan: Plan ::
      |plan.tasks| == n && plan.maxRetries == maxRetries && Schedulable(plan.tasks) ==> Converges(plan)
  }

  // ----- when the ceiling suffices ------------------------------------------

  /** More passes than attempts are enough, whatever the retry limit. */
  lemma {:induction false} EnoughPasses(plan: Plan, s: State, passes: nat)
    requires Sound(plan, s) && s.status == Running
    requires Budget(plan.tasks, s.records, Attempts(plan.maxRetries)) < passes
    ensures AfterPasses(plan, s, passes).status != Stopped(NotConverged)
    decreases passes
  {
    hide AfterTimedPass;
    TimedPassSound(plan, s);
    if AfterTimedPass(plan, s).status == Running {
      EnoughPasses(plan, AfterTimedPass(plan, s), passes - 1);
    }
  }

  lemma EnoughForAll(plan: Plan)
    requires CeilingSuffices(|plan.tasks|, plan.maxRetries) && Schedulable(plan.tasks)
    ensures Converges(plan)
  {
    hide Ceiling;
    var s, attempts := Initial(plan), Attempts(plan.maxRetries);
    InitialSound(plan);
    BudgetBound(plan.tasks, s.records, attempts);
    BelowCeiling(|plan.tasks| * attempts, Ceiling(|plan.tasks|, plan.maxRetries));
    EnoughPasses(plan, s, MaxPasses(plan));
  }

  // ----- a chain of tasks, each waiting for the one before --------------------

  function Name(k: nat): Id
  {
    Digits(k)
  }

  lemma NamesDiffer(i: nat, j: nat)
    ensures Name(i) == Name(j) <==> i == j
  {
    ValueOfDigits(i);
    ValueOfDigits(j);
  }

  function Link(k: nat): DependencyNode
  {
    DependencyNode(Name(k), if k == 0 then [] else [Name(k - 1)])
  }

  function Chain(n: nat): (tasks: seq<DependencyNode>)
    ensures |tasks| == n && forall k :: 0 <= k < n ==> tasks[k] == Link(k)
  {
    seq(n, k requires 0 <= k < n => Link(k))
  }

  function Names(n: nat): (names: seq<Id>)
    ensures |names| == n && forall k :: 0 <= k < n ==> names[k] == Name(k)
  {
    seq(n, k requires 0 <= k < n => Name(k))
  }

  lemma ChainDistinct(n: nat)
    ensures DistinctIds(Chain(n))
  {
    forall i: nat, j: nat | i < j < n ensures Chain(n)[i].id != Chain(n)[j].id {
      NamesDiffer(i, j);
    }
  }

  lemma NameKnown(n: nat, k: nat)
    requires k < n
    ensures Name(k) in Ids(Chain(n))
  {
    assert Chain(n)[k].id == Name(k);
  }

  lemma LinkOk(n: nat, k: nat)
    requires k < n
    ensures DependenciesOk(Chain(n), Chain(n)[k])
  {
    if k > 0 {
      NamesDiffer(k - 1, k);
      NameKnown(n, k - 1);
    }
  }

  lemma NameIsNew(m: nat)
    ensures Name(m) !in Names(m)
  {
    forall k: nat | k < m ensures Names(m)[k] != Name(m) {
      NamesDiffer(k, m);
    }
  }

  lemma NameAfterBefore(n: nat, m: nat)
    requires m < n
    ensures DependenciesIn(DependencyMap(Chain(n)), Name(m), Elements(Names(m)))
  {
    ChainDistinct(n);
    DependencyMapAt(Chain(n), m);
    if m > 0 {
      assert Names(m)[m - 1] == Name(m - 1);
    }
  }

  lemma {:induction false} NamesInOrder(n: nat, m: nat)
    requires m <= n
    ensures DependenciesFirst(DependencyMap(Chain(n)), Names(m))
  {
    if m > 0 {
      NamesInOrder(n, m - 1);
      assert Names(m)[..m - 1] == Names(m - 1);
      NameIsNew(m - 1);
      NameAfterBefore(n, m - 1);
    }
  }

  lemma ChainSchedulable(n: nat)
    ensures Schedulable(Chain(n))
  {
    ChainDistinct(n);
    forall k | 0 <= k < n ensures DependenciesOk(Chain(n), Chain(n)[k]) {
      LinkOk(n, k);
    }
    NamesInOrder(n, n);
    forall x | x in DependencyMap(Chain(n)) ensures x in Names(n) {
      var k :| 0 <= k < n && Chain(n)[k].id == x;
      assert Names(n)[k] == x;
    }
    DependenciesFirstAcyclic(DependencyMap(Chain(n)), Names(n));
  }

  // ----- its run ------------------------------------------------------------

  /** Every task fails as often as it may and then completes, and no other limit is met. */
  function ChainPlan(n: nat, maxRetries: real): Plan
  {
    var attempts := Attempts(maxRetries);
    Plan(Chain(n), maxRetries, (n * attempts) as real, true,
      Services(_ => false, (_, _) => true, (_, _) => false, (_, _) => false,
        (q: nat, _) => if q / 2 % attempts == 0 then Completes else Fails(true)))
  }

  /** So many tasks are done, and the next has been tried so often. */
  ghost function ChainRecords(n: nat, attempts: nat, done: nat, tries: nat): Records
    requires attempts > 0
  {
    map id | id in Ids(Chain(n)) ::
      if id in Names(done) then TaskRecord(Completed, attempts - 1)
      else TaskRecord(Pending, if id == Name(done) then tries else 0)
  }

  /** After so many turns, one in each pass. */
  ghost function Progress(n: nat, attempts: nat, done: nat, tries: nat, turns: nat): State
    requires attempts > 0
  {
    State(ChainRecords(n, attempts, done, tries), Running, turns, 2 * turns)
  }

  lemma RecordOf(n: nat, attempts: nat, done: nat, tries: nat, k: nat)
    requires attempts > 0 && done <= n && k < n
    ensures Name(k) in ChainRecords(n, attempts, done, tries)
    ensures ChainRecords(n, attempts, done, tries)[Name(k)] ==
              if k < done then TaskRecord(Completed, attempts - 1)
              else TaskRecord(Pending, if k == done then tries else 0)
  {
    NameKnown(n, k);
    if k < done {
      assert Names(done)[k] == Name(k);
    }
    forall j: nat | j < done ensures Names(done)[j] == Name(k) <==> j == k {
      NamesDiffer(j, k);
    }
    NamesDiffer(k, done);
  }

  lemma ReadyIff(n: nat, attempts: nat, done: nat, tries: nat, k: nat)
    requires attempts > 0 && done <= n && k < n
    ensures IsReady(Chain(n)[k], ChainRecords(n, attempts, done, tries)) <==> k == done
  {
    RecordOf(n, attempts, done, tries, k);
    if k > 0 {
      RecordOf(n, attempts, done, tries, k - 1);
      assert Chain(n)[k].dependsOn == [Name(k - 1)];
      assert Name(k - 1) in Chain(n)[k].dependsOn;
    }
  }

  lemma OnlyOneReady(n: nat, attempts: nat, done: nat, tries: nat)
    requires attempts > 0 && done < n
    ensures ReadyTasks(Chain(n), ChainRecords(n, attempts, done, tries)) == [Link(done)]
  {
    var records := ChainRecords(n, attempts, done, tries);
    var ready := ReadyTasks(Chain(n), records);
    ChainDistinct(n);
    ReadyTasksExact(Chain(n), records);
    forall t | t in ready ensures t == Link(done) {
      assert t in Chain(n);
      var k :| 0 <= k < n && Chain(n)[k] == t;
      ReadyIff(n, attempts, done, tries, k);
    }
    ReadyIff(n, attempts, done, tries, done);
    assert Chain(n)[done] in ready;
    OnlyOne(ready, Link(done));
  }

  lemma OnlyOne(ready: seq<DependencyNode>, t: DependencyNode)
    requires DistinctIds(ready) && t in ready && forall x :: x in ready ==> x == t
    ensures ready == [t]
  {
    forall k | 0 <= k < |ready| ensures ready[k] == t {
      assert ready[k] in ready;
    }
    if |ready| > 1 {
      TwoDiffer(ready);
    }
  }

  lemma TwoDiffer(ready: seq<DependencyNode>)
    requires DistinctIds(ready) && |ready| > 1
    ensures ready[0] != ready[1]
  {
    assert ready[0].id != ready[1].id;
  }

  lemma OneMoreDone(n: nat, attempts: nat, done: nat)
    requires attempts > 0 && done < n
    ensures ChainRecords(n, attempts, done, attempts - 1)[Name(done) := TaskRecord(Completed, attempts - 1)]
            == ChainRecords(n, attempts, done + 1, 0)
  {
    hide Name, Names, Chain;
    NameKnown(n, done);
    NamesGrow(done);
  }

  lemma NamesGrow(m: nat)
    ensures forall id :: id in Names(m + 1) <==> id in Names(m) || id == Name(m)
  {
    assert Names(m + 1) == Names(m) + [Name(m)];
  }

  lemma OneMoreTry(n: nat, attempts: nat, done: nat, tries: nat)
    requires attempts > 0 && done < n
    ensures ChainRecords(n, attempts, done, tries)[Name(done) := TaskRecord(Pending, tries + 1)]
            == ChainRecords(n, attempts, done, tries + 1)
  {
    NameKnown(n, done);
    NameIsNew(done);
  }

  /** A turn out of those of one task is its last exactly when the number of turns is a multiple of the attempts. */
  lemma LastTurnIff(attempts: nat, done: nat, k: nat)
    requires 0 < k <= attempts
    ensures (done * attempts + k) % attempts == 0 <==> k == attempts
  {
    if k == attempts {
      ModOf(done * attempts + k, attempts, done + 1, 0);
    } else {
      ModOf(done * attempts + k, attempts, done, k);
    }
  }

  lemma ModOf(x: nat, m: nat, q: nat, r: nat)
    requires m > 0 && r < m && x == m * q + r
    ensures x % m == r
  {
    var d := x / m - q;
    assert m * d == r - x % m;
    AwayFromZero(m, d);
  }

  lemma AwayFromZero(m: nat, d: int)
    ensures d >= 1 ==> m * d >= m
    ensures d <= -1 ==> m * d <= -(m as int)
  {
  }

  /** The state after one more turn. */
  ghost function NextProgress(n: nat, attempts: nat, done: nat, tries: nat, turns: nat): State
    requires attempts > 0
  {
    if tries + 1 == attempts then Progress(n, attempts, done + 1, 0, turns + 1)
    else Progress(n, attempts, done, tries + 1, turns + 1)
  }

  ghost predicate InChain(n: nat, attempts: nat, done: nat, tries: nat, turns: nat)
  {
    done < n && tries < attempts && turns == done * attempts + tries && turns < n * attempts
  }

  lemma OutcomeOfLink(n: nat, maxRetries: real, done: nat, tries: nat, turns: nat, record: TaskRecord)
    requires InChain(n, Attempts(maxRetries), done, tries, turns) && record == TaskRecord(Pending, tries)
    ensures AfterOutcome(record, ChainPlan(n, maxRetries).services.outcome(2 * turns + 2, Name(done)), maxRetries)
            == if tries + 1 == Attempts(maxRetries) then TaskRecord(Completed, tries)
               else TaskRecord(Pending, tries + 1)
  {
    var attempts := Attempts(maxRetries);
    LastTurnIff(attempts, done, tries + 1);
    assert (2 * turns + 2) / 2 == done * attempts + (tries + 1);
    RetryLeft(tries, maxRetries);
  }

  lemma EndOfTurn(plan: Plan, s: State, id: Id, after: TaskRecord)
    requires id in s.records && s.agentExecutions as real < plan.maxAgentExecutions
    requires plan.services.assignmentValid(s.questions + 1, id) && !plan.services.handoffsExceeded(s.questions + 1, id)
    requires !plan.services.toolCallsExceeded(s.questions + 1, id) && after.status !in {Failed, Blocked}
    requires after == AfterOutcome(s.records[id], plan.services.outcome(s.questions + 1, id), plan.maxRetries)
    ensures AfterTurn(plan, s, id)
            == State(s.records[id := after], Running, s.agentExecutions + 1, s.questions + 1)
  {
  }

  lemma QuietServices(n: nat, maxRetries: real, q: nat, id: Id)
    ensures var plan := ChainPlan(n, maxRetries);
            && plan.services.assignmentValid(q, id) && !plan.services.handoffsExceeded(q, id)
            && !plan.services.toolCallsExceeded(q, id) && plan.maxRetries == maxRetries
            && plan.maxAgentExecutions == (n * Attempts(maxRetries)) as real
  {
  }

  lemma TurnOfLink(n: nat, maxRetries: real, done: nat, tries: nat, turns: nat, s: State)
    requires InChain(n, Attempts(maxRetries), done, tries, turns)
    requires s == State(ChainRecords(n, Attempts(maxRetries), done, tries), Running, turns, 2 * turns + 1)
    ensures Name(done) in s.records
    ensures AfterTurn(ChainPlan(n, maxRetries), s, Name(done))
            == NextProgress(n, Attempts(maxRetries), done, tries, turns)
  {
    hide AfterTurn, AfterOutcome, ChainPlan, ChainRecords, Attempts;
    var attempts := Attempts(maxRetries);
    QuietServices(n, maxRetries, s.questions + 1, Name(done));
    RecordOf(n, attempts, done, tries, done);
    OutcomeOfLink(n, maxRetries, done, tries, turns, s.records[Name(done)]);
    if tries + 1 == attempts {
      OneMoreDone(n, attempts, done);
      EndOfTurn(ChainPlan(n, maxRetries), s, Name(done), TaskRecord(Completed, tries));
    } else {
      OneMoreTry(n, attempts, done, tries);
      EndOfTurn(ChainPlan(n, maxRetries), s, Name(done), TaskRecord(Pending, tries + 1));
    }
  }

  lemma OneTurnOnly(plan: Plan, s: State, node: DependencyNode)
    requires node.id in s.records && s.status == Running
    ensures AfterTurns(plan, s, [node]) == AfterTurn(plan, s, node.id)
  {
    hide AfterTurn;
    assert [node][..0] == [];
    assert AfterTurns(plan, s, [node][..0]) == s;
  }

  lemma PassOfOne(plan: Plan, s: State, node: DependencyNode)
    requires s.records.Keys == Ids(plan.tasks) && node.id in s.records && s.status == Running
    requires !plan.services.overtime(s.questions + 1) && ReadyTasks(plan.tasks, s.records) == [node]
    ensures AfterTimedPass(plan, s) == AfterTurn(plan, s.(questions := s.questions + 1), node.id)
  {
    hide AfterTurn, AfterTurns;
    OneTurnOnly(plan, s.(questions := s.questions + 1), node);
  }

  lemma ProgressShape(n: nat, maxRetries: real, done: nat, tries: nat, turns: nat)
    ensures ChainPlan(n, maxRetries).tasks == Chain(n)
    ensures var s := Progress(n, Attempts(maxRetries), done, tries, turns);
            s.records.Keys == Ids(Chain(n)) && s.status == Running
  {
  }

  lemma PassOfChain(n: nat, maxRetries: real, done: nat, tries: nat, turns: nat)
    requires InChain(n, Attempts(maxRetries), done, tries, turns)
    ensures AfterTimedPass(ChainPlan(n, maxRetries), Progress(n, Attempts(maxRetries), done, tries, turns))
            == NextProgress(n, Attempts(maxRetries), done, tries, turns)
  {
    BeforePass(n, maxRetries, done, tries, turns);
    var s := Progress(n, Attempts(maxRetries), done, tries, turns);
    var asked := s.(questions := s.questions + 1);
    hide *;
    PassOfOne(ChainPlan(n, maxRetries), s, Link(done));
    TurnOfLink(n, maxRetries, done, tries, turns, asked);
  }

  lemma BeforePass(n: nat, maxRetries: real, done: nat, tries: nat, turns: nat)
    requires InChain(n, Attempts(maxRetries), done, tries, turns)
    ensures var (plan, s) := (ChainPlan(n, maxRetries), Progress(n, Attempts(maxRetries), done, tries, turns));
            && s.records.Keys == Ids(plan.tasks) && Link(done).id == Name(done) && Name(done) in s.records
            && s.status == Running && !plan.services.overtime(s.questions + 1)
            && ReadyTasks(plan.tasks, s.records) == [Link(done)]
            && s.(questions := s.questions + 1)
               == State(ChainRecords(n, Attempts(maxRetries), done, tries), Running, turns, 2 * turns + 1)
  {
    hide ReadyTasks, ChainRecords, Attempts, Chain;
    ProgressShape(n, maxRetries, done, tries, turns);
    OnlyOneReady(n, Attempts(maxRetries), done, tries);
    RecordOf(n, Attempts(maxRetries), done, tries, done);
  }

  lemma StillInChain(n: nat, attempts: nat, done: nat, tries: nat, turns: nat)
    requires tries < attempts && turns == done * attempts + tries && turns < n * attempts
    ensures InChain(n, attempts, done, tries, turns)
    ensures tries + 1 == attempts ==> turns + 1 == (done + 1) * attempts
  {
    AtLeast(done, n, attempts);
  }

  lemma AtLeast(a: nat, b: nat, m: nat)
    ensures a >= b ==> a * m >= b * m
  {
  }

  lemma {:induction false} ChainRunsOut(n: nat, maxRetries: real, done: nat, tries: nat, turns: nat, passes: nat)
    requires tries < Attempts(maxRetries) && turns == done * Attempts(maxRetries) + tries
    requires turns + passes <= n * Attempts(maxRetries)
    ensures Progress(n, Attempts(maxRetries), done, tries, turns).records.Keys == Ids(Chain(n))
    ensures AfterPasses(ChainPlan(n, maxRetries), Progress(n, Attempts(maxRetries), done, tries, turns), passes).status
            == Stopped(NotConverged)
    decreases passes
  {
    hide AfterTimedPass, Attempts, ChainPlan, Progress;
    var attempts := Attempts(maxRetries);
    ProgressShape(n, maxRetries, done, tries, turns);
    if passes > 0 {
      StillInChain(n, attempts, done, tries, turns);
      PassOfChain(n, maxRetries, done, tries, turns);
      ProgressShape(n, maxRetries, done + 1, 0, turns + 1);
      ProgressShape(n, maxRetries, done, tries + 1, turns + 1);
      if tries + 1 == attempts {
        ChainRunsOut(n, maxRetries, done + 1, 0, turns + 1, passes - 1);
      } else {
        ChainRunsOut(n, maxRetries, done, tries + 1, turns + 1, passes - 1);
      }
    }
  }

  lemma StartOfChain(n: nat, maxRetries: real)
    ensures Initial(ChainPlan(n, maxRetries)) == Progress(n, Attempts(maxRetries), 0, 0, 0)
    ensures ChainPlan(n, maxRetries).tasks == Chain(n)
  {
    hide Attempts, Name, Chain;
    assert Names(0) == [];
  }

  lemma TooFewPasses(n: nat, maxRetries: real)
    requires !CeilingSuffices(n, maxRetries)
    ensures MaxPasses(ChainPlan(n, maxRetries)) <= n * Attempts(maxRetries)
  {
    hide Ceiling, PassesBelow, Attempts;
    BelowCeiling(n * Attempts(maxRetries), Ceiling(n, maxRetries));
  }

  /** A chain of tasks that fail as often as they may and then complete needs a pass for every attempt and one more. */
  lemma ChainNeedsMore(n: nat, maxRetries: real)
    requires !CeilingSuffices(n, maxRetries)
    ensures Schedulable(ChainPlan(n, maxRetries).tasks) && !Converges(ChainPlan(n, maxRetries))
  {
    ChainSchedulable(n);
    StartOfChain(n, maxRetries);
    TooFewPasses(n, maxRetries);
    hide ChainPlan, Progress, Initial, MaxPasses, AfterPasses, Schedulable;
    ChainRunsOut(n, maxRetries, 0, 0, 0, MaxPasses(ChainPlan(n, maxRetries)));
  }

  /**
   * For every number of tasks and every retry limit: no run can fail for want of passes exactly when the ceiling
   * exceeds the attempts of all tasks together. Otherwise a chain of tasks that all complete in the end does.
   */
  lemma ConvergesIff(n: nat, maxRetries: real)
    ensures AlwaysConverges(n, maxRetries)
            <==> (n * Attempts(maxRetries)) as real < n as real * (maxRetries + 1.0) + 5.0
  {
    if CeilingSuffices(n, maxRetries) {
      forall plan: Plan | |plan.tasks| == n && plan.maxRetries == maxRetries && Schedulable(plan.tasks)
        ensures Converges(plan)
      {
        EnoughForAll(plan);
      }
    } else {
      ChainNeedsMore(n, maxRetries);
      assert !Converges(ChainPlan(n, maxRetries));
    }
  }

  /** Whole limits that are not negative are always high enough, whatever the number of tasks. */
  lemma WholeLimitsSuffice(n: nat, maxRetries: nat)
    ensures AlwaysConverges(n, maxRetries as real)
  {
    ConvergesIff(n, maxRetries as real);
    WholeAttempts(n, maxRetries);
  }

  lemma WholeAttempts(n: nat, maxRetries: nat)
    ensures Attempts(maxRetries as real) == maxRetries + 1
    ensures (n * (maxRetries + 1)) as real == n as real * (maxRetries as real + 1.0)
  {
  }

  /** Ten tasks and a limit of one half: two attempts each, and a ceiling of twenty passes. */
  lemma HalfRetryExample()
    ensures Attempts(0.5) == 2 && Ceiling(10, 0.5) == 20.0 && !AlwaysConverges(10, 0.5)
  {
    ConvergesIff(10, 0.5);
  }
}
