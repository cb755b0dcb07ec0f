/** `WriteScopeLeaseManager` of core/orchestrator/lease-manager.ts: who may write where, and for how long. */
module Leases {
  import opened Wrappers
  import opened Values
  import opened WorkspacePaths
  import opened LeaseScopes

  const DEFAULT_TTL := 3_600_000.0
  const MAX_TTL: nat := 86_400_000
  const MAX_SCOPE_ENTRIES: nat := 256
  const MAX_SCOPE_LENGTH: nat := 512

  /** The last instant a JavaScript date can hold. */
  const LAST_DATE: nat := 8_640_000_000_000_000

  /** What `Date.now` returns: whole milliseconds since 1970. The longest lease from then on still ends at a date. */
  type Reading = t: nat | t <= LAST_DATE - MAX_TTL

  datatype LeaseStatus = Active | Expired | Released

  /** The two instants are stored as texts. */
  datatype Lease = Lease(
    leaseId: string,
    projectId: string,
    taskId: string,
    agentId: string,
    workspaceId: string,
    scope: Scope,
    status: LeaseStatus,
    acquiredAt: nat,
    expiresAt: nat,
    version: nat)

  datatype Request = Request(
    leaseId: string,
    projectId: string,
    taskId: string,
    agentId: string,
    workspaceId: string,
    scope: Scope,
    ttlMs: Option<Number>)

  datatype LeaseError =
    | TooManyEntries | EmptyEntry | EntryTooLong | NotRelative
    | BadTtl
    | Conflict(lease: Lease)
    | UnknownLease
    | NotActive(status: LeaseStatus)

  // ----- what a request must look like --------------------------------------

  predicate HasTwoDots(s: string)
  {
    exists i :: 0 <= i < |s| - 1 && s[i] == '.' && s[i + 1] == '.'
  }

  function EntryProblem(entry: string): Option<LeaseError>
  {
    if entry == "" then Some(EmptyEntry)
    else if |entry| > MAX_SCOPE_LENGTH then Some(EntryTooLong)
    else if HasTwoDots(entry) || entry[0] == '/' || (|entry| > 1 && IsLetter(entry[0]) && entry[1] == ':') then
      Some(NotRelative)
    else None
  }

  predicate ScopeAccepted(scope: Scope)
  {
    |scope| <= MAX_SCOPE_ENTRIES && forall entry :: entry in scope ==> EntryProblem(entry).None?
  }

  /** Too many entries, or else the problem of the first entry that has one. */
  ghost predicate IsFault(scope: Scope, error: LeaseError)
  {
    if |scope| > MAX_SCOPE_ENTRIES then error == TooManyEntries
    else exists i :: && 0 <= i < |scope| && EntryProblem(scope[i]) == Some(error)
                     && forall k :: 0 <= k < i ==> EntryProblem(scope[k]).None?
  }

  method ValidateScope(scope: Scope) returns (r: Result<(), LeaseError>)
    ensures r.Ok? <==> ScopeAccepted(scope)
    ensures r.Err? ==> IsFault(scope, r.error)
  {
    if |scope| > MAX_SCOPE_ENTRIES {
      return Err(TooManyEntries);
    }
    for i := 0 to |scope|
      invariant forall k :: 0 <= k < i ==> EntryProblem(scope[k]).None?
    {
      var problem := EntryProblem(scope[i]);
      if problem.Some? {
        assert scope[i] in scope;
        return Err(problem.value);
      }
    }
    return Ok(());
  }

  /** The time to live, if it is a positive number within the limit. */
  function TtlOf(ttlMs: Option<Number>): Option<real>
  {
    if ttlMs.None? then Some(DEFAULT_TTL)
    else if ttlMs.value.Finite? && 0.0 < ttlMs.value.r <= MAX_TTL as real then Some(ttlMs.value.r)
    else None
  }

  /** The end of a lease: a date drops the fraction of a millisecond. */
  function EndOf(at: nat, ttl: real): (end: nat)
    requires 0.0 < ttl <= MAX_TTL as real
    ensures at <= end <= at + MAX_TTL
  {
    (at as real + ttl).Floor
  }

  function NewLease(q: Request, at: nat): Lease
    requires TtlOf(q.ttlMs).Some?
  {
    Lease(q.leaseId, q.projectId, q.taskId, q.agentId, q.workspaceId, q.scope, Active, at,
          EndOf(at, TtlOf(q.ttlMs).value), 1)
  }

  // ----- conflicts ----------------------------------------------------------

  predicate IsLive(lease: Lease, at: nat)
  {
    lease.status == Active && lease.expiresAt > at
  }

  predicate Blocks(lease: Lease, q: Request, at: nat)
  {
    && lease.workspaceId == q.workspaceId && lease.projectId == q.projectId
    && IsLive(lease, at) && ScopesConflict(lease.scope, q.scope)
  }

  function Blocking(leases: seq<Lease>, q: Request, at: nat): (r: seq<Lease>)
    ensures forall l :: l in r <==> l in leases && Blocks(l, q, at)
  {
    if leases == [] then []
    else (if Blocks(leases[0], q, at) then [leases[0]] else []) + Blocking(leases[1..], q, at)
  }

  function Oldest(leases: seq<Lease>): (r: Lease)
    requires leases != []
    ensures r in leases && forall l :: l in leases ==> r.acquiredAt <= l.acquiredAt
  {
    if |leases| == 1 then leases[0]
    else
      var rest := Oldest(leases[1..]);
      if leases[0].acquiredAt <= rest.acquiredAt then leases[0] else rest
  }

  /** The oldest live lease in the way of a request. */
  function ConflictingLease(leases: seq<Lease>, q: Request, at: nat): (r: Option<Lease>)
    ensures r.None? <==> forall l :: l in leases ==> !Blocks(l, q, at)
    ensures r.Some? ==> r.value in leases && Blocks(r.value, q, at)
    ensures r.Some? ==> forall l :: l in leases && Blocks(l, q, at) ==> r.value.acquiredAt <= l.acquiredAt
  {
    var blocking := Blocking(leases, q, at);
    if blocking == [] then None
    else
      assert blocking[0] in blocking;
      Some(Oldest(blocking))
  }

  predicate Granted(leases: seq<Lease>, q: Request, at: nat)
  {
    && ScopeAccepted(q.scope) && TtlOf(q.ttlMs).Some?
    && forall l :: l in leases ==> !Blocks(l, q, at)
  }

  // ----- the repository -----------------------------------------------------

  ghost predicate DistinctLeases(leases: seq<Lease>)
  {
    forall i, j :: 0 <= i < j < |leases| ==> leases[i].leaseId != leases[j].leaseId
  }

  /** `items.set(item.leaseId, item)`: in the place of the lease with this id, or at the end. */
  function Put(leases: seq<Lease>, item: Lease): (r: seq<Lease>)
    ensures item in r
    ensures forall l :: l in r ==> l == item || l in leases
  {
    if leases == [] then [item]
    else if leases[0].leaseId == item.leaseId then [item] + leases[1..]
    else [leases[0]] + Put(leases[1..], item)
  }

  function FindLease(leases: seq<Lease>, id: string): (r: Option<Lease>)
    ensures r.Some? ==> r.value in leases && r.value.leaseId == id
    ensures r.None? ==> forall l :: l in leases ==> l.leaseId != id
  {
    if leases == [] then None
    else if leases[0].leaseId == id then Some(leases[0])
    else FindLease(leases[1..], id)
  }

  lemma {:induction false} PutDistinct(leases: seq<Lease>, item: Lease)
    requires DistinctLeases(leases)
    ensures DistinctLeases(Put(leases, item))
    ensures forall l :: l in Put(leases, item) && l != item ==> l in leases && l.leaseId != item.leaseId
  {
    if leases != [] {
      var rest := leases[1..];
      assert forall l :: l in rest ==> l in leases && l.leaseId != leases[0].leaseId;
      if leases[0].leaseId != item.leaseId {
        PutDistinct(rest, item);
        ConsDistinct(leases[0], Put(rest, item));
      } else {
        ConsDistinct(item, rest);
      }
    }
  }

  lemma ConsDistinct(first: Lease, rest: seq<Lease>)
    requires DistinctLeases(rest) && forall l :: l in rest ==> l.leaseId != first.leaseId
    ensures DistinctLeases([first] + rest)
  {
  }

  lemma {:induction false} PutAt(leases: seq<Lease>, i: nat, item: Lease)
    requires i < |leases| && leases[i].leaseId == item.leaseId
    requires forall k :: 0 <= k < i ==> leases[k].leaseId != item.leaseId
    ensures Put(leases, item) == leases[i := item]
  {
    if i > 0 {
      PutAt(leases[1..], i - 1, item);
    }
  }

  // ----- what the operations do to the leases -------------------------------

  /** A lease that is over, by release or by the sweep. */
  function Retired(lease: Lease, status: LeaseStatus): Lease
  {
    lease.(status := status, version := lease.version + 1)
  }

  /** The two ways leases end together: with their task, or because their time is up. */
  datatype Sweep = OfTask(taskId: string) | Stale(at: nat)

  predicate Sweeps(sweep: Sweep, lease: Lease)
  {
    lease.status == Active &&
    match sweep
    case OfTask(taskId) => lease.taskId == taskId
    case Stale(at) => lease.expiresAt <= at
  }

  function EndStatus(sweep: Sweep): LeaseStatus
  {
    if sweep.OfTask? then Released else Expired
  }

  function SweptLease(sweep: Sweep, lease: Lease): Lease
  {
    if Sweeps(sweep, lease) then Retired(lease, EndStatus(sweep)) else lease
  }

  function Swept(leases: seq<Lease>, sweep: Sweep): (r: seq<Lease>)
    ensures |r| == |leases| && forall i :: 0 <= i < |r| ==> r[i] == SweptLease(sweep, leases[i])
  {
    seq(|leases|, i requires 0 <= i < |leases| => SweptLease(sweep, leases[i]))
  }

  /** The leases a sweep ends, as they are afterwards, in order. */
  function SweptOnes(leases: seq<Lease>, sweep: Sweep): (r: seq<Lease>)
    ensures forall l :: l in r <==> exists m :: m in leases && Sweeps(sweep, m) && l == Retired(m, EndStatus(sweep))
  {
    if leases == [] then []
    else
      var last := |leases| - 1;
      assert leases == leases[..last] + [leases[last]];
      SweptOnes(leases[..last], sweep)
      + if Sweeps(sweep, leases[last]) then [Retired(leases[last], EndStatus(sweep))] else []
  }

  /** `Look` stands for a request that is refused, or for a question about the leases. */
  datatype Op = Acquire(q: Request) | Release(leaseId: string) | ReleaseForTask(taskId: string) | ExpireStale | Look

  function Step(leases: seq<Lease>, op: Op, at: nat): seq<Lease>
  {
    match op
    case Acquire(q) => if Granted(leases, q, at) then Put(leases, NewLease(q, at)) else leases
    case Release(leaseId) =>
      var lease := FindLease(leases, leaseId);
      if lease.Some? && lease.value.status == Active then Put(leases, Retired(lease.value, Released)) else leases
    case ReleaseForTask(taskId) => Swept(leases, OfTask(taskId))
    case ExpireStale => Swept(leases, Stale(at))
    case Look => leases
  }

  // ----- the invariant ------------------------------------------------------

  /** The lease begins at some reading of the clock and does not last longer than allowed. */
  ghost predicate Recorded(l: Lease, readings: seq<Reading>)
  {
    exists i :: 0 <= i < |readings| && BeginsAt(l, readings, i)
  }

  ghost predicate BeginsAt(l: Lease, readings: seq<Reading>, i: nat)
    requires i < |readings|
  {
    readings[i] == l.acquiredAt <= l.expiresAt <= readings[i] + MAX_TTL
  }

  /** The second lease was acquired at a later reading, and not before the end of the first. */
  ghost predicate InTurn(l: Lease, m: Lease, readings: seq<Reading>)
  {
    exists i, j :: && 0 <= i < j < |readings|
                   && BeginsAt(l, readings, i) && BeginsAt(m, readings, j) && l.expiresAt <= readings[j]
  }

  /** Two leases that must not be live together. */
  ghost predicate Compete(l: Lease, m: Lease)
  {
    && l.leaseId != m.leaseId && l.projectId == m.projectId && l.workspaceId == m.workspaceId
    && l.status == Active && m.status == Active && ScopesConflict(l.scope, m.scope)
  }

  ghost predicate AllRecorded(leases: seq<Lease>, readings: seq<Reading>)
  {
    forall l :: l in leases ==> Recorded(l, readings)
  }

  ghost predicate AllInTurn(leases: seq<Lease>, readings: seq<Reading>)
  {
    forall l, m :: l in leases && m in leases && Compete(l, m) ==> InTurn(l, m, readings) || InTurn(m, l, readings)
  }

  /** What every operation keeps, whatever the clock shows. */
  ghost predicate Orderly(leases: seq<Lease>, readings: seq<Reading>)
  {
    DistinctLeases(leases) && AllRecorded(leases, readings) && AllInTurn(leases, readings)
  }

  lemma MoreReadings(leases: seq<Lease>, readings: seq<Reading>, at: Reading)
    requires Orderly(leases, readings)
    ensures Orderly(leases, readings + [at])
  {
    var more := readings + [at];
    forall l | l in leases ensures Recorded(l, more) {
      var i :| 0 <= i < |readings| && BeginsAt(l, readings, i);
      assert BeginsAt(l, more, i);
    }
    forall l, m | l in leases && m in leases && Compete(l, m) ensures InTurn(l, m, more) || InTurn(m, l, more) {
      if InTurn(l, m, readings) {
        StillInTurn(l, m, readings, at);
      } else {
        StillInTurn(m, l, readings, at);
      }
    }
  }

  lemma StillInTurn(l: Lease, m: Lease, readings: seq<Reading>, at: Reading)
    requires InTurn(l, m, readings)
    ensures InTurn(l, m, readings + [at])
  {
    var i, j :| && 0 <= i < j < |readings|
                && BeginsAt(l, readings, i) && BeginsAt(m, readings, j) && l.expiresAt <= readings[j];
    assert BeginsAt(l, readings + [at], i) && BeginsAt(m, readings + [at], j);
  }

  /** A granted lease begins after the end of every active lease it conflicts with. */
  lemma GrantedInTurn(leases: seq<Lease>, readings: seq<Reading>, q: Request, at: Reading, l: Lease)
    requires AllRecorded(leases, readings) && Granted(leases, q, at)
    requires l in leases && Compete(l, NewLease(q, at))
    ensures InTurn(l, NewLease(q, at), readings + [at])
  {
    var more := readings + [at];
    var i :| 0 <= i < |readings| && BeginsAt(l, readings, i);
    assert !Blocks(l, q, at);
    assert BeginsAt(l, more, i) && BeginsAt(NewLease(q, at), more, |readings|);
  }

  lemma AcquireKeeps(leases: seq<Lease>, readings: seq<Reading>, q: Request, at: Reading)
    requires Orderly(leases, readings) && Granted(leases, q, at)
    ensures Orderly(Put(leases, NewLease(q, at)), readings + [at])
  {
    var item, more := NewLease(q, at), readings + [at];
    var next := Put(leases, item);
    PutDistinct(leases, item);
    MoreReadings(leases, readings, at);
    assert BeginsAt(item, more, |readings|);
    forall l, m | l in next && m in next && Compete(l, m) ensures InTurn(l, m, more) || InTurn(m, l, more) {
      if l == item {
        ConflictSymmetric(l.scope, m.scope);
        GrantedInTurn(leases, readings, q, at, m);
      } else if m == item {
        GrantedInTurn(leases, readings, q, at, l);
      }
    }
  }

  /** The same instants, but no longer active. */
  ghost predicate Ended(l: Lease, leases: seq<Lease>)
  {
    l.status != Active && exists m :: m in leases && m.acquiredAt == l.acquiredAt && m.expiresAt == l.expiresAt
  }

  lemma EndingKeeps(leases: seq<Lease>, next: seq<Lease>, readings: seq<Reading>)
    requires Orderly(leases, readings) && DistinctLeases(next)
    requires forall l :: l in next ==> l in leases || Ended(l, leases)
    ensures Orderly(next, readings)
  {
    forall l | l in next ensures Recorded(l, readings) {
      if l !in leases {
        var m :| m in leases && m.acquiredAt == l.acquiredAt && m.expiresAt == l.expiresAt;
        var i :| 0 <= i < |readings| && BeginsAt(m, readings, i);
        assert BeginsAt(l, readings, i);
      }
    }
  }

  lemma ReleaseKeeps(leases: seq<Lease>, readings: seq<Reading>, lease: Lease)
    requires Orderly(leases, readings) && lease in leases
    ensures Orderly(Put(leases, Retired(lease, Released)), readings)
  {
    var item := Retired(lease, Released);
    PutDistinct(leases, item);
    assert Ended(item, leases);
    EndingKeeps(leases, Put(leases, item), readings);
  }

  lemma SweepKeeps(leases: seq<Lease>, readings: seq<Reading>, sweep: Sweep)
    requires Orderly(leases, readings)
    ensures Orderly(Swept(leases, sweep), readings)
  {
    var next := Swept(leases, sweep);
    forall l | l in next ensures l in leases || Ended(l, leases) {
      var i :| 0 <= i < |next| && next[i] == l;
      assert leases[i] in leases;
    }
    EndingKeeps(leases, next, readings);
  }

  /** Every operation keeps competing leases apart, whatever the clock shows. */
  lemma StepKeeps(leases: seq<Lease>, readings: seq<Reading>, op: Op, at: Reading)
    requires Orderly(leases, readings)
    ensures Orderly(Step(leases, op, at), readings + [at])
  {
    match op
    case Acquire(q) =>
      if Granted(leases, q, at) {
        AcquireKeeps(leases, readings, q, at);
      } else {
        MoreReadings(leases, readings, at);
      }
    case Release(leaseId) =>
      MoreReadings(leases, readings, at);
      var lease := FindLease(leases, leaseId);
      if lease.Some? {
        ReleaseKeeps(leases, readings + [at], lease.value);
      }
    case ReleaseForTask(taskId) =>
      MoreReadings(leases, readings, at);
      SweepKeeps(leases, readings + [at], OfTask(taskId));
    case ExpireStale =>
      MoreReadings(leases, readings, at);
      SweepKeeps(leases, readings + [at], Stale(at));
    case Look =>
      MoreReadings(leases, readings, at);
  }

  // ----- runs ---------------------------------------------------------------

  /** The leases after the first `n` operations on an empty repository. */
  ghost function After(ops: seq<Op>, times: seq<Reading>, n: nat): seq<Lease>
    requires n <= |ops| == |times|
  {
    if n == 0 then [] else Step(After(ops, times, n - 1), ops[n - 1], times[n - 1])
  }

  lemma {:induction false} RunKeeps(ops: seq<Op>, times: seq<Reading>, n: nat)
    requires n <= |ops| == |times|
    ensures Orderly(After(ops, times, n), times[..n])
  {
    if n > 0 {
      RunKeeps(ops, times, n - 1);
      StepKeeps(After(ops, times, n - 1), times[..n - 1], ops[n - 1], times[n - 1]);
      assert times[..n] == times[..n - 1] + [times[n - 1]];
    }
  }

  /** Two live leases of one project and workspace with a path in common. */
  ghost predicate HeldTwice(leases: seq<Lease>, now: nat)
  {
    exists l, m :: l in leases && m in leases && HoldTogether(l, m, now)
  }

  ghost predicate HoldTogether(l: Lease, m: Lease, now: nat)
  {
    && l.leaseId != m.leaseId && l.projectId == m.projectId && l.workspaceId == m.workspaceId
    && IsLive(l, now) && IsLive(m, now) && SharePath(l.scope, m.scope)
  }

  /** The clock went on and came back within the life of a lease. */
  ghost predicate ComesBack(times: seq<Reading>, now: nat)
  {
    exists i, j :: && 0 <= i < j < |times|
                   && times[i] <= times[j] && now < times[j] && now < times[i] + MAX_TTL
  }

  lemma TogetherOnlyBack(leases: seq<Lease>, times: seq<Reading>, now: nat)
    requires Orderly(leases, times) && HeldTwice(leases, now)
    ensures ComesBack(times, now)
  {
    var l, m :| l in leases && m in leases && HoldTogether(l, m, now);
    ConflictIffSharedPath(l.scope, m.scope);
    assert Compete(l, m);
    if InTurn(l, m, times) {
      InTurnBack(l, m, times, now);
    } else {
      InTurnBack(m, l, times, now);
    }
  }

  lemma InTurnBack(l: Lease, m: Lease, times: seq<Reading>, now: nat)
    requires InTurn(l, m, times) && IsLive(l, now)
    ensures ComesBack(times, now)
  {
    var i, j :| && 0 <= i < j < |times|
                && BeginsAt(l, times, i) && BeginsAt(m, times, j) && l.expiresAt <= times[j];
    assert times[i] <= times[j] && now < times[j] && now < times[i] + MAX_TTL;
  }

  function Ask(leaseId: string, ttlMs: Option<Number>): Request
  {
    Request(leaseId, "p", "t", leaseId, "w", ["src"], ttlMs)
  }

  /** A time to live that ends a lease from `start` at `end`. */
  function TtlUntil(start: nat, end: nat): (ttl: real)
    requires start <= end <= start + MAX_TTL
    ensures 0.0 < ttl <= MAX_TTL as real && EndOf(start, ttl) == end
  {
    if start == end then 0.5 else (end - start) as real
  }

  /** Two requests at two of the readings, and nothing else. */
  function TwoRequests(n: nat, i: nat, q: Request, j: nat, r: Request): (ops: seq<Op>)
    requires i < j < n
    ensures |ops| == n && ops[i] == Acquire(q) && ops[j] == Acquire(r)
    ensures forall k :: 0 <= k < n && k != i && k != j ==> ops[k] == Look
  {
    seq(n, k requires 0 <= k < n => if k == i then Acquire(q) else if k == j then Acquire(r) else Look)
  }

  lemma PutSecond(l: Lease, m: Lease)
    requires l.leaseId != m.leaseId
    ensures Put([l], m) == [l, m]
  {
    assert [l][1..] == [];
  }

  lemma {:induction false} TwoRequestsRun(
      times: seq<Reading>, i: nat, q: Request, j: nat, r: Request, n: nat)
    requires i < j < |times| && n <= |times| && q.leaseId != r.leaseId
    requires Granted([], q, times[i]) && Granted([NewLease(q, times[i])], r, times[j])
    ensures After(TwoRequests(|times|, i, q, j, r), times, n)
              == if n <= i then [] else if n <= j then [NewLease(q, times[i])]
                 else [NewLease(q, times[i]), NewLease(r, times[j])]
  {
    if n > 0 {
      TwoRequestsRun(times, i, q, j, r, n - 1);
      PutSecond(NewLease(q, times[i]), NewLease(r, times[j]));
    }
  }

  lemma AskAccepted()
    ensures ScopeAccepted(["src"]) && SharePath(["src"], ["src"])
  {
    assert forall k :: 0 <= k < 2 ==> "src"[k] != '.';
    CoversItself("src");
    assert "src" in ["src"];
    assert ScopeCovers(["src"], "src");
  }

  lemma BackHoldsTwice(times: seq<Reading>, now: nat, i: nat, j: nat) returns (ops: seq<Op>)
    requires i < j < |times| && times[i] <= times[j] && now < times[j] && now < times[i] + MAX_TTL
    ensures |ops| == |times| && HeldTwice(After(ops, times, |times|), now)
  {
    var end := if times[j] < times[i] + MAX_TTL then times[j] else times[i] + MAX_TTL;
    var q, r := Ask("a", Some(Finite(TtlUntil(times[i], end)))), Ask("b", None);
    var l, m := NewLease(q, times[i]), NewLease(r, times[j]);
    AskAccepted();
    assert l.expiresAt == end && !IsLive(l, times[j]);
    assert m.expiresAt >= times[j];
    ops := TwoRequests(|times|, i, q, j, r);
    TwoRequestsRun(times, i, q, j, r, |times|);
    assert l in [l, m] && m in [l, m] && HoldTogether(l, m, now);
  }

  /**
   * Two leases can be held together, by some operations at these readings, exactly when the clock came back: the
   * second was granted at a reading that is no longer reached, and the first has not lasted its longest.
   */
  lemma HeldTwiceIff(times: seq<Reading>, now: nat)
    ensures (exists ops: seq<Op> :: |ops| == |times| && HeldTwice(After(ops, times, |times|), now))
            <==> ComesBack(times, now)
  {
    if ops: seq<Op> :| |ops| == |times| && HeldTwice(After(ops, times, |times|), now) {
      RunKeeps(ops, times, |times|);
      assert times[..|times|] == times;
      TogetherOnlyBack(After(ops, times, |times|), times, now);
    }
    if ComesBack(times, now) {
      var i, j :| && 0 <= i < j < |times|
                  && times[i] <= times[j] && now < times[j] && now < times[i] + MAX_TTL;
      var ops := BackHoldsTwice(times, now, i, j);
    }
  }

  /** With a clock that does not go back, a path of a workspace is under one live lease of a project at most. */
  lemma OneLeasePerPath(ops: seq<Op>, times: seq<Reading>, now: nat, l: Lease, m: Lease, path: string)
    requires |ops| == |times| && forall i :: 0 <= i < |times| ==> times[i] <= now
    requires l in After(ops, times, |times|) && m in After(ops, times, |times|)
    requires l.projectId == m.projectId && l.workspaceId == m.workspaceId
    requires IsLive(l, now) && IsLive(m, now) && ScopeCovers(l.scope, path) && ScopeCovers(m.scope, path)
    ensures l == m
  {
    var leases := After(ops, times, |times|);
    RunKeeps(ops, times, |times|);
    assert times[..|times|] == times;
    hide After;
    if l != m {
      TogetherUnlessSame(leases, l, m, path, now);
      TogetherOnlyBack(leases, times, now);
      assert false;
    }
  }

  // ----- who may write ------------------------------------------------------

  predicate MayWrite(leases: seq<Lease>, workspaceId: string, agentId: string, path: string, at: nat)
  {
    exists l :: && l in leases && l.workspaceId == workspaceId && l.agentId == agentId
                && IsLive(l, at) && ScopeCovers(l.scope, path)
  }

  /** Leases of different projects do not exclude each other, and the question who may write ignores projects. */
  lemma ProjectsDoNotExclude(q: Request, r: Request, at: nat, now: nat, path: string)
    requires q.leaseId != r.leaseId && q.projectId != r.projectId && q.workspaceId == r.workspaceId
    requires Granted([], q, at) && Granted([], r, at)
    requires IsLive(NewLease(q, at), now) && IsLive(NewLease(r, at), now)
    requires ScopeCovers(q.scope, path) && ScopeCovers(r.scope, path)
    ensures var leases := Step(Step([], Acquire(q), at), Acquire(r), at);
            && MayWrite(leases, q.workspaceId, q.agentId, path, now)
            && MayWrite(leases, q.workspaceId, r.agentId, path, now)
  {
    var l, m := NewLease(q, at), NewLease(r, at);
    assert Step([], Acquire(q), at) == [l];
    assert !Blocks(l, r, at);
    PutSecond(l, m);
    assert l in [l, m] && m in [l, m];
  }

  /** What is granted does not depend on how an entry is spelled. */
  lemma RespelledGranted(leases: seq<Lease>, q: Request, i: nat, entry: string, at: nat)
    requires i < |q.scope| && Respelled(q.scope[i], entry)
    requires ScopeAccepted(q.scope) && ScopeAccepted(q.scope[i := entry])
    ensures Granted(leases, q.(scope := q.scope[i := entry]), at) <==> Granted(leases, q, at)
  {
    var r := q.(scope := q.scope[i := entry]);
    forall l ensures Blocks(l, r, at) <==> Blocks(l, q, at) {
      RespelledConflicts(q.scope, i, entry, l.scope);
    }
  }

  /** Nor on how an entry of a lease that is held is spelled. */
  lemma RespelledHeld(l: Lease, q: Request, i: nat, entry: string, at: nat)
    requires i < |l.scope| && Respelled(l.scope[i], entry)
    ensures Blocks(l.(scope := l.scope[i := entry]), q, at) <==> Blocks(l, q, at)
  {
    RespelledConflicts(l.scope, i, entry, q.scope);
  }

  lemma HeldBy(leases: seq<Lease>, workspaceId: string, agentId: string, path: string, now: nat) returns (l: Lease)
    requires MayWrite(leases, workspaceId, agentId, path, now)
    ensures l in leases && l.workspaceId == workspaceId && l.agentId == agentId
    ensures IsLive(l, now) && ScopeCovers(l.scope, path)
  {
    l :| && l in leases && l.workspaceId == workspaceId && l.agentId == agentId
         && IsLive(l, now) && ScopeCovers(l.scope, path);
  }

  /** Two agents may both write a path at a time only under leases of two projects, or when the clock came back. */
  lemma TwoWriters(ops: seq<Op>, times: seq<Reading>, now: nat, workspaceId: string, a: string, b: string, path: string)
    returns (l: Lease, m: Lease)
    requires |ops| == |times| && a != b
    requires MayWrite(After(ops, times, |times|), workspaceId, a, path, now)
    requires MayWrite(After(ops, times, |times|), workspaceId, b, path, now)
    ensures l in After(ops, times, |times|) && m in After(ops, times, |times|) && l.agentId == a && m.agentId == b
    ensures ComesBack(times, now) || l.projectId != m.projectId
  {
    var leases := After(ops, times, |times|);
    RunKeeps(ops, times, |times|);
    assert times[..|times|] == times;
    hide After, MayWrite, ScopeCovers;
    l := HeldBy(leases, workspaceId, a, path, now);
    m := HeldBy(leases, workspaceId, b, path, now);
    if l.projectId == m.projectId {
      TogetherUnlessSame(leases, l, m, path, now);
      TogetherOnlyBack(leases, times, now);
    }
  }

  lemma TogetherUnlessSame(leases: seq<Lease>, l: Lease, m: Lease, path: string, now: nat)
    requires DistinctLeases(leases) && l in leases && m in leases && l != m
    requires l.projectId == m.projectId && l.workspaceId == m.workspaceId && IsLive(l, now) && IsLive(m, now)
    requires ScopeCovers(l.scope, path) && ScopeCovers(m.scope, path)
    ensures HeldTwice(leases, now)
  {
    hide ScopeCovers;
    if l.leaseId == m.leaseId {
      SameIdSameLease(leases, l, m);
    }
    assert SharePath(l.scope, m.scope);
    assert HoldTogether(l, m, now);
  }

  lemma SameIdSameLease(leases: seq<Lease>, l: Lease, m: Lease)
    requires DistinctLeases(leases) && l in leases && m in leases && l.leaseId == m.leaseId
    ensures l == m
  {
  }

  /** A request in order is refused exactly when a live lease of its project and workspace is in its way. */
  lemma RefusedIff(leases: seq<Lease>, q: Request, at: nat)
    requires ScopeAccepted(q.scope) && TtlOf(q.ttlMs).Some?
    ensures !Granted(leases, q, at)
            <==> exists l :: && l in leases && l.projectId == q.projectId && l.workspaceId == q.workspaceId
                             && l.status == Active && at < l.expiresAt
                             && (SharePath(l.scope, q.scope) || ("*" in l.scope && q.scope == [])
                                 || ("*" in q.scope && l.scope == []))
  {
    forall l: Lease {
      ConflictIffSharedPath(l.scope, q.scope);
    }
    hide ScopesConflict, SharePath;
    forall l: Lease ensures Blocks(l, q, at) <==>
                       && l.projectId == q.projectId && l.workspaceId == q.workspaceId && l.status == Active
                       && at < l.expiresAt && ScopesConflict(l.scope, q.scope) {
    }
  }

  ghost predicate DotsAt(s: string, i: nat)
  {
    i + 2 <= |s| && s[i..i + 2] == ".."
  }

  ghost predicate EntryOk(entry: string)
  {
    && 1 <= |entry| <= 512
    && (forall i: nat :: !DotsAt(entry, i))
    && entry[0] != '/'
    && !(('A' <= entry[0] <= 'Z' || 'a' <= entry[0] <= 'z') && ":" <= entry[1..])
  }

  /** What scopes may be asked for. */
  lemma AcceptedScopes(scope: Scope)
    ensures ScopeAccepted(scope) <==> |scope| <= 256 && forall entry :: entry in scope ==> EntryOk(entry)
  {
    forall entry ensures EntryProblem(entry).None? <==> EntryOk(entry) {
      AcceptedEntry(entry);
    }
  }

  lemma AcceptedEntry(entry: string)
    ensures EntryProblem(entry).None? <==> EntryOk(entry)
  {
    TwoDotsAre(entry);
    if |entry| > 1 {
      assert entry[1..][0] == entry[1];
    }
  }

  lemma TwoDotsAre(s: string)
    ensures HasTwoDots(s) <==> exists i: nat :: DotsAt(s, i)
  {
    if HasTwoDots(s) {
      var i :| 0 <= i < |s| - 1 && s[i] == '.' && s[i + 1] == '.';
      assert DotsAt(s, i);
    }
    forall i: nat | DotsAt(s, i) ensures HasTwoDots(s) {
      assert s[i] == s[i..i + 2][0] && s[i + 1] == s[i..i + 2][1];
    }
  }

  /** An entry that is accepted is not absolute and has no name that leads upwards. */
  lemma AcceptedStaysInside(entry: string)
    requires EntryProblem(entry).None?
    ensures 1 <= |entry| <= 512 && entry[0] != '/' && ".." !in Names(entry)
  {
    if ".." in Names(entry) {
      TwoDotsOccur(entry);
    }
  }

  lemma TwoDotsOccur(entry: string)
    requires ".." in Names(entry)
    ensures HasTwoDots(entry)
  {
    hide Names;
    var i := NamesOccur(entry, "..");
    var dots := ToSlashes(entry)[i..i + 2];
    assert dots[0] == ToSlashes(entry)[i] && dots[1] == ToSlashes(entry)[i + 1];
  }

  /** The task holds nothing any more, and nothing else has changed. */
  lemma TaskReleased(leases: seq<Lease>, taskId: string)
    ensures var after := Swept(leases, OfTask(taskId));
            && |after| == |leases|
            && (forall l :: l in after ==> l.taskId != taskId || l.status != Active)
            && (forall i :: 0 <= i < |leases| && (leases[i].taskId != taskId || leases[i].status != Active) ==>
                  after[i] == leases[i])
            && (forall i :: 0 <= i < |leases| && leases[i].taskId == taskId && leases[i].status == Active ==>
                  after[i] == leases[i].(status := Released, version := leases[i].version + 1))
  {
  }

  /** What is still active after a sweep is live, and what was live has not changed. */
  lemma SweptAreOver(leases: seq<Lease>, at: nat)
    ensures var after := Swept(leases, Stale(at));
            && |after| == |leases|
            && (forall l :: l in after && l.status == Active ==> at < l.expiresAt)
            && (forall i :: 0 <= i < |leases| && (leases[i].status != Active || at < leases[i].expiresAt) ==>
                  after[i] == leases[i])
            && (forall i :: 0 <= i < |leases| && leases[i].status == Active && leases[i].expiresAt <= at ==>
                  after[i] == leases[i].(status := Expired, version := leases[i].version + 1))
  {
  }

  /** A granted lease carries what was asked for. */
  lemma LeaseIsAsAsked(q: Request, at: nat)
    requires TtlOf(q.ttlMs).Some?
    ensures var l := NewLease(q, at);
            && l.leaseId == q.leaseId && l.projectId == q.projectId && l.taskId == q.taskId && l.agentId == q.agentId
            && l.workspaceId == q.workspaceId && l.scope == q.scope && l.status == Active && l.version == 1
            && l.acquiredAt == at
            && l.expiresAt as real <= at as real + TtlOf(q.ttlMs).value < l.expiresAt as real + 1.0
  {
  }

  /** How long a lease lasts: what was asked for, an hour when nothing was, and never more than a day. */
  lemma TtlIs(ttlMs: Option<Number>, n: nat)
    ensures TtlOf(None) == Some(3_600_000.0)
    ensures 1 <= n <= 86_400_000 ==> TtlOf(Some(Finite(n as real))) == Some(n as real)
    ensures ttlMs.Some? && (!ttlMs.value.Finite? || ttlMs.value.r <= 0.0 || ttlMs.value.r > 86_400_000.0) ==>
              TtlOf(ttlMs).None?
  {
  }

  class LeaseManager {
    var leases: seq<Lease>
    ghost var readings: seq<Reading>

    ghost predicate Valid()
      reads this
    {
      Orderly(leases, readings)
    }

    constructor ()
      ensures Valid() && leases == [] && readings == []
    {
      leases, readings := [], [];
    }

    method Acquire(q: Request, at: Reading) returns (r: Result<Lease, LeaseError>)
      requires Valid()
      modifies this
      ensures Valid() && readings == old(readings) + [at]
      ensures leases == Step(old(leases), Op.Acquire(q), at)
      ensures r.Ok? <==> Granted(old(leases), q, at)
      ensures r.Ok? ==> r.value == NewLease(q, at) && r.value in leases
      ensures r.Err? ==>
                if !ScopeAccepted(q.scope) then IsFault(q.scope, r.error)
                else if TtlOf(q.ttlMs).None? then r.error == BadTtl
                else && r.error.Conflict? && r.error.lease in leases && Blocks(r.error.lease, q, at)
                     && forall l :: l in leases && Blocks(l, q, at) ==> r.error.lease.acquiredAt <= l.acquiredAt
    {
      StepKeeps(leases, readings, Op.Acquire(q), at);
      readings := readings + [at];
      var checked := ValidateScope(q.scope);
      if checked.Err? {
        return Err(checked.error);
      }
      if TtlOf(q.ttlMs).None? {
        return Err(BadTtl);
      }
      var conflict := ConflictingLease(leases, q, at);
      if conflict.Some? {
        return Err(Conflict(conflict.value));
      }
      var lease := NewLease(q, at);
      leases := Put(leases, lease);
      return Ok(lease);
    }

    method Release(leaseId: string) returns (r: Result<Lease, LeaseError>)
      requires Valid()
      modifies this`leases
      ensures Valid() && forall at :: leases == Step(old(leases), Op.Release(leaseId), at)
      ensures r == match FindLease(old(leases), leaseId)
                   case None => Err(UnknownLease)
                   case Some(lease) =>
                     if lease.status == Active then Ok(Retired(lease, Released)) else Err(NotActive(lease.status))
    {
      var lease := FindLease(leases, leaseId);
      if lease.None? {
        return Err(UnknownLease);
      }
      if lease.value.status != Active {
        return Err(NotActive(lease.value.status));
      }
      ReleaseKeeps(leases, readings, lease.value);
      var released := Retired(lease.value, Released);
      leases := Put(leases, released);
      return Ok(released);
    }

    /** One turn of a sweep: the lease at `i` is put back as it is afterwards. */
    method EndOne(start: seq<Lease>, sweep: Sweep, i: nat) returns (next: Lease)
      requires i < |start| == |leases| && DistinctLeases(start) && Sweeps(sweep, start[i])
      requires forall k :: 0 <= k < |start| ==> leases[k] == if k < i then SweptLease(sweep, start[k]) else start[k]
      modifies this`leases
      ensures next == SweptLease(sweep, start[i]) && leases == old(leases)[i := next]
    {
      next := Retired(start[i], EndStatus(sweep));
      PutAt(leases, i, next);
      leases := Put(leases, next);
    }

    method ReleaseForTask(taskId: string) returns (released: seq<Lease>)
      requires Valid()
      modifies this`leases
      ensures Valid() && leases == Swept(old(leases), OfTask(taskId))
      ensures released == SweptOnes(old(leases), OfTask(taskId))
    {
      hide Orderly, SweptOnes;
      ghost var sweep := OfTask(taskId);
      var start := leases;
      OrderlyDistinct(leases, readings);
      NothingSwept(start, sweep);
      SweepKeeps(leases, readings, sweep);
      released := [];
      for i := 0 to |start|
        invariant |leases| == |start|
        invariant forall k :: 0 <= k < |start| ==> leases[k] == if k < i then SweptLease(sweep, start[k]) else start[k]
        invariant released == SweptOnes(start[..i], sweep)
      {
        SweptStep(start, sweep, i);
        if start[i].taskId == taskId && start[i].status == Active {
          var next := EndOne(start, OfTask(taskId), i);
          released := released + [next];
        }
      }
      assert leases == Swept(start, sweep) && start[..|start|] == start;
    }

    method ExpireStale(at: Reading) returns (expired: seq<string>)
      requires Valid()
      modifies this
      ensures Valid() && readings == old(readings) + [at]
      ensures leases == Swept(old(leases), Stale(at))
      ensures expired == IdsOf(SweptOnes(old(leases), Stale(at)))
    {
      hide Orderly, SweptOnes, IdsOf;
      ghost var sweep := Stale(at);
      var start := leases;
      OrderlyDistinct(leases, readings);
      NothingSwept(start, sweep);
      MoreReadings(leases, readings, at);
      SweepKeeps(leases, readings + [at], sweep);
      readings := readings + [at];
      expired := [];
      for i := 0 to |start|
        invariant |leases| == |start| && readings == old(readings) + [at]
        invariant forall k :: 0 <= k < |start| ==> leases[k] == if k < i then SweptLease(sweep, start[k]) else start[k]
        invariant expired == IdsOf(SweptOnes(start[..i], sweep))
      {
        SweptStep(start, sweep, i);
        if start[i].status == Active && start[i].expiresAt <= at {
          var next := EndOne(start, Stale(at), i);
          IdsOfAppend(SweptOnes(start[..i], sweep), next);
          expired := expired + [start[i].leaseId];
        }
      }
      assert leases == Swept(start, sweep) && start[..|start|] == start;
    }

    predicate HasValidLease(workspaceId: string, agentId: string, path: string, at: Reading)
      reads this
    {
      MayWrite(leases, workspaceId, agentId, path, at)
    }
  }

  function IdsOf(leases: seq<Lease>): (ids: seq<string>)
    ensures |ids| == |leases| && forall i :: 0 <= i < |ids| ==> ids[i] == leases[i].leaseId
  {
    seq(|leases|, i requires 0 <= i < |leases| => leases[i].leaseId)
  }

  lemma IdsOfAppend(leases: seq<Lease>, last: Lease)
    ensures IdsOf(leases + [last]) == IdsOf(leases) + [last.leaseId]
  {
  }

  lemma OrderlyDistinct(leases: seq<Lease>, readings: seq<Reading>)
    requires Orderly(leases, readings)
    ensures DistinctLeases(leases)
  {
  }

  lemma NothingSwept(leases: seq<Lease>, sweep: Sweep)
    ensures SweptOnes(leases[..0], sweep) == [] && IdsOf(SweptOnes(leases[..0], sweep)) == []
  {
  }

  lemma SweptStep(leases: seq<Lease>, sweep: Sweep, i: nat)
    requires i < |leases|
    ensures SweptOnes(leases[..i + 1], sweep)
            == SweptOnes(leases[..i], sweep)
             + if Sweeps(sweep, leases[i]) then [Retired(leases[i], EndStatus(sweep))] else []
  {
    assert leases[..i + 1][..i] == leases[..i];
  }
}
