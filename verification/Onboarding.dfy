/** The onboarding lifecycle of contracts/onboarding.ts. */
module Onboarding {

  datatype Status =
    | Draft | SourceConfigured | Analyzing | Analyzed | Planning | ReviewRequired | Approved | Provisioning | Validating
    | Ready | AnalysisFailed | ProvisioningFailed | ValidationFailed | Cancelled

  function Transitions(from: Status): seq<Status>
  {
    match from
    case Draft => [Draft, SourceConfigured, Cancelled]
    case SourceConfigured => [Draft, SourceConfigured, Analyzing, Cancelled]
    case Analyzing => [Analyzed, AnalysisFailed, Cancelled]
    case Analyzed => [Draft, SourceConfigured, Planning, Analyzing, Cancelled]
    case Planning => [ReviewRequired, Analyzed, Cancelled]
    case ReviewRequired => [ReviewRequired, Approved, Draft, SourceConfigured, Analyzed, Planning, Cancelled]
    case Approved => [Provisioning, ReviewRequired, Draft, SourceConfigured, Analyzed, Cancelled]
    case Provisioning => [Validating, ProvisioningFailed]
    case Validating => [Ready, ValidationFailed]
    case Ready => []
    case AnalysisFailed => [Draft, SourceConfigured, Analyzing, Cancelled]
    case ProvisioningFailed => [Provisioning, Cancelled]
    case ValidationFailed => [Validating, Provisioning, Cancelled]
    case Cancelled => []
  }

  predicate CanTransition(from: Status, to: Status)
  {
    to in Transitions(from)
  }

  const EDITABLE := [Draft, SourceConfigured, Analyzed, AnalysisFailed, ReviewRequired]

  const TERMINAL := [Ready, Cancelled]

  ghost predicate IsRun(run: seq<Status>)
  {
    run != [] && forall i :: 0 < i < |run| ==> CanTransition(run[i - 1], run[i])
  }

  // ----- the order of the milestones ----------------------------------------

  const LAST_LEVEL := 9

  function Milestone(level: nat): Status
    requires level <= LAST_LEVEL
  {
    match level
    case 0 => Draft
    case 1 => SourceConfigured
    case 2 => Analyzing
    case 3 => Analyzed
    case 4 => Planning
    case 5 => ReviewRequired
    case 6 => Approved
    case 7 => Provisioning
    case 8 => Validating
    case _ => Ready
  }

  /** The milestones above one level up to another. */
  function Above(low: nat, high: nat): seq<Status>
    requires high <= LAST_LEVEL
    decreases high
  {
    if high <= low then [] else Above(low, high - 1) + [Milestone(high)]
  }

  /** The last milestone that a project in this status must have passed. */
  function Level(status: Status): (level: nat)
    ensures level <= LAST_LEVEL
  {
    match status
    case Draft => 0
    case Cancelled => 0
    case SourceConfigured => 1
    case Analyzing => 2
    case AnalysisFailed => 2
    case Analyzed => 3
    case Planning => 4
    case ReviewRequired => 5
    case Approved => 6
    case Provisioning => 7
    case ProvisioningFailed => 7
    case Validating => 8
    case ValidationFailed => 8
    case Ready => 9
  }

  /** The statuses occur in the run in this order, other statuses in between or not. */
  ghost predicate Passes(run: seq<Status>, statuses: seq<Status>)
    decreases |statuses|
  {
    statuses == [] ||
    exists i :: 0 <= i < |run| && run[i] == statuses[|statuses| - 1] && Passes(run[..i], statuses[..|statuses| - 1])
  }

  lemma PassesLonger(run: seq<Status>, longer: seq<Status>, statuses: seq<Status>)
    requires Passes(run, statuses) && run <= longer
    ensures Passes(longer, statuses)
  {
    if statuses != [] {
      var i :| 0 <= i < |run| && run[i] == statuses[|statuses| - 1] && Passes(run[..i], statuses[..|statuses| - 1]);
      assert longer[..i] == run[..i];
    }
  }

  lemma PassesNext(run: seq<Status>, statuses: seq<Status>, next: Status)
    requires Passes(run, statuses)
    ensures Passes(run + [next], statuses + [next])
  {
    assert (run + [next])[..|run|] == run;
    assert (statuses + [next])[..|statuses|] == statuses;
  }

  /** A transition climbs at most one level, and then enters the milestone itself. */
  lemma ClimbsOne(from: Status, to: Status)
    requires CanTransition(from, to) && Level(to) > Level(from)
    ensures Level(to) == Level(from) + 1 && to == Milestone(Level(to))
  {
  }

  lemma SplitRun(run: seq<Status>)
    requires IsRun(run) && |run| > 1
    ensures IsRun(run[..|run| - 1]) && CanTransition(run[|run| - 2], run[|run| - 1])
    ensures run == run[..|run| - 1] + [run[|run| - 1]]
  {
  }

  /** Every milestone from `low` up to some level at most that of `status`. */
  ghost predicate PassesUpTo(run: seq<Status>, low: nat, status: Status)
  {
    forall n :: low <= n <= Level(status) ==> Passes(run, Above(low, n))
  }

  lemma PassesStep(before: seq<Status>, low: nat, from: Status, to: Status)
    requires PassesUpTo(before, low, from) && low <= Level(from)
    requires Level(to) <= Level(from) || (Level(to) == Level(from) + 1 && to == Milestone(Level(to)))
    ensures PassesUpTo(before + [to], low, to)
  {
    forall n | low <= n <= Level(to) ensures Passes(before + [to], Above(low, n)) {
      if n <= Level(from) {
        PassesLonger(before, before + [to], Above(low, n));
      } else {
        PassesNext(before, Above(low, n - 1), to);
      }
    }
  }

  /** Between any two moments of a run, every milestone above the first status up to the last is passed, in order. */
  lemma {:induction false} MilestonesInOrder(run: seq<Status>)
    requires IsRun(run)
    ensures PassesUpTo(run, Level(run[0]), run[|run| - 1])
    decreases |run|
  {
    if |run| > 1 {
      SplitRun(run);
      MilestonesInOrder(run[..|run| - 1]);
      ExtendRun(run[..|run| - 1], Level(run[0]), run[|run| - 2], run[|run| - 1]);
    }
  }

  lemma ExtendRun(before: seq<Status>, low: nat, from: Status, to: Status)
    requires PassesUpTo(before, low, from) && CanTransition(from, to)
    ensures PassesUpTo(before + [to], low, to)
  {
    if Level(to) > Level(from) {
      ClimbsOne(from, to);
    }
    if low <= Level(from) {
      PassesStep(before, low, from, to);
    } else {
      forall n | low <= n <= Level(to) ensures Passes(before + [to], Above(low, n)) {
      }
    }
  }

  /**
   * From any visit to `draft`, the last one included, `ready` is reached only through all the stages, in order; in
   * particular nothing is provisioned without a review and an approval since.
   */
  lemma ReadyNeedsEveryStage(run: seq<Status>, d: nat)
    requires IsRun(run) && d < |run| && run[d] == Draft && run[|run| - 1] == Ready
    ensures Passes(run[d..], [SourceConfigured, Analyzing, Analyzed, Planning, ReviewRequired, Approved, Provisioning,
                              Validating, Ready])
  {
    SuffixIsRun(run, d);
    MilestonesInOrder(run[d..]);
    assert Passes(run[d..], Above(0, 9));
    AllAbove();
  }

  lemma AllAbove()
    ensures Above(0, 9) == [SourceConfigured, Analyzing, Analyzed, Planning, ReviewRequired, Approved, Provisioning,
                            Validating, Ready]
  {
    assert Above(0, 3) == [SourceConfigured, Analyzing, Analyzed];
    assert Above(0, 6) == Above(0, 3) + [Planning, ReviewRequired, Approved];
    assert Above(0, 9) == Above(0, 6) + [Provisioning, Validating, Ready];
  }

  lemma SuffixIsRun(run: seq<Status>, d: nat)
    requires IsRun(run) && d < |run|
    ensures IsRun(run[d..])
  {
  }

  // ----- no way back --------------------------------------------------------

  predicate IsLate(status: Status)
  {
    status in [Provisioning, Validating, Ready, ProvisioningFailed, ValidationFailed, Cancelled]
  }

  /** Once provisioning has begun, the draft can never change again. */
  lemma {:induction false} NoEditAfterProvisioning(run: seq<Status>, p: nat, k: nat)
    requires IsRun(run) && p <= k < |run| && run[p] == Provisioning
    ensures IsLate(run[k]) && run[k] !in EDITABLE
  {
    if k > p {
      NoEditAfterProvisioning(run, p, k - 1);
      assert CanTransition(run[k - 1], run[k]);
    }
  }

  /** A terminal status ends the run, and no other status has to. */
  lemma TerminalIff(status: Status)
    ensures status in TERMINAL <==> Transitions(status) == []
  {
  }

  lemma TerminalEnds(run: seq<Status>)
    requires IsRun(run) && run[0] in TERMINAL
    ensures |run| == 1
  {
    assert |run| > 1 ==> CanTransition(run[0], run[1]);
  }

  // ----- recovery -----------------------------------------------------------

  predicate IsFailure(status: Status)
  {
    status == AnalysisFailed || status == ProvisioningFailed || status == ValidationFailed
  }

  /** The next status on the shortest way to `ready`. */
  function Onward(status: Status): Status
    requires status !in TERMINAL
  {
    if status == AnalysisFailed then Analyzing
    else if status == ProvisioningFailed then Provisioning
    else if status == ValidationFailed then Validating
    else Milestone(Level(status) + 1)
  }

  function WayToReady(status: Status): (run: seq<Status>)
    requires status != Cancelled
    decreases LAST_LEVEL - Level(status), if IsFailure(status) then 1 else 0
  {
    if status == Ready then [Ready] else [status] + WayToReady(Onward(status))
  }

  lemma {:induction false} WayIsRun(status: Status)
    requires status != Cancelled
    ensures IsRun(WayToReady(status)) && WayToReady(status)[0] == status
    ensures WayToReady(status)[|WayToReady(status)| - 1] == Ready
    decreases LAST_LEVEL - Level(status), if IsFailure(status) then 1 else 0
  {
    if status != Ready {
      WayIsRun(Onward(status));
      Prepend(status, WayToReady(Onward(status)));
    }
  }

  lemma Prepend(status: Status, run: seq<Status>)
    requires IsRun(run) && CanTransition(status, run[0])
    ensures IsRun([status] + run)
  {
  }

  ghost predicate Leads(run: seq<Status>, from: Status, to: Status)
  {
    IsRun(run) && run[0] == from && run[|run| - 1] == to
  }

  /** Every failure is recoverable: `ready` stays within reach of every status but `cancelled`. */
  lemma RecoverableIff(status: Status)
    ensures (exists run :: Leads(run, status, Ready)) <==> status != Cancelled
  {
    if status == Cancelled {
      forall run | IsRun(run) && run[0] == Cancelled ensures run[|run| - 1] == Cancelled {
        TerminalEnds(run);
      }
    } else {
      WayIsRun(status);
      assert Leads(WayToReady(status), status, Ready);
    }
  }

  // ----- single steps -------------------------------------------------------

  /** Giving up is possible except while provisioning or validating and at the ends. */
  lemma CancellableIff(status: Status)
    ensures CanTransition(status, Cancelled) <==> status !in [Provisioning, Validating, Ready, Cancelled]
  {
  }

  /** Going back to the draft or to its source is possible exactly while editing, and from an approval. */
  lemma BackToDraftIff(status: Status)
    ensures CanTransition(status, Draft) <==> status in EDITABLE || status == Approved
    ensures CanTransition(status, SourceConfigured) <==> status in EDITABLE || status == Approved
  {
  }

  /** A failure is entered only from the work that failed. */
  lemma FailureEnteredIff(from: Status, to: Status)
    requires IsFailure(to)
    ensures CanTransition(from, to) <==>
              from == match to
                      case AnalysisFailed => Analyzing
                      case ProvisioningFailed => Provisioning
                      case _ => Validating
  {
  }

  /** Work begins only where it comes next, or again after it failed; an analysis also once it is done. */
  lemma WorkEnteredIff(from: Status)
    ensures CanTransition(from, Analyzing) <==> from in [SourceConfigured, Analyzed, AnalysisFailed]
    ensures CanTransition(from, Planning) <==> from in [Analyzed, ReviewRequired]
    ensures CanTransition(from, Provisioning) <==> from in [Approved, ProvisioningFailed, ValidationFailed]
    ensures CanTransition(from, Validating) <==> from in [Provisioning, ValidationFailed]
  {
  }

  /** Results are reached from the work itself, or on the way back from what builds on them. */
  lemma ResultEnteredIff(from: Status)
    ensures CanTransition(from, Analyzed) <==> from in [Analyzing, Planning, ReviewRequired, Approved]
    ensures CanTransition(from, ReviewRequired) <==> from in [Planning, ReviewRequired, Approved]
    ensures CanTransition(from, Approved) <==> from == ReviewRequired
    ensures CanTransition(from, Ready) <==> from == Validating
  {
  }
}
