/** `evaluateBudget` of contracts/cost-center.ts, with amounts of money as real numbers. */
module Budget {
  import opened Wrappers

  datatype Scope = Task | Daily | Monthly

  datatype Policy = Policy(
    task: Option<real>,
    daily: Option<real>,
    monthly: Option<real>,
    warningThresholdPercent: int,
    hardStop: bool)

  datatype Usage = Usage(task: real, daily: real, monthly: real)

  /** `Within` is the source's `ok`. */
  datatype Status = NotConfigured | Within | Warning | Blocked | Unpriced

  /** The window that drove the status, if one did. */
  datatype Evaluation = Evaluation(status: Status, window: Option<Window>)

  datatype Window = Window(scope: Scope, limit: Option<real>, used: real)

  /** The windows in order of priority. */
  function Windows(policy: Policy, used: Usage): (windows: seq<Window>)
    ensures |windows| == 3
  {
    [Window(Task, policy.task, used.task),
     Window(Daily, policy.daily, used.daily),
     Window(Monthly, policy.monthly, used.monthly)]
  }

  predicate Reached(w: Window)
  {
    w.limit.Some? && w.used >= w.limit.value
  }

  /** Past the warning percentage of a positive limit. */
  predicate Near(w: Window, percent: int)
  {
    w.limit.Some? && w.limit.value > 0.0 && w.used / w.limit.value * 100.0 >= percent as real
  }

  predicate HasLimit(policy: Policy)
  {
    policy.task.Some? || policy.daily.Some? || policy.monthly.Some?
  }

  // ----- what an evaluation means -------------------------------------------

  ghost predicate SomeReached(policy: Policy, used: Usage)
  {
    exists w :: w in Windows(policy, used) && Reached(w)
  }

  ghost predicate SomeNear(policy: Policy, used: Usage)
  {
    exists w :: w in Windows(policy, used) && Near(w, policy.warningThresholdPercent)
  }

  /** Before in the order of priority: task, daily, monthly. */
  predicate Before(a: Scope, b: Scope)
  {
    (a == Task && b != Task) || (a == Daily && b == Monthly)
  }

  ghost predicate FirstReached(policy: Policy, used: Usage, window: Option<Window>)
  {
    && window.Some? && window.value in Windows(policy, used) && Reached(window.value)
    && forall w :: w in Windows(policy, used) && Before(w.scope, window.value.scope) ==> !Reached(w)
  }

  ghost predicate FirstNear(policy: Policy, used: Usage, window: Option<Window>)
  {
    && window.Some? && window.value in Windows(policy, used) && Near(window.value, policy.warningThresholdPercent)
    && forall w :: w in Windows(policy, used) && Before(w.scope, window.value.scope) ==>
         !Near(w, policy.warningThresholdPercent)
  }

  /** The documented meaning, case by case and in order of precedence. */
  ghost predicate Judged(policy: Option<Policy>, used: Usage, uncosted: int, e: Evaluation)
  {
    match policy
    case None => e == Evaluation(NotConfigured, None)
    case Some(p) =>
      if SomeReached(p, used) then
        e.status == (if p.hardStop then Blocked else Warning) && FirstReached(p, used, e.window)
      else if SomeNear(p, used) then
        e.status == Warning && FirstNear(p, used, e.window)
      else if uncosted > 0 then
        e == Evaluation(if p.hardStop && HasLimit(p) then Blocked else Unpriced, None)
      else
        e == Evaluation(Within, None)
  }

  method EvaluateBudget(policy: Option<Policy>, used: Usage, uncosted: int) returns (e: Evaluation)
    ensures Judged(policy, used, uncosted, e)
  {
    if policy.None? {
      return Evaluation(NotConfigured, None);
    }
    var p := policy.value;
    var windows := Windows(p, used);
    var breached: Option<Window> := None;
    for i := 0 to |windows|
      invariant breached == None
      invariant forall j :: 0 <= j < i ==> !Reached(windows[j])
    {
      if Reached(windows[i]) {
        breached := Some(windows[i]);
        break;
      }
    }
    if breached.Some? {
      return Evaluation(if p.hardStop then Blocked else Warning, breached);
    }
    for i := 0 to |windows|
      invariant forall j :: 0 <= j < i ==> !Near(windows[j], p.warningThresholdPercent)
    {
      if Near(windows[i], p.warningThresholdPercent) {
        return Evaluation(Warning, Some(windows[i]));
      }
    }
    if uncosted > 0 {
      return Evaluation(if p.hardStop && HasLimit(p) then Blocked else Unpriced, None);
    }
    return Evaluation(Within, None);
  }

  /** The meaning leaves no choice. */
  lemma JudgedOnce(policy: Option<Policy>, used: Usage, uncosted: int, e: Evaluation, f: Evaluation)
    requires Judged(policy, used, uncosted, e) && Judged(policy, used, uncosted, f)
    ensures e == f
  {
    if policy.Some? && e.window.Some? && f.window.Some? {
      var windows := Windows(policy.value, used);
      var a, b := e.window.value, f.window.value;
      assert a in windows ==> b in windows ==> Before(a.scope, b.scope) || Before(b.scope, a.scope) || a == b;
    }
  }

  // ----- limit by limit -----------------------------------------------------

  predicate AtLimit(limit: Option<real>, spent: real)
  {
    limit.Some? && spent >= limit.value
  }

  predicate AtPercent(limit: Option<real>, spent: real, percent: int)
  {
    limit.Some? && limit.value > 0.0 && spent * 100.0 >= percent as real * limit.value
  }

  lemma PercentOf(spent: real, limit: real, percent: real)
    requires limit > 0.0
    ensures spent / limit * 100.0 >= percent <==> spent * 100.0 >= percent * limit
  {
    var q := spent / limit;
    assert q * limit == spent;
    ScaleBoth(q * 100.0, percent, limit);
    assert (q * 100.0) * limit == (q * limit) * 100.0;
  }

  lemma ScaleBoth(a: real, b: real, c: real)
    requires c > 0.0
    ensures a >= b <==> a * c >= b * c
  {
    if a > b {
      Positive(a - b, c);
      assert (a - b) * c == a * c - b * c;
    } else if b > a {
      Positive(b - a, c);
      assert (b - a) * c == b * c - a * c;
    }
  }

  lemma NearMeans(scope: Scope, limit: Option<real>, spent: real, percent: int)
    ensures Near(Window(scope, limit, spent), percent) <==> AtPercent(limit, spent, percent)
  {
    if limit.Some? && limit.value > 0.0 {
      PercentOf(spent, limit.value, percent as real);
    }
  }

  /** The verdict read off the limits and what was spent against each, without windows or order of windows. */
  lemma LimitByLimit(policy: Policy, used: Usage, uncosted: int, e: Evaluation)
    requires Judged(Some(policy), used, uncosted, e)
    ensures var reached := if policy.hardStop then Blocked else Warning;
            var percent := policy.warningThresholdPercent;
            if AtLimit(policy.task, used.task) then
              e == Evaluation(reached, Some(Window(Task, policy.task, used.task)))
            else if AtLimit(policy.daily, used.daily) then
              e == Evaluation(reached, Some(Window(Daily, policy.daily, used.daily)))
            else if AtLimit(policy.monthly, used.monthly) then
              e == Evaluation(reached, Some(Window(Monthly, policy.monthly, used.monthly)))
            else if AtPercent(policy.task, used.task, percent) then
              e == Evaluation(Warning, Some(Window(Task, policy.task, used.task)))
            else if AtPercent(policy.daily, used.daily, percent) then
              e == Evaluation(Warning, Some(Window(Daily, policy.daily, used.daily)))
            else if AtPercent(policy.monthly, used.monthly, percent) then
              e == Evaluation(Warning, Some(Window(Monthly, policy.monthly, used.monthly)))
            else
              e == Evaluation(
                     if uncosted <= 0 then Within
                     else if policy.hardStop && (policy.task.Some? || policy.daily.Some? || policy.monthly.Some?) then
                       Blocked
                     else Unpriced, None)
  {
    var windows, percent := Windows(policy, used), policy.warningThresholdPercent;
    NearMeans(Task, policy.task, used.task, percent);
    NearMeans(Daily, policy.daily, used.daily, percent);
    NearMeans(Monthly, policy.monthly, used.monthly, percent);
    hide Near, AtPercent;
    assert windows[0] in windows && windows[1] in windows && windows[2] in windows;
    assert Reached(windows[0]) <==> AtLimit(policy.task, used.task);
    assert Reached(windows[1]) <==> AtLimit(policy.daily, used.daily);
    assert Reached(windows[2]) <==> AtLimit(policy.monthly, used.monthly);
  }

  /** A limit is reached exactly when its own spend has come to it; the same for the percentage. */
  lemma ReachedByOwnSpend(policy: Policy, used: Usage)
    ensures SomeReached(policy, used)
            <==> || (policy.task.Some? && used.task >= policy.task.value)
                 || (policy.daily.Some? && used.daily >= policy.daily.value)
                 || (policy.monthly.Some? && used.monthly >= policy.monthly.value)
    ensures SomeNear(policy, used)
            <==> || AtPercent(policy.task, used.task, policy.warningThresholdPercent)
                 || AtPercent(policy.daily, used.daily, policy.warningThresholdPercent)
                 || AtPercent(policy.monthly, used.monthly, policy.warningThresholdPercent)
  {
    var windows, percent := Windows(policy, used), policy.warningThresholdPercent;
    NearMeans(Task, policy.task, used.task, percent);
    NearMeans(Daily, policy.daily, used.daily, percent);
    NearMeans(Monthly, policy.monthly, used.monthly, percent);
    hide Near, AtPercent;
    assert windows[0] in windows && windows[1] in windows && windows[2] in windows;
  }

  lemma WithinIff(policy: Option<Policy>, used: Usage, uncosted: int, e: Evaluation)
    requires Judged(policy, used, uncosted, e)
    ensures e.status == Within <==>
            policy.Some? && !SomeReached(policy.value, used) && !SomeNear(policy.value, used) && uncosted <= 0
  {
  }

  // ----- severity -----------------------------------------------------------

  function Severity(status: Status): nat
  {
    match status
    case NotConfigured => 0
    case Within => 0
    case Unpriced => 1
    case Warning => 2
    case Blocked => 3
  }

  predicate LimitAtMost(tighter: Option<real>, limit: Option<real>)
  {
    limit.Some? ==> tighter.Some? && tighter.value <= limit.value
  }

  /** Every limit is at most what it was, the warning comes no later, and a hard stop is not taken back. */
  predicate Tighter(tighter: Policy, policy: Policy)
  {
    && LimitAtMost(tighter.task, policy.task)
    && LimitAtMost(tighter.daily, policy.daily)
    && LimitAtMost(tighter.monthly, policy.monthly)
    && tighter.warningThresholdPercent <= policy.warningThresholdPercent
    && (policy.hardStop ==> tighter.hardStop)
  }

  predicate NoMore(used: Usage, more: Usage)
  {
    used.task <= more.task && used.daily <= more.daily && used.monthly <= more.monthly
  }

  predicate NonNegative(used: Usage)
  {
    used.task >= 0.0 && used.daily >= 0.0 && used.monthly >= 0.0
  }

  lemma RatioMonotone(used: real, limit: real, more: real, less: real)
    requires 0.0 <= used <= more && 0.0 < less <= limit
    ensures used / limit <= more / less
  {
    var q := used / limit;
    assert q * limit == used;
    assert q * less <= q * limit;
    assert q * less <= more;
    assert (more / less) * less == more;
  }

  /** A window that is reached or near stays so, or becomes reached, with more spent or less allowed. */
  lemma WindowMonotone(w: Window, v: Window, percent: int, lower: int)
    requires 0.0 <= w.used <= v.used && LimitAtMost(v.limit, w.limit) && lower <= percent
    ensures Reached(w) ==> Reached(v)
    ensures Near(w, percent) ==> Near(v, lower) || Reached(v)
  {
    if Near(w, percent) && v.limit.value > 0.0 {
      RatioMonotone(w.used, w.limit.value, v.used, v.limit.value);
    }
  }

  /** With everything priced, spending more or allowing less never lowers the severity. */
  lemma SeverityMonotone(policy: Policy, used: Usage, tighter: Policy, more: Usage, count: int, e: Evaluation,
      f: Evaluation)
    requires NonNegative(used) && NoMore(used, more) && Tighter(tighter, policy) && count <= 0
    requires Judged(Some(policy), used, count, e) && Judged(Some(tighter), more, count, f)
    ensures Severity(e.status) <= Severity(f.status)
  {
    AllWindowsMonotone(policy, used, tighter, more);
  }

  lemma AllWindowsMonotone(policy: Policy, used: Usage, tighter: Policy, more: Usage)
    requires NonNegative(used) && NoMore(used, more) && Tighter(tighter, policy)
    ensures SomeReached(policy, used) ==> SomeReached(tighter, more)
    ensures SomeNear(policy, used) ==> SomeNear(tighter, more) || SomeReached(tighter, more)
  {
    var before, after := Windows(policy, used), Windows(tighter, more);
    forall i | 0 <= i < 3
      ensures Reached(before[i]) ==> Reached(after[i])
      ensures Near(before[i], policy.warningThresholdPercent) ==>
                Near(after[i], tighter.warningThresholdPercent) || Reached(after[i])
    {
      WindowMonotone(before[i], after[i], policy.warningThresholdPercent, tighter.warningThresholdPercent);
    }
    if SomeReached(policy, used) {
      var w :| w in before && Reached(w);
      var i :| 0 <= i < 3 && before[i] == w;
      assert after[i] in after && Reached(after[i]);
    }
    if SomeNear(policy, used) {
      var w :| w in before && Near(w, policy.warningThresholdPercent);
      var i :| 0 <= i < 3 && before[i] == w;
      assert after[i] in after;
    }
  }

  // ----- usage that could not be priced -------------------------------------

  /**
   * Under a hard stop with a limit, usage that could not be priced blocks exactly when a limit is reached or no window
   * is past its warning percentage: the warning pass comes first.
   */
  lemma UnpricedBlocksIff(policy: Policy, used: Usage, uncosted: int, e: Evaluation)
    requires Judged(Some(policy), used, uncosted, e) && policy.hardStop && HasLimit(policy) && uncosted > 0
    ensures e.status == Blocked <==> SomeReached(policy, used) || !SomeNear(policy, used)
    ensures e.status != Blocked ==> e.status == Warning
  {
  }

  /** The limits and percentage that `validateBudgetPolicyDraft` admits. */
  predicate Admitted(policy: Policy)
  {
    && 1 <= policy.warningThresholdPercent <= 100
    && (policy.task.Some? ==> policy.task.value >= 0.0)
    && (policy.daily.Some? ==> policy.daily.value >= 0.0)
    && (policy.monthly.Some? ==> policy.monthly.value >= 0.0)
  }

  /** A hard stop with limits, none of them zero, that warns before they are reached. */
  predicate WarnsBeforeStop(policy: Policy)
  {
    && policy.hardStop && HasLimit(policy) && policy.warningThresholdPercent < 100
    && policy.task != Some(0.0) && policy.daily != Some(0.0) && policy.monthly != Some(0.0)
  }

  /** More spending never lowers the severity, whatever the usage was. */
  ghost predicate MonotoneInSpend(policy: Policy, uncosted: int)
  {
    forall used, more, e, f ::
      Compared(policy, uncosted, used, more, e, f) ==> Severity(e.status) <= Severity(f.status)
  }

  ghost predicate Compared(policy: Policy, uncosted: int, used: Usage, more: Usage, e: Evaluation, f: Evaluation)
  {
    && NonNegative(used) && NoMore(used, more)
    && Judged(Some(policy), used, uncosted, e) && Judged(Some(policy), more, uncosted, f)
  }

  /** With usage that could not be priced, severity grows with the spend exactly when the policy does not warn first. */
  lemma UnpricedMonotoneIff(policy: Policy, uncosted: int)
    requires Admitted(policy) && uncosted > 0
    ensures MonotoneInSpend(policy, uncosted) <==> !WarnsBeforeStop(policy)
  {
    if WarnsBeforeStop(policy) {
      NotMonotone(policy, uncosted);
    } else {
      forall used, more, e, f | Compared(policy, uncosted, used, more, e, f)
        ensures Severity(e.status) <= Severity(f.status)
      {
        WithinIff(Some(policy), more, uncosted, f);
        if policy.hardStop && HasLimit(policy) {
          UnpricedBlocksIff(policy, more, uncosted, f);
        }
        AllWindowsMonotone(policy, used, policy, more);
        NeverOnlyNear(policy, more);
      }
    }
  }

  /** Without a warning before the stop, a hard-stopped policy is past a percentage only with some limit reached. */
  lemma NeverOnlyNear(policy: Policy, used: Usage)
    requires Admitted(policy) && NonNegative(used) && !WarnsBeforeStop(policy)
    ensures policy.hardStop && SomeNear(policy, used) ==> SomeReached(policy, used)
  {
    var windows := Windows(policy, used);
    if policy.hardStop && SomeNear(policy, used) {
      var w :| w in windows && Near(w, policy.warningThresholdPercent);
      if policy.warningThresholdPercent == 100 {
        FullRatio(w.used, w.limit.value);
        assert Reached(w);
      } else {
        assert windows[0] in windows && windows[1] in windows && windows[2] in windows;
        assert Reached(windows[0]) || Reached(windows[1]) || Reached(windows[2]);
      }
    }
  }

  lemma FullRatio(used: real, limit: real)
    requires limit > 0.0 && used / limit * 100.0 >= 100.0
    ensures used >= limit
  {
    var q := used / limit;
    assert q >= 1.0 && q * limit == used;
    assert (q - 1.0) * limit >= 0.0;
  }

  /** Nothing spent blocks, and spending up to the warning percentage of every limit only warns. */
  lemma NotMonotone(policy: Policy, uncosted: int)
    requires Admitted(policy) && uncosted > 0 && WarnsBeforeStop(policy)
    ensures !MonotoneInSpend(policy, uncosted)
  {
    var none, more := Usage(0.0, 0.0, 0.0), AtWarning(policy);
    var windows, near := Windows(policy, none), Windows(policy, more);
    var percent := policy.warningThresholdPercent;
    assert policy.task.Some? ==> policy.task.value > 0.0;
    forall w | w in windows ensures !Reached(w) && !Near(w, percent) {
    }
    WarningPart(policy.task, percent, percent as real / 100.0);
    WarningPart(policy.daily, percent, percent as real / 100.0);
    WarningPart(policy.monthly, percent, percent as real / 100.0);
    assert near[0] in near && near[1] in near && near[2] in near;
    assert Near(near[0], percent) || Near(near[1], percent) || Near(near[2], percent);
    assert SomeNear(policy, more) && !SomeReached(policy, more);
    var f := FirstNearExists(policy, more);
    var e := Evaluation(Blocked, None);
    assert Compared(policy, uncosted, none, more, e, f);
    assert Severity(e.status) > Severity(f.status);
  }

  function Share(amount: real, q: real): real
  {
    amount * q
  }

  function PartOf(limit: Option<real>, q: real): real
  {
    if limit.Some? then Share(limit.value, q) else 0.0
  }

  function AtWarning(policy: Policy): Usage
  {
    var q := policy.warningThresholdPercent as real / 100.0;
    Usage(PartOf(policy.task, q), PartOf(policy.daily, q), PartOf(policy.monthly, q))
  }

  lemma WarningPart(limit: Option<real>, percent: int, q: real)
    requires 0.0 < q < 1.0 && q * 100.0 >= percent as real && (limit.Some? ==> limit.value > 0.0)
    ensures PartOf(limit, q) >= 0.0
    ensures limit.Some? ==> PartOf(limit, q) < limit.value
    ensures limit.Some? ==> PartOf(limit, q) / limit.value * 100.0 >= percent as real
  {
    if limit.Some? {
      Fraction(limit.value, q);
    }
  }

  lemma Positive(x: real, y: real)
    requires 0.0 < x && 0.0 < y
    ensures 0.0 < x * y
  {
  }

  lemma Fraction(limit: real, q: real)
    requires 0.0 < limit && 0.0 < q < 1.0
    ensures 0.0 < Share(limit, q) < limit && Share(limit, q) / limit == q
  {
    PartBelow(limit, q);
    Positive(limit, q);
    ShareOf(limit, q, Share(limit, q) / limit);
  }

  lemma PartBelow(limit: real, q: real)
    requires 0.0 < limit && q < 1.0
    ensures Share(limit, q) < limit
  {
    var left := 1.0 - q;
    Positive(limit, left);
    assert limit * q + limit * left == limit;
  }

  lemma ShareOf(limit: real, q: real, ratio: real)
    requires 0.0 < limit && ratio * limit == limit * q
    ensures ratio == q
  {
    NonZeroProduct(limit, ratio - q);
  }

  lemma NonZeroProduct(x: real, y: real)
    requires 0.0 < x && y * x == 0.0
    ensures y == 0.0
  {
  }

  lemma FirstNearExists(policy: Policy, used: Usage) returns (e: Evaluation)
    requires SomeNear(policy, used)
    ensures e.status == Warning && FirstNear(policy, used, e.window)
  {
    var windows, percent := Windows(policy, used), policy.warningThresholdPercent;
    var w :=
      if Near(windows[0], percent) then windows[0]
      else if Near(windows[1], percent) then windows[1]
      else windows[2];
    assert w in windows;
    e := Evaluation(Warning, Some(w));
  }
}
