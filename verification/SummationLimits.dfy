/**
 * Why `sumUsd` of contracts/cost-center.ts compensates: plain addition drifts with the number of amounts. And why the
 * leading term of its own error is three times the unit roundoff, not two, unless the differences are exact.
 */
module SummationLimits {
  import opened Summation

  /** Accumulation with plain additions, which `sumUsd` replaces. */
  function PlainRun(amounts: seq<real>, rnd: Rounding): real
  {
    if amounts == [] then 0.0
    else rnd(PlainRun(amounts[..|amounts| - 1], rnd) + amounts[|amounts| - 1])
  }

  function OneThenZeros(zeros: nat): (amounts: seq<real>)
    ensures |amounts| == zeros + 1
  {
    if zeros == 0 then [1.0] else OneThenZeros(zeros - 1) + [0.0]
  }

  lemma {:induction false} OneThenZerosSums(zeros: nat)
    ensures Total(OneThenZeros(zeros)) == 1.0 && Magnitude(OneThenZeros(zeros)) == 1.0
  {
    if zeros > 0 {
      OneThenZerosSums(zeros - 1);
      assert OneThenZeros(zeros)[..zeros] == OneThenZeros(zeros - 1);
    } else {
      assert OneThenZeros(0)[..0] == [];
      assert Total([1.0]) == Total([]) + 1.0;
    }
  }

  /** Rounds everything up as far as is allowed. */
  function Up(u: real): Rounding
  {
    r => Multiple(1.0 + u, r)
  }

  lemma UpRounds(u: real)
    requires 0.0 <= u
    ensures RoundsWithin(Up(u), Times(u))
  {
    forall r ensures RoundsAt(Up(u), Times(u), r) {
      UpRoundsAt(u, r);
    }
  }

  lemma UpRoundsAt(u: real, r: real)
    requires 0.0 <= u
    ensures RoundsAt(Up(u), Times(u), r)
  {
    assert Multiple(1.0 + u, r) - r == u * r;
    NonNegative(u, Abs(r));
    assert u * -r == -(u * r);
    assert Multiple(u, Abs(r)) == u * Abs(r);
  }

  lemma NonNegative(u: real, x: real)
    requires 0.0 <= u && 0.0 <= x
    ensures 0.0 <= u * x
  {
  }

  function Repeated(n: nat, u: real): real
  {
    if n == 0 then 0.0 else Repeated(n - 1, u) + u
  }

  lemma {:induction false} RepeatedIs(n: nat, u: real)
    ensures Repeated(n, u) == n as real * u
  {
    if n > 0 {
      RepeatedIs(n - 1, u);
      Successor(n - 1, u);
    }
  }

  lemma {:induction false} PlainGrows(zeros: nat, u: real)
    requires 0.0 <= u
    ensures PlainRun(OneThenZeros(zeros), Up(u)) >= 1.0 + Repeated(zeros + 1, u) && Repeated(zeros, u) >= 0.0
  {
    if zeros > 0 {
      PlainGrows(zeros - 1, u);
      GrowsOnce(PlainRun(OneThenZeros(zeros - 1), Up(u)), u, Repeated(zeros, u));
      PlainStep(zeros, u);
    } else {
      PlainOnce(u);
    }
  }

  lemma PlainOnce(u: real)
    ensures PlainRun(OneThenZeros(0), Up(u)) == 1.0 + u
  {
    assert OneThenZeros(0)[..0] == [];
    assert PlainRun(OneThenZeros(0), Up(u)) == Multiple(1.0 + u, PlainRun([], Up(u)) + 1.0);
  }

  lemma PlainStep(zeros: nat, u: real)
    requires zeros > 0
    ensures PlainRun(OneThenZeros(zeros), Up(u)) == Multiple(1.0 + u, PlainRun(OneThenZeros(zeros - 1), Up(u)))
  {
    assert OneThenZeros(zeros)[..zeros] == OneThenZeros(zeros - 1);
    assert PlainRun(OneThenZeros(zeros - 1), Up(u)) + 0.0 == PlainRun(OneThenZeros(zeros - 1), Up(u));
  }

  lemma GrowsOnce(before: real, u: real, q: real)
    requires 0.0 <= u && 0.0 <= q && 1.0 + q <= before
    ensures Multiple(1.0 + u, before) >= 1.0 + q + u
  {
    NonNegative(u, before - 1.0);
  }

  /**
   * Plain addition can be off by the number of amounts times `u`: a bound like that of `SumError`, whose leading term
   * does not grow with the number of amounts, fails for it.
   */
  lemma PlainDrifts(zeros: nat, u: real)
    requires 0.0 <= u
    ensures var amounts := OneThenZeros(zeros);
            && RoundsWithin(Up(u), Times(u))
            && PlainRun(amounts, Up(u)) - Total(amounts) >= |amounts| as real * u * Magnitude(amounts)
  {
    UpRounds(u);
    PlainGrows(zeros, u);
    RepeatedIs(zeros + 1, u);
    OneThenZerosSums(zeros);
  }

  /** A rounding that moves four values as far as is allowed, one of them down, and leaves the others alone. */
  function Adverse(u: real, k: real, h: real): Rounding
  {
    r =>
      if r == 1.0 || r == 1.0 + u || r == h then Multiple(1.0 + u, r)
      else if r == k then Multiple(1.0 - u, r)
      else r
  }

  lemma DownRoundsAt(u: real, r: real)
    requires 0.0 <= u
    ensures Abs(Multiple(1.0 - u, r) - r) <= Times(u)(Abs(r))
  {
    assert Multiple(1.0 - u, r) - r == -(u * r);
    NonNegative(u, Abs(r));
    assert u * -r == -(u * r);
    assert Multiple(u, Abs(r)) == u * Abs(r);
  }

  lemma AdverseRounds(u: real, k: real, h: real)
    requires 0.0 <= u
    ensures RoundsWithin(Adverse(u, k, h), Times(u))
  {
    forall r ensures RoundsAt(Adverse(u, k, h), Times(u), r) {
      UpRoundsAt(u, r);
      DownRoundsAt(u, r);
      NonNegative(u, Abs(r));
      assert Times(u)(Abs(r)) == u * Abs(r);
    }
  }

  /** The four values of `Adverse`: `1`, `1 + u`, its square `k`, and `h`, the square and a little more. */
  ghost predicate AdverseValues(u: real, k: real, q: real, h: real)
  {
    && k == Multiple(1.0 + u, 1.0 + u) && q == u * u * (1.0 + u) && h == k + q
    && 0.0 < q < 1.0 < 1.0 + u < k < h
    && Multiple(1.0 - u, k) - (1.0 + u) == -q
  }

  lemma AdverseValuesExist(u: real, k: real, q: real, h: real)
    requires 0.0 < u <= 0.01 && k == (1.0 + u) * (1.0 + u) && q == u * u * (1.0 + u) && h == k + q
    ensures AdverseValues(u, k, q, h)
    ensures Multiple(1.0 + u, h) >= 1.0 + 3.0 * u
  {
    var uu := u * u;
    assert 0.0 < uu <= 0.01 * u;
    assert k == 1.0 + 2.0 * u + uu;
    assert q == uu + u * uu && 0.0 < u * uu <= 0.01 * uu;
    assert Multiple(1.0 - u, k) == k - u * k;
    assert u * k == u + 2.0 * uu + u * uu;
    assert Multiple(1.0 + u, h) == h + u * h;
    NonNegative(u, h - 1.0 - 2.0 * u);
  }

  lemma AdverseRun(u: real, k: real, q: real, h: real)
    requires AdverseValues(u, k, q, h)
    ensures Run(OneThenZeros(1), Adverse(u, k, h)).sum == Multiple(1.0 + u, h)
  {
    var rnd := Adverse(u, k, h);
    assert OneThenZeros(1) == [1.0, 0.0];
    assert [1.0, 0.0][..1] == [1.0] && [1.0][..0] == [];
    assert Run([], rnd) == State(0.0, 0.0);
    assert Run([1.0], rnd) == State(k, -q) by {
      AdverseFirst(u, k, q, h);
    }
    AdverseSecond(u, k, q, h);
  }

  lemma AdverseFirst(u: real, k: real, q: real, h: real)
    requires AdverseValues(u, k, q, h)
    ensures Add(State(0.0, 0.0), 1.0, Adverse(u, k, h)) == State(k, -q)
  {
    var rnd := Adverse(u, k, h);
    assert rnd(1.0) == Multiple(1.0 + u, 1.0) == 1.0 + u;
    assert rnd(1.0 + u) == k;
    assert rnd(k) == Multiple(1.0 - u, k);
    assert rnd(-q) == -q;
  }

  lemma AdverseSecond(u: real, k: real, q: real, h: real)
    requires AdverseValues(u, k, q, h)
    ensures Add(State(k, -q), 0.0, Adverse(u, k, h)).sum == Multiple(1.0 + u, h)
  {
    var rnd := Adverse(u, k, h);
    assert rnd(q) == q;
    assert rnd(h) == Multiple(1.0 + u, h);
  }

  /**
   * Without exact differences no bound whose leading term is twice `u` holds: whatever the constant `c` of the second
   * order, two amounts break it as soon as `2 * c * u` is below one.
   */
  lemma TwoIsNotEnough(u: real, c: real)
    requires 0.0 < u <= 0.01 && 2.0 * (c * u) < 1.0
    ensures exists rnd: Rounding :: RoundsWithin(rnd, Times(u)) && BreaksTwo(OneThenZeros(1), rnd, u, c)
  {
    var k, q := (1.0 + u) * (1.0 + u), u * u * (1.0 + u);
    AdverseValuesExist(u, k, q, k + q);
    AdverseRounds(u, k, k + q);
    AdverseBreaksTwo(u, c, k, q, k + q);
  }

  lemma AdverseBreaksTwo(u: real, c: real, k: real, q: real, h: real)
    requires 0.0 < u && 2.0 * (c * u) < 1.0 && AdverseValues(u, k, q, h) && Multiple(1.0 + u, h) >= 1.0 + 3.0 * u
    ensures BreaksTwo(OneThenZeros(1), Adverse(u, k, h), u, c)
  {
    var amounts, rnd := OneThenZeros(1), Adverse(u, k, h);
    AdverseRun(u, k, q, h);
    OneThenZerosSums(1);
    BelowThree(u, c);
    assert Run(amounts, rnd).sum - Total(amounts) >= 3.0 * u;
    assert SumBound(2.0, c, u, |amounts|, Magnitude(amounts)) == SumBound(2.0, c, u, 2, 1.0);
  }

  lemma BelowThree(u: real, c: real)
    requires 0.0 < u && 2.0 * (c * u) < 1.0
    ensures SumBound(2.0, c, u, 2, 1.0) < 3.0 * u
  {
    var y := c * (2 as real * (u * u));
    SecondOrderPart(c, u, y);
    assert SumBound(2.0, c, u, 2, 1.0) == 2.0 * u + y;
  }

  lemma SecondOrderPart(c: real, u: real, y: real)
    requires 0.0 < u && 2.0 * (c * u) < 1.0 && y == c * (2.0 * (u * u))
    ensures y < u
  {
    var q := 2.0 * (c * u);
    Shrunk(q, u);
    assert y == q * u;
  }

  lemma Shrunk(q: real, u: real)
    requires 0.0 < u && q < 1.0
    ensures q * u < u
  {
  }

  ghost predicate BreaksTwo(amounts: seq<real>, rnd: Rounding, u: real, c: real)
  {
    Abs(Run(amounts, rnd).sum - Total(amounts)) > SumBound(2.0, c, u, |amounts|, Magnitude(amounts))
  }
}
