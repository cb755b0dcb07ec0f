/**
 * `sumUsd` of contracts/cost-center.ts: compensated summation, with rounding as a function on the reals whose relative
 * error is at most `u`.
 */
module Summation {

  type Rounding = real -> real

  /** Multiplication by the unit roundoff; the error bounds use only that it is linear and shrinks. */
  type Scale = real -> real

  function Times(u: real): Scale
  {
    x => Multiple(u, x)
  }

  function Multiple(u: real, x: real): real
  {
    u * x
  }

  function Abs(x: real): real
  {
    if x < 0.0 then -x else x
  }

  /** Standard model of floating-point arithmetic (section 4.3.1 of IEEE 754-2019), away from under- and overflow. */
  ghost predicate RoundsWithin(rnd: Rounding, scale: Scale)
  {
    forall r :: RoundsAt(rnd, scale, r)
  }

  ghost predicate RoundsAt(rnd: Rounding, scale: Scale, r: real)
  {
    Abs(rnd(r) - r) <= scale(Abs(r))
  }

  datatype State = State(sum: real, compensation: real)

  function Add(state: State, amount: real, rnd: Rounding): State
  {
    var y := rnd(amount - state.compensation);
    var t := rnd(state.sum + y);
    State(t, rnd(rnd(t - state.sum) - y))
  }

  /** The variables of the loop after all the amounts. */
  function Run(amounts: seq<real>, rnd: Rounding): State
  {
    if amounts == [] then State(0.0, 0.0)
    else Add(Run(amounts[..|amounts| - 1], rnd), amounts[|amounts| - 1], rnd)
  }

  method SumUsd(amounts: seq<real>, rnd: Rounding) returns (total: real)
    ensures total == Run(amounts, rnd).sum
  {
    var sum, compensation := 0.0, 0.0;
    for k := 0 to |amounts|
      invariant State(sum, compensation) == Run(amounts[..k], rnd)
    {
      assert amounts[..k + 1][..k] == amounts[..k];
      var y := rnd(amounts[k] - compensation);
      var t := rnd(sum + y);
      compensation := rnd(rnd(t - sum) - y);
      sum := t;
    }
    assert amounts == amounts[..|amounts|];
    return sum;
  }

  // ----- the exact values ---------------------------------------------------

  function Total(amounts: seq<real>): real
  {
    if amounts == [] then 0.0 else Total(amounts[..|amounts| - 1]) + amounts[|amounts| - 1]
  }

  function Magnitude(amounts: seq<real>): real
  {
    if amounts == [] then 0.0 else Magnitude(amounts[..|amounts| - 1]) + Abs(amounts[|amounts| - 1])
  }

  lemma {:induction false} TotalWithinMagnitude(amounts: seq<real>)
    ensures Abs(Total(amounts)) <= Magnitude(amounts)
  {
    if amounts != [] {
      TotalWithinMagnitude(amounts[..|amounts| - 1]);
    }
  }

  /** With exact arithmetic nothing needs compensating and the sum is exact. */
  lemma {:induction false} ExactArithmetic(amounts: seq<real>, rnd: Rounding)
    requires forall r :: rnd(r) == r
    ensures Run(amounts, rnd) == State(Total(amounts), 0.0)
  {
    if amounts != [] {
      ExactArithmetic(amounts[..|amounts| - 1], rnd);
    }
  }

  // ----- multiplying by `u` -------------------------------------------------

  ghost predicate IsScale(scale: Scale)
  {
    && (forall x, y :: Adds(scale, x, y))
    && (forall c, x :: Multiplies(scale, c, x))
    && (forall x :: Shrinks(scale, x))
  }

  ghost predicate Adds(scale: Scale, x: real, y: real)
  {
    scale(x + y) == scale(x) + scale(y)
  }

  ghost predicate Multiplies(scale: Scale, c: real, x: real)
  {
    scale(c * x) == c * scale(x)
  }

  ghost predicate Shrinks(scale: Scale, x: real)
  {
    0.0 <= x ==> 0.0 <= scale(x) <= 0.01 * x
  }

  lemma Monotone(scale: Scale, x: real, y: real)
    requires IsScale(scale) && x <= y
    ensures scale(x) <= scale(y)
  {
    assert Adds(scale, x, y - x) && Shrinks(scale, y - x);
  }

  /** `n` times the twice scaled `m`. */
  function SecondOrder(n: nat, scale: Scale, m: real): real
  {
    if n == 0 then 0.0 else SecondOrder(n - 1, scale, m) + scale(scale(m))
  }

  lemma {:induction false} SecondOrderMonotone(n: nat, scale: Scale, m: real, p: real)
    requires IsScale(scale) && 0.0 <= m <= p
    ensures 0.0 <= SecondOrder(n, scale, m) <= SecondOrder(n, scale, p)
  {
    if n > 0 {
      SecondOrderMonotone(n - 1, scale, m, p);
      Monotone(scale, m, p);
      Monotone(scale, scale(m), scale(p));
      assert Shrinks(scale, m) && Shrinks(scale, scale(m));
    }
  }

  // ----- the error of one step ----------------------------------------------

  /** The roundings of one step, each as an error added to the exact value. */
  datatype Errors = Errors(e1: real, e2: real, e3: real, e4: real)

  ghost function StepErrors(state: State, x: real, rnd: Rounding): Errors
  {
    var y := rnd(x - state.compensation);
    var t := rnd(state.sum + y);
    var z := rnd(t - state.sum);
    Errors(y - (x - state.compensation), t - (state.sum + y), z - (t - state.sum), rnd(z - y) - (z - y))
  }

  /** What the new state is in terms of the errors. */
  lemma StepIdentity(state: State, x: real, rnd: Rounding)
    ensures var after := Add(state, x, rnd);
            var e := StepErrors(state, x, rnd);
            && after.compensation == e.e2 + e.e3 + e.e4
            && after.sum - after.compensation == (state.sum - state.compensation) + x + e.e1 - e.e3 - e.e4
            && after.sum == (state.sum - state.compensation) + x + e.e1 + e.e2
  {
  }

  /** Sizes of the four errors: `w` is the scaled magnitude, `v` the scaled `w`, `ua` the scaled size of the amount. */
  ghost predicate ErrorsWithin(e: Errors, p: real, w: real, v: real, ua: real)
  {
    && Abs(e.e1) <= ua + 3.0 * v
    && Abs(e.e2) <= 1.15 * w
    && Abs(e.e3) <= ua + 5.18 * v
    && Abs(e.e4) <= 2.21 * v
  }

  lemma SecondArgument(d: real, x: real, e1: real, p: real, w: real, v: real, ua: real)
    requires Abs(d) + Abs(x) <= 1.13 * p && Abs(e1) <= ua + 3.0 * v
    requires 0.0 <= w <= 0.01 * p && 0.0 <= v <= 0.01 * w && ua <= w
    ensures Abs(d + x + e1) <= 0.0 + 1.15 * p
  {
  }

  lemma ThirdArgument(x: real, c: real, e1: real, e2: real, w: real, v: real, ua: real)
    requires Abs(c) <= 3.0 * w && Abs(e1) <= ua + 3.0 * v && Abs(e2) <= 1.15 * w
    requires 0.0 <= v <= 0.01 * w && ua <= w
    ensures Abs(x - c + e1 + e2) <= Abs(x) + 5.18 * w
  {
  }

  lemma FourthArgument(e2: real, e3: real, w: real, v: real, ua: real)
    requires Abs(e2) <= 1.15 * w && Abs(e3) <= ua + 5.18 * v && 0.0 <= v <= 0.01 * w && ua <= w
    ensures Abs(e2 + e3) <= 0.0 + 2.21 * w
  {
  }

  /** The error of rounding something of size at most `a + c * w`. */
  lemma Rounded(rnd: Rounding, scale: Scale, r: real, a: real, c: real, w: real)
    requires RoundsWithin(rnd, scale) && IsScale(scale) && Abs(r) <= a + c * w
    ensures Abs(rnd(r) - r) <= scale(a) + c * scale(w)
  {
    assert RoundsAt(rnd, scale, r);
    Monotone(scale, Abs(r), a + c * w);
    assert Adds(scale, a, c * w) && Multiplies(scale, c, w);
  }

  lemma ScaleOfZero(scale: Scale)
    requires IsScale(scale)
    ensures scale(0.0) == 0.0
  {
    assert Shrinks(scale, 0.0);
  }

  lemma SecondError(r: real, d: real, x: real, e1: real, rnd: Rounding, scale: Scale, p: real, w: real, v: real,
      ua: real)
    requires RoundsWithin(rnd, scale) && IsScale(scale) && w == scale(p)
    requires 0.0 <= w <= 0.01 * p && 0.0 <= v <= 0.01 * w && ua <= w
    requires Abs(d) + Abs(x) <= 1.13 * p && Abs(e1) <= ua + 3.0 * v && r == d + x + e1
    ensures Abs(rnd(r) - r) <= 1.15 * w
  {
    SecondArgument(d, x, e1, p, w, v, ua);
    ScaleOfZero(scale);
    Rounded(rnd, scale, r, 0.0, 1.15, p);
  }

  lemma FirstErrors(state: State, x: real, rnd: Rounding, scale: Scale, p: real, w: real, v: real, ua: real)
    requires RoundsWithin(rnd, scale) && IsScale(scale) && w == scale(p) && v == scale(w) && ua == scale(Abs(x))
    requires 0.0 <= w <= 0.01 * p && 0.0 <= v <= 0.01 * w && ua <= w
    requires Abs(state.compensation) <= 3.0 * w && Abs(state.sum - state.compensation) + Abs(x) <= 1.13 * p
    ensures Abs(StepErrors(state, x, rnd).e1) <= ua + 3.0 * v && Abs(StepErrors(state, x, rnd).e2) <= 1.15 * w
  {
    var c := state.compensation;
    var y := rnd(x - c);
    Rounded(rnd, scale, x - c, Abs(x), 3.0, w);
    SecondError(state.sum + y, state.sum - c, x, y - (x - c), rnd, scale, p, w, v, ua);
  }

  lemma ThirdError(r: real, x: real, c: real, e1: real, e2: real, rnd: Rounding, scale: Scale, w: real, v: real,
      ua: real)
    requires RoundsWithin(rnd, scale) && IsScale(scale) && v == scale(w) && ua == scale(Abs(x))
    requires 0.0 <= v <= 0.01 * w && ua <= w && Abs(c) <= 3.0 * w
    requires Abs(e1) <= ua + 3.0 * v && Abs(e2) <= 1.15 * w && r == x - c + e1 + e2
    ensures Abs(rnd(r) - r) <= ua + 5.18 * v
  {
    ThirdArgument(x, c, e1, e2, w, v, ua);
    Rounded(rnd, scale, r, Abs(x), 5.18, w);
  }

  lemma FourthError(r: real, e2: real, e3: real, rnd: Rounding, scale: Scale, w: real, v: real, ua: real)
    requires RoundsWithin(rnd, scale) && IsScale(scale) && v == scale(w)
    requires 0.0 <= v <= 0.01 * w && ua <= w
    requires Abs(e2) <= 1.15 * w && Abs(e3) <= ua + 5.18 * v && r == e2 + e3
    ensures Abs(rnd(r) - r) <= 2.21 * v
  {
    FourthArgument(e2, e3, w, v, ua);
    ScaleOfZero(scale);
    Rounded(rnd, scale, r, 0.0, 2.21, w);
  }

  lemma LastErrors(state: State, x: real, rnd: Rounding, scale: Scale, w: real, v: real, ua: real)
    requires RoundsWithin(rnd, scale) && IsScale(scale) && v == scale(w) && ua == scale(Abs(x))
    requires 0.0 <= v <= 0.01 * w && ua <= w && Abs(state.compensation) <= 3.0 * w
    requires Abs(StepErrors(state, x, rnd).e1) <= ua + 3.0 * v && Abs(StepErrors(state, x, rnd).e2) <= 1.15 * w
    ensures Abs(StepErrors(state, x, rnd).e3) <= ua + 5.18 * v && Abs(StepErrors(state, x, rnd).e4) <= 2.21 * v
  {
    var e := StepErrors(state, x, rnd);
    var y := rnd(x - state.compensation);
    var t := rnd(state.sum + y);
    var z := rnd(t - state.sum);
    ThirdError(t - state.sum, x, state.compensation, e.e1, e.e2, rnd, scale, w, v, ua);
    FourthError(z - y, e.e2, e.e3, rnd, scale, w, v, ua);
  }

  /** `p` is at least the magnitude with the new amount included. */
  lemma StepErrorSizes(state: State, x: real, rnd: Rounding, scale: Scale, p: real)
    requires RoundsWithin(rnd, scale) && IsScale(scale) && Abs(x) <= p
    requires Abs(state.compensation) <= 3.0 * scale(p)
    requires Abs(state.sum - state.compensation) + Abs(x) <= 1.13 * p
    ensures ErrorsWithin(StepErrors(state, x, rnd), p, scale(p), scale(scale(p)), scale(Abs(x)))
  {
    var w, v, ua := scale(p), scale(scale(p)), scale(Abs(x));
    assert Shrinks(scale, p) && Shrinks(scale, w);
    Monotone(scale, Abs(x), p);
    FirstErrors(state, x, rnd, scale, p, w, v, ua);
    LastErrors(state, x, rnd, scale, w, v, ua);
  }

  // ----- the error of a run -------------------------------------------------

  /** At every step `t - sum` is a representable number, so that the subtraction that recovers the addend is exact. */
  ghost predicate ExactDifferences(amounts: seq<real>, rnd: Rounding)
  {
    amounts == [] ||
    var before := amounts[..|amounts| - 1];
    ExactDifferences(before, rnd) && StepErrors(Run(before, rnd), amounts[|amounts| - 1], rnd).e3 == 0.0
  }

  /** The part of the error that is of first order. */
  function Lead(exact: bool, w: real): real
  {
    if exact then w else 2.0 * w
  }

  /** `w` is the scaled magnitude, `nv` the second-order part of the bound. */
  ghost predicate Close(state: State, total: real, exact: bool, w: real, nv: real)
  {
    && Abs(state.compensation) <= 3.0 * w
    && Abs(state.sum - state.compensation - total) <= Lead(exact, w) + 11.0 * nv
  }

  lemma CloseSize(state: State, total: real, exact: bool, m: real, w: real, nv: real)
    requires Close(state, total, exact, w, nv) && Abs(total) <= m
    requires 0.0 <= w <= 0.01 * m && 0.0 <= nv <= 0.01 * m
    ensures Abs(state.sum - state.compensation) <= 1.13 * m
  {
  }

  lemma StepStaysClose(state: State, total: real, x: real, rnd: Rounding, exact: bool, p: real, w0: real, nv0: real,
      w: real, v: real, ua: real, nv: real)
    requires Close(state, total, exact, w0, nv0) && ErrorsWithin(StepErrors(state, x, rnd), p, w, v, ua)
    requires exact ==> StepErrors(state, x, rnd).e3 == 0.0
    requires w == w0 + ua && nv0 + v <= nv && 0.0 <= v <= 0.01 * w && ua <= w
    ensures Close(Add(state, x, rnd), total + x, exact, w, nv)
  {
    StepIdentity(state, x, rnd);
  }

  lemma StepErrorsOf(state: State, total: real, x: real, rnd: Rounding, scale: Scale, n: nat, m: real, exact: bool)
    requires RoundsWithin(rnd, scale) && IsScale(scale) && Abs(total) <= m
    requires SecondOrder(n, scale, m) <= 0.01 * m && Close(state, total, exact, scale(m), SecondOrder(n, scale, m))
    ensures var p := m + Abs(x);
            && ErrorsWithin(StepErrors(state, x, rnd), p, scale(p), scale(scale(p)), scale(Abs(x)))
            && scale(p) == scale(m) + scale(Abs(x)) && 0.0 <= scale(scale(p)) <= 0.01 * scale(p)
            && 0.0 <= scale(m) && 0.0 <= scale(Abs(x))
  {
    var p := m + Abs(x);
    assert Shrinks(scale, m) && Shrinks(scale, p) && Shrinks(scale, scale(p)) && Adds(scale, m, Abs(x));
    assert Shrinks(scale, Abs(x));
    SecondOrderMonotone(n, scale, m, m);
    CloseSize(state, total, exact, m, scale(m), SecondOrder(n, scale, m));
    StepErrorSizes(state, x, rnd, scale, p);
  }

  lemma StepKeepsClose(state: State, total: real, x: real, rnd: Rounding, scale: Scale, n: nat, m: real, exact: bool)
    requires RoundsWithin(rnd, scale) && IsScale(scale) && Abs(total) <= m
    requires SecondOrder(n, scale, m) <= 0.01 * m && Close(state, total, exact, scale(m), SecondOrder(n, scale, m))
    requires exact ==> StepErrors(state, x, rnd).e3 == 0.0
    ensures var p := m + Abs(x); Close(Add(state, x, rnd), total + x, exact, scale(p), SecondOrder(n + 1, scale, p))
  {
    var p := m + Abs(x);
    StepErrorsOf(state, total, x, rnd, scale, n, m, exact);
    SecondOrderMonotone(n, scale, m, p);
    StepStaysClose(state, total, x, rnd, exact, p, scale(m), SecondOrder(n, scale, m), scale(p), scale(scale(p)),
      scale(Abs(x)), SecondOrder(n + 1, scale, p));
  }

  /** Twice scaling and multiplying by the number of amounts still shrinks. */
  ghost predicate Few(n: nat, scale: Scale)
  {
    forall m :: FewAt(n, scale, m)
  }

  ghost predicate FewAt(n: nat, scale: Scale, m: real)
  {
    0.0 <= m ==> SecondOrder(n, scale, m) <= 0.01 * m
  }

  lemma Fewer(n: nat, scale: Scale)
    requires Few(n + 1, scale) && IsScale(scale)
    ensures Few(n, scale)
  {
    forall m ensures FewAt(n, scale, m) {
      assert FewAt(n + 1, scale, m) && Shrinks(scale, m) && Shrinks(scale, scale(m));
    }
  }

  lemma {:induction false} RunStaysClose(amounts: seq<real>, rnd: Rounding, scale: Scale, exact: bool)
    requires RoundsWithin(rnd, scale) && IsScale(scale) && Few(|amounts|, scale)
    requires exact ==> ExactDifferences(amounts, rnd)
    ensures var m := Magnitude(amounts);
            Close(Run(amounts, rnd), Total(amounts), exact, scale(m), SecondOrder(|amounts|, scale, m))
  {
    if amounts == [] {
      ScaleOfZero(scale);
    } else {
      var before, x := amounts[..|amounts| - 1], amounts[|amounts| - 1];
      assert |amounts| == |before| + 1;
      Fewer(|before|, scale);
      RunStaysClose(before, rnd, scale, exact);
      TotalWithinMagnitude(before);
      assert FewAt(|before|, scale, Magnitude(before));
      StepKeepsClose(Run(before, rnd), Total(before), x, rnd, scale, |before|, Magnitude(before), exact);
    }
  }

  // ----- the sum that is returned -------------------------------------------

  /** The last rounding of the sum adds one scaled magnitude to the error. */
  lemma ReturnedArgument(d: real, total: real, x: real, e1: real, exact: bool, p: real, w0: real, nv0: real, w: real,
      v: real, ua: real, nv: real)
    requires Abs(d - total) <= Lead(exact, w0) + 11.0 * nv0 && Abs(e1) <= ua + 3.0 * v && Abs(total + x) <= p
    requires w == w0 + ua && nv0 + v <= nv && 0.0 <= v && 0.0 <= ua && 0.0 <= w0 && 0.0 <= nv0
    ensures Abs(d + x + e1) <= p + (2.0 * w + 11.0 * nv)
    ensures Abs(d + x + e1 - (total + x)) <= Lead(exact, w) + 11.0 * nv
  {
  }

  lemma ReturnedScale(scale: Scale, p: real, w: real, v: real, nv: real)
    requires IsScale(scale) && w == scale(p) && v == scale(w) && 0.0 <= v <= nv
    ensures scale(p + (2.0 * w + 11.0 * nv)) <= w + 2.2 * nv
  {
    assert Adds(scale, p, 2.0 * w + 11.0 * nv) && Adds(scale, 2.0 * w, 11.0 * nv);
    assert Multiplies(scale, 2.0, w) && Multiplies(scale, 11.0, nv) && Shrinks(scale, nv);
  }

  lemma SumArgument(state: State, x: real, rnd: Rounding, scale: Scale, bound: real)
    requires RoundsWithin(rnd, scale) && IsScale(scale)
    requires Abs(state.sum - state.compensation + x + StepErrors(state, x, rnd).e1) <= bound
    ensures Abs(StepErrors(state, x, rnd).e2) <= scale(bound)
  {
    var y := rnd(x - state.compensation);
    assert state.sum + y == state.sum - state.compensation + x + StepErrors(state, x, rnd).e1;
    assert RoundsAt(rnd, scale, state.sum + y);
    Monotone(scale, Abs(state.sum + y), bound);
  }

  ghost predicate ReturnedWithin(sum: real, total: real, exact: bool, w: real, nv: real)
  {
    Abs(sum - total) <= Lead(exact, w) + w + 14.0 * nv
  }

  lemma ReturnedSum(sum: real, r: real, e2: real, total: real, exact: bool, w: real, nv: real)
    requires sum == r + e2 && Abs(r - total) <= Lead(exact, w) + 11.0 * nv && Abs(e2) <= w + 2.2 * nv && 0.0 <= nv
    ensures ReturnedWithin(sum, total, exact, w, nv)
  {
  }

  lemma ReturnedFrom(state: State, total: real, x: real, rnd: Rounding, scale: Scale, exact: bool, p: real, w0: real,
      nv0: real, w: real, v: real, ua: real, nv: real)
    requires RoundsWithin(rnd, scale) && IsScale(scale) && w == scale(p) && v == scale(w) && Abs(total + x) <= p
    requires Close(state, total, exact, w0, nv0) && Abs(StepErrors(state, x, rnd).e1) <= ua + 3.0 * v
    requires w == w0 + ua && nv0 + v <= nv && 0.0 <= v && 0.0 <= ua && 0.0 <= w0 && 0.0 <= nv0
    ensures ReturnedWithin(Add(state, x, rnd).sum, total + x, exact, w, nv)
  {
    var e := StepErrors(state, x, rnd);
    var r := state.sum - state.compensation + x + e.e1;
    ReturnedArgument(state.sum - state.compensation, total, x, e.e1, exact, p, w0, nv0, w, v, ua, nv);
    SumArgument(state, x, rnd, scale, p + (2.0 * w + 11.0 * nv));
    ReturnedScale(scale, p, w, v, nv);
    StepIdentity(state, x, rnd);
    ReturnedSum(Add(state, x, rnd).sum, r, e.e2, total + x, exact, w, nv);
  }

  lemma ReturnedStep(state: State, total: real, x: real, rnd: Rounding, scale: Scale, n: nat, m: real, exact: bool)
    requires RoundsWithin(rnd, scale) && IsScale(scale) && Abs(total) <= m
    requires SecondOrder(n, scale, m) <= 0.01 * m && Close(state, total, exact, scale(m), SecondOrder(n, scale, m))
    ensures var p := m + Abs(x);
            ReturnedWithin(Add(state, x, rnd).sum, total + x, exact, scale(p), SecondOrder(n + 1, scale, p))
  {
    var p := m + Abs(x);
    StepErrorsOf(state, total, x, rnd, scale, n, m, exact);
    SecondOrderMonotone(n, scale, m, p);
    ReturnedFrom(state, total, x, rnd, scale, exact, p, scale(m), SecondOrder(n, scale, m), scale(p), scale(scale(p)),
      scale(Abs(x)), SecondOrder(n + 1, scale, p));
  }

  /** What a step needs to know about the run before it. */
  ghost predicate Ready(state: State, total: real, scale: Scale, n: nat, m: real, exact: bool)
  {
    && Abs(total) <= m && SecondOrder(n, scale, m) <= 0.01 * m
    && Close(state, total, exact, scale(m), SecondOrder(n, scale, m))
  }

  lemma RunIsReady(before: seq<real>, rnd: Rounding, scale: Scale, exact: bool)
    requires RoundsWithin(rnd, scale) && IsScale(scale) && Few(|before| + 1, scale)
    requires exact ==> ExactDifferences(before, rnd)
    ensures Ready(Run(before, rnd), Total(before), scale, |before|, Magnitude(before), exact)
  {
    Fewer(|before|, scale);
    RunStaysClose(before, rnd, scale, exact);
    TotalWithinMagnitude(before);
    assert FewAt(|before|, scale, Magnitude(before));
  }

  lemma NothingToReturn(scale: Scale, exact: bool)
    requires IsScale(scale)
    ensures ReturnedWithin(0.0, 0.0, exact, scale(0.0), SecondOrder(0, scale, 0.0))
  {
    ScaleOfZero(scale);
  }

  lemma ReturnedError(amounts: seq<real>, rnd: Rounding, scale: Scale, exact: bool)
    requires RoundsWithin(rnd, scale) && IsScale(scale) && Few(|amounts|, scale)
    requires exact ==> ExactDifferences(amounts, rnd)
    ensures var m := Magnitude(amounts);
            ReturnedWithin(Run(amounts, rnd).sum, Total(amounts), exact, scale(m), SecondOrder(|amounts|, scale, m))
  {
    if amounts == [] {
      NothingToReturn(scale, exact);
    } else {
      var before := amounts[..|amounts| - 1];
      assert |amounts| == |before| + 1;
      RunIsReady(before, rnd, scale, exact);
      ReturnedLast(amounts, rnd, scale, exact);
    }
  }

  lemma ReturnedLast(amounts: seq<real>, rnd: Rounding, scale: Scale, exact: bool)
    requires RoundsWithin(rnd, scale) && IsScale(scale) && amounts != []
    requires var before := amounts[..|amounts| - 1];
             Ready(Run(before, rnd), Total(before), scale, |before|, Magnitude(before), exact)
    ensures var m := Magnitude(amounts);
            ReturnedWithin(Run(amounts, rnd).sum, Total(amounts), exact, scale(m), SecondOrder(|amounts|, scale, m))
  {
    var before, x := amounts[..|amounts| - 1], amounts[|amounts| - 1];
    Unfolded(amounts, rnd);
    ReturnedAfter(Run(before, rnd), Total(before), x, rnd, scale, |before|, Magnitude(before), exact,
      Run(amounts, rnd).sum, Total(amounts), |amounts|, Magnitude(amounts));
  }

  lemma ReturnedAfter(state: State, total: real, x: real, rnd: Rounding, scale: Scale, n: nat, m: real, exact: bool,
      newSum: real, newTotal: real, k: nat, p: real)
    requires RoundsWithin(rnd, scale) && IsScale(scale) && Ready(state, total, scale, n, m, exact)
    requires newSum == Add(state, x, rnd).sum && newTotal == total + x && k == n + 1 && p == m + Abs(x)
    ensures ReturnedWithin(newSum, newTotal, exact, scale(p), SecondOrder(k, scale, p))
  {
    ReturnedStep(state, total, x, rnd, scale, n, m, exact);
  }

  lemma Unfolded(amounts: seq<real>, rnd: Rounding)
    requires amounts != []
    ensures var (before, x) := (amounts[..|amounts| - 1], amounts[|amounts| - 1]);
            && Run(amounts, rnd) == Add(Run(before, rnd), x, rnd) && |amounts| == |before| + 1
            && Total(amounts) == Total(before) + x && Magnitude(amounts) == Magnitude(before) + Abs(x)
  {
  }

  // ----- the bounds in terms of `u` -----------------------------------------

  /** `u` is small, and so is the number of amounts: in double precision any list that fits in memory. */
  ghost predicate Small(u: real, n: nat)
  {
    0.0 <= u <= 0.01 && n as real * (u * u) <= 0.01
  }

  lemma Distributes(u: real, x: real, y: real)
    ensures u * (x + y) == u * x + u * y
  {
  }

  lemma Commutes(u: real, c: real, x: real)
    ensures u * (c * x) == c * (u * x)
  {
  }

  lemma Hundredth(u: real, x: real)
    requires 0.0 <= u <= 0.01 && 0.0 <= x
    ensures 0.0 <= u * x <= 0.01 * x
  {
  }

  lemma TimesAdds(u: real, x: real, y: real)
    ensures Adds(Times(u), x, y)
  {
    Distributes(u, x, y);
  }

  lemma TimesMultiplies(u: real, c: real, x: real)
    ensures Multiplies(Times(u), c, x)
  {
    Commutes(u, c, x);
  }

  lemma TimesShrinks(u: real, x: real)
    requires 0.0 <= u <= 0.01
    ensures Shrinks(Times(u), x)
  {
    if 0.0 <= x {
      Hundredth(u, x);
    }
  }

  lemma TimesIsScale(u: real)
    requires 0.0 <= u <= 0.01
    ensures IsScale(Times(u))
  {
    forall x, y ensures Adds(Times(u), x, y) {
      TimesAdds(u, x, y);
    }
    forall c, x ensures Multiplies(Times(u), c, x) {
      TimesMultiplies(u, c, x);
    }
    forall x ensures Shrinks(Times(u), x) {
      TimesShrinks(u, x);
    }
  }

  lemma Successor(n: nat, x: real)
    ensures (n + 1) as real * x == n as real * x + x
  {
  }

  lemma {:induction false} SecondOrderIs(n: nat, u: real, m: real)
    ensures SecondOrder(n, Times(u), m) == n as real * (u * (u * m))
  {
    if n > 0 {
      SecondOrderIs(n - 1, u, m);
      Successor(n - 1, u * (u * m));
    }
  }

  lemma Reassociate(n: real, u: real, m: real)
    ensures n * (u * (u * m)) == n * (u * u) * m
  {
    assert u * (u * m) == (u * u) * m;
  }

  lemma SmallIsFew(n: nat, u: real)
    requires Small(u, n)
    ensures Few(n, Times(u))
  {
    forall m ensures FewAt(n, Times(u), m) {
      SecondOrderIs(n, u, m);
      Reassociate(n as real, u, m);
      if 0.0 <= m {
        AtMostHundredth(n as real * (u * u), m);
      }
    }
  }

  lemma AtMostHundredth(q: real, m: real)
    requires q <= 0.01 && 0.0 <= m
    ensures q * m <= 0.01 * m
  {
  }

  lemma Factor(k: real, u: real, q: real, m: real)
    ensures (k * u + 14.0 * q) * m == k * (u * m) + 14.0 * (q * m)
  {
  }

  /** A bound with leading term `k * u` and `c` times the number of amounts in the term of second order. */
  function SumBound(k: real, c: real, u: real, n: nat, m: real): real
  {
    (k * u + c * (n as real * (u * u))) * m
  }

  lemma BoundInTermsOfU(sum: real, total: real, exact: bool, u: real, n: nat, m: real)
    requires ReturnedWithin(sum, total, exact, Times(u)(m), SecondOrder(n, Times(u), m))
    ensures Abs(sum - total) <= SumBound(if exact then 2.0 else 3.0, 14.0, u, n, m)
  {
    SecondOrderIs(n, u, m);
    Reassociate(n as real, u, m);
    Factor(if exact then 2.0 else 3.0, u, n as real * (u * u), m);
  }

  /**
   * The returned sum is off by at most three times `u` times the sum of the absolute values, and by twice when the
   * differences are exact; the number of amounts occurs only in the term of second order.
   */
  lemma SumError(amounts: seq<real>, rnd: Rounding, u: real)
    requires RoundsWithin(rnd, Times(u)) && Small(u, |amounts|)
    ensures Abs(Run(amounts, rnd).sum - Total(amounts)) <= SumBound(3.0, 14.0, u, |amounts|, Magnitude(amounts))
    ensures ExactDifferences(amounts, rnd) ==>
              Abs(Run(amounts, rnd).sum - Total(amounts)) <= SumBound(2.0, 14.0, u, |amounts|, Magnitude(amounts))
  {
    TimesIsScale(u);
    SmallIsFew(|amounts|, u);
    SumErrorCase(amounts, rnd, u, false);
    if ExactDifferences(amounts, rnd) {
      SumErrorCase(amounts, rnd, u, true);
    }
  }

  lemma SumErrorCase(amounts: seq<real>, rnd: Rounding, u: real, exact: bool)
    requires RoundsWithin(rnd, Times(u)) && IsScale(Times(u)) && Few(|amounts|, Times(u))
    requires exact ==> ExactDifferences(amounts, rnd)
    ensures Abs(Run(amounts, rnd).sum - Total(amounts))
              <= SumBound(if exact then 2.0 else 3.0, 14.0, u, |amounts|, Magnitude(amounts))
  {
    ReturnedError(amounts, rnd, Times(u), exact);
    BoundInTermsOfU(Run(amounts, rnd).sum, Total(amounts), exact, u, |amounts|, Magnitude(amounts));
  }
}
