/** The conjugate direction method for the quadratic
    f(x) = ½(Qx, x) + (b, x) with Q positive definite: starting from x0 it
    walks along directions that are successively Q-conjugate, taking the
    exact minimising step along each, until a direction vanishes or the
    iteration budget is spent.

    Over exact reals the recurrences keep three facts: the vector w the loop
    carries is the residual -Qx - b at the current point, each new direction
    is Q-conjugate to the previous one, and each exact step leaves a
    residual orthogonal to the direction just used. A vanishing direction
    therefore means the residual is zero: the point returned solves Qx = -b. */
module ConjugateDirectionMethod {
  import opened LinearAlgebra

  /** `-Q @ x - b`: the negative gradient of f at x. */
  function Residual(q: Matrix, b: Vector, x: Vector): (r: Vector)
    requires IsMatrix(q, |b|, |x|)
    ensures |r| == |b|
  {
    Sub(Scale(-1.0, MatVec(q, x)), b)
  }

  /** What the method needs of its inputs: Q is positive definite (so every
      step's denominator (Qp, p) is positive) and b, x0 have its size. */
  ghost predicate Problem(q: Matrix, b: Vector, x0: Vector) {
    PositiveDefinite(q) && |b| == |q| && |x0| == |q|
  }

  /** The loop variables `x_prev`, `w_prev`, `p_prev`, `h_prev`. */
  datatype CgState = CgState(x: Vector, w: Vector, p: Vector, h: real)

  /** Every vector has dimension n and the direction is not zero. */
  predicate Shaped(s: CgState, n: nat) {
    |s.x| == n && |s.w| == n && |s.p| == n && !IsZero(s.p)
  }

  /** A stage of the method either returns a point or goes on from a state. */
  datatype Outcome = Return(x: Vector) | Continue(s: CgState)

  /** Everything before the loop: b = 0 returns b itself, a zero initial
      residual returns x0, otherwise the exact step along p1 = w1 gives x1. */
  function Start(q: Matrix, b: Vector, x0: Vector): (o: Outcome)
    requires Problem(q, b, x0)
    ensures IsZero(b) ==> o == Return(b)
    ensures !IsZero(b) && IsZero(Residual(q, b, x0)) ==> o == Return(x0)
    ensures o.Continue? ==> Shaped(o.s, |q|) && o.s.w == o.s.p == Residual(q, b, x0)
    ensures o.Continue? ==> o.s.x == Add(x0, Scale(o.s.h, o.s.p))
    ensures o.Continue? ==> Dot(Sub(o.s.w, Scale(o.s.h, MatVec(q, o.s.p))), o.s.p) == 0.0
  {
    if IsZero(b) then Return(b)
    else
      var w1 := Residual(q, b, x0);
      var p1 := w1;
      if IsZero(p1) then Return(x0)
      else
        var h1 := ExactStepSize(q, p1, p1);
        Continue(CgState(Add(x0, Scale(h1, p1)), w1, p1, h1))
  }

  /** `np.dot(w, p) / np.dot(Q @ p, p)`: the step along p that makes the
      new residual w - h·Qp orthogonal to p, i.e. the exact minimiser of f
      along p. Q positive definite makes the denominator positive. */
  function ExactStepSize(q: Matrix, w: Vector, p: Vector): (h: real)
    requires PositiveDefinite(q) && |w| == |p| == |q| && !IsZero(p)
    ensures Dot(Sub(w, Scale(h, MatVec(q, p))), p) == 0.0
  {
    QuotientTimes(Dot(w, p), Dot(MatVec(q, p), p));
    ExactStep(w, p, MatVec(q, p), Dot(w, p) / Dot(MatVec(q, p), p));
    Dot(w, p) / Dot(MatVec(q, p), p)
  }

  /** `wk = w_prev - h_prev * (Q @ p_prev)`. */
  function NextResidual(q: Matrix, s: CgState): (w: Vector)
    requires IsMatrix(q, |q|, |q|) && Shaped(s, |q|)
    ensures |w| == |q|
  {
    Sub(s.w, Scale(s.h, MatVec(q, s.p)))
  }

  /** `pk = wk - yk * p_prev`, with yk chosen so that pk is Q-conjugate to
      p_prev. */
  function NextDirection(q: Matrix, s: CgState): (p: Vector)
    requires PositiveDefinite(q) && Shaped(s, |q|)
    ensures |p| == |q|
  {
    var qp := MatVec(q, s.p);
    var wk := NextResidual(q, s);
    var yk := Dot(qp, wk) / Dot(qp, s.p);
    Sub(wk, Scale(yk, s.p))
  }

  /** One pass of the loop body: return `x_prev` when the new direction is
      zero, otherwise take the exact step along it. */
  function Iteration(q: Matrix, s: CgState): (o: Outcome)
    requires PositiveDefinite(q) && Shaped(s, |q|)
    ensures o.Return? <==> IsZero(NextDirection(q, s))
    ensures o.Return? ==> o.x == s.x
    ensures o.Continue? ==> Shaped(o.s, |q|) && o.s.w == NextResidual(q, s) && o.s.p == NextDirection(q, s)
    ensures o.Continue? ==> o.s.x == Add(s.x, Scale(o.s.h, o.s.p))
    ensures o.Continue? ==> Dot(NextResidual(q, o.s), o.s.p) == 0.0
  {
    var wk := NextResidual(q, s);
    var pk := NextDirection(q, s);
    if IsZero(pk) then Return(s.x)
    else
      var hk := ExactStepSize(q, wk, pk);
      Continue(CgState(Add(s.x, Scale(hk, pk)), wk, pk, hk))
  }

  /** How a run ends: the point returned, the loop passes it made, and
      whether it stopped on a vanishing b, residual or direction (rather
      than on the budget). */
  datatype Run = Run(x: Vector, iterations: nat, converged: bool)

  /** The loop from pass k on, for `range(iterations_num)`. */
  function Loop(q: Matrix, s: CgState, k: nat, iterationsNum: int): (r: Run)
    requires PositiveDefinite(q) && Shaped(s, |q|)
    decreases iterationsNum - k
    ensures |r.x| == |q| && k <= r.iterations
    ensures r.converged ==> r.iterations <= iterationsNum
    ensures !r.converged ==> r.iterations == if k < iterationsNum then iterationsNum else k
  {
    if k >= iterationsNum then Run(s.x, k, false)
    else
      match Iteration(q, s)
      case Return(x) => Run(x, k + 1, true)
      case Continue(t) => Loop(q, t, k + 1, iterationsNum)
  }

  /** `conjugate_direction_method(Q, b, x0, iterations_num)`. */
  function ConjugateDirection(q: Matrix, b: Vector, x0: Vector, iterationsNum: int): (r: Run)
    requires Problem(q, b, x0)
    ensures |r.x| == |q|
    ensures IsZero(b) ==> r == Run(b, 0, true)
    ensures !IsZero(b) && IsZero(Residual(q, b, x0)) ==> r == Run(x0, 0, true)
    ensures r.iterations <= if iterationsNum < 0 then 0 else iterationsNum
    ensures !r.converged ==> r.iterations == if iterationsNum < 0 then 0 else iterationsNum
  {
    match Start(q, b, x0)
    case Return(x) => Run(x, 0, true)
    case Continue(s) => Loop(q, s, 0, iterationsNum)
  }

  // ---------------------------------------------------------------------
  // The invariant of the loop

  /** The w the next pass computes is the residual at the current point,
      and the exact step has left that residual orthogonal to p. */
  ghost predicate Invariant(q: Matrix, b: Vector, s: CgState) {
    PositiveDefinite(q) && |b| == |q| && Shaped(s, |q|)
    && NextResidual(q, s) == Residual(q, b, s.x)
    && Dot(NextResidual(q, s), s.p) == 0.0
  }

  /** Moving x by h·p moves the residual by -h·Qp. */
  lemma ResidualStep(q: Matrix, b: Vector, x: Vector, h: real, p: Vector)
    requires IsMatrix(q, |b|, |x|) && |p| == |x|
    ensures Residual(q, b, Add(x, Scale(h, p))) == Sub(Residual(q, b, x), Scale(h, MatVec(q, p)))
  {
    MatVecAffine(q, x, h, p);
    var qx := MatVec(q, x);
    var qp := MatVec(q, p);
    forall i | 0 <= i < |b|
      ensures Residual(q, b, Add(x, Scale(h, p)))[i] == Sub(Residual(q, b, x), Scale(h, qp))[i]
    {
      assert MatVec(q, Add(x, Scale(h, p)))[i] == qx[i] + h * qp[i];
    }
  }

  /** The exact step h, with h·(Qp, p) = (w, p), leaves w - h·Qp
      orthogonal to p (stated for any vector qp in the place of Qp). */
  lemma ExactStep(w: Vector, p: Vector, qp: Vector, h: real)
    requires |w| == |p| == |qp|
    requires h * Dot(qp, p) == Dot(w, p)
    ensures Dot(Sub(w, Scale(h, qp)), p) == 0.0
  {
    StepProjection(w, p, qp, h);
  }

  /** (w - h·qp, p) = (w, p) - h·(qp, p). */
  lemma {:induction false} StepProjection(w: Vector, p: Vector, qp: Vector, h: real)
    requires |w| == |p| == |qp|
    ensures Dot(Sub(w, Scale(h, qp)), p) == Dot(w, p) - h * Dot(qp, p)
  {
    if |w| > 0 {
      assert Sub(w, Scale(h, qp))[1..] == Sub(w[1..], Scale(h, qp[1..])) by {
        forall i | 0 <= i < |w| - 1
          ensures Sub(w, Scale(h, qp))[1..][i] == Sub(w[1..], Scale(h, qp[1..]))[i] { }
      }
      StepProjection(w[1..], p[1..], qp[1..], h);
      assert (w[0] - h * qp[0]) * p[0] == w[0] * p[0] - h * (qp[0] * p[0]);
    }
  }

  lemma QuotientTimes(a: real, c: real)
    requires c != 0.0
    ensures (a / c) * c == a
  {
  }

  lemma StartInvariant(q: Matrix, b: Vector, x0: Vector)
    requires Problem(q, b, x0) && Start(q, b, x0).Continue?
    ensures Invariant(q, b, Start(q, b, x0).s)
  {
    var s := Start(q, b, x0).s;
    ResidualStep(q, b, x0, s.h, s.p);
  }

  lemma IterationInvariant(q: Matrix, b: Vector, s: CgState)
    requires Invariant(q, b, s) && Iteration(q, s).Continue?
    ensures Invariant(q, b, Iteration(q, s).s)
  {
    var t := Iteration(q, s).s;
    ResidualStep(q, b, s.x, t.h, t.p);
  }

  /** Conjugacy: the new direction is Q-conjugate to the previous one,
      (Q·p_prev, pk) = 0. */
  lemma {:induction false} DirectionsConjugate(q: Matrix, s: CgState)
    requires PositiveDefinite(q) && Shaped(s, |q|)
    ensures Dot(MatVec(q, s.p), NextDirection(q, s)) == 0.0
  {
    var qp := MatVec(q, s.p);
    var wk := NextResidual(q, s);
    DotComm(qp, s.p);
    ConjugateCorrection(qp, wk, s.p);
  }

  /** Subtracting from w the multiple of p fixed by (u, w)/(u, p) leaves a
      vector orthogonal to u. */
  lemma ConjugateCorrection(u: Vector, w: Vector, p: Vector)
    requires |u| == |w| == |p| && Dot(u, p) != 0.0
    ensures Dot(u, Sub(w, Scale(Dot(u, w) / Dot(u, p), p))) == 0.0
  {
    var y := Dot(u, w) / Dot(u, p);
    QuotientTimes(Dot(u, w), Dot(u, p));
    DotSubRight(u, w, Scale(y, p));
    DotScaleRight(u, y, p);
  }

  /** A vanishing direction means a vanishing residual: pk = 0 forces
      wk = yk·p_prev, and wk ⟂ p_prev with p_prev ≠ 0 forces yk = 0. */
  lemma ZeroDirection(q: Matrix, b: Vector, s: CgState)
    requires Invariant(q, b, s) && IsZero(NextDirection(q, s))
    ensures IsZero(Residual(q, b, s.x))
  {
    var qp := MatVec(q, s.p);
    var wk := NextResidual(q, s);
    var yk := Dot(qp, wk) / Dot(qp, s.p);
    assert Sub(wk, Scale(yk, s.p)) == NextDirection(q, s);
    assert wk == Scale(yk, s.p) by {
      forall i | 0 <= i < |wk| ensures wk[i] == Scale(yk, s.p)[i] {
        assert Sub(wk, Scale(yk, s.p))[i] == 0.0;
      }
    }
    DotComm(wk, s.p);
    DotScaleRight(s.p, yk, s.p);
    DotSelfNonNegative(s.p);
    ZeroFactor(yk, Dot(s.p, s.p));
    assert forall i | 0 <= i < |wk| :: wk[i] == 0.0 * s.p[i];
  }

  lemma ZeroFactor(y: real, d: real)
    requires d > 0.0 && y * d == 0.0
    ensures y == 0.0
  {
    if y > 0.0 {
      ProductPlus(y, d, 0.0);
    } else if y < 0.0 {
      ProductPlus(-y, d, 0.0);
    }
  }

  /** Once the residual the next pass computes is zero, that pass returns
      the current point: yk = 0 and so pk = wk = 0. */
  lemma ZeroResidualStops(q: Matrix, s: CgState)
    requires PositiveDefinite(q) && Shaped(s, |q|) && IsZero(NextResidual(q, s))
    ensures Iteration(q, s) == Return(s.x)
  {
    var qp := MatVec(q, s.p);
    var wk := NextResidual(q, s);
    DotZeroRight(qp, wk);
    var yk := Dot(qp, wk) / Dot(qp, s.p);
    assert yk == 0.0;
    assert forall i | 0 <= i < |wk| :: NextDirection(q, s)[i] == wk[i] - 0.0 * s.p[i];
  }

  /** A loop that stops on a vanishing direction returns a solution. */
  lemma {:induction false} LoopConvergedSolves(q: Matrix, b: Vector, s: CgState, k: nat, iterationsNum: int)
    requires Invariant(q, b, s)
    decreases iterationsNum - k
    ensures var r := Loop(q, s, k, iterationsNum); r.converged ==> IsZero(Residual(q, b, r.x))
  {
    if k < iterationsNum {
      match Iteration(q, s)
      case Return(x) =>
        ZeroDirection(q, b, s);
      case Continue(t) =>
        IterationInvariant(q, b, s);
        LoopConvergedSolves(q, b, t, k + 1, iterationsNum);
    }
  }

  /** Whenever the method stops before its budget decides (on b = 0, on a
      zero initial residual or on a zero direction), the point it returns
      solves Qx = -b, i.e. it is the minimiser of f. */
  lemma ConvergedSolves(q: Matrix, b: Vector, x0: Vector, iterationsNum: int)
    requires Problem(q, b, x0)
    ensures var r := ConjugateDirection(q, b, x0, iterationsNum);
      r.converged ==> IsZero(Residual(q, b, r.x))
  {
    match Start(q, b, x0)
    case Return(x) =>
      if IsZero(b) {
        forall i | 0 <= i < |q| ensures MatVec(q, b)[i] == 0.0 {
          DotZeroRight(q[i], b);
        }
      }
    case Continue(s) =>
      StartInvariant(q, b, x0);
      LoopConvergedSolves(q, b, s, 0, iterationsNum);
  }

  /** `conjugate_direction_method` as the source runs it. */
  method ConjugateDirectionMethod(q: Matrix, b: Vector, x0: Vector, iterationsNum: int := 1000)
    returns (x: Vector)
    requires Problem(q, b, x0)
    ensures x == ConjugateDirection(q, b, x0, iterationsNum).x
  {
    if IsZero(b) {
      return b;
    }
    var w1 := Residual(q, b, x0);
    var p1 := w1;
    if IsZero(p1) {
      return x0;
    }
    var h1 := Dot(p1, p1) / Dot(MatVec(q, p1), p1);
    assert h1 == ExactStepSize(q, p1, p1);
    var x1 := Add(x0, Scale(h1, p1));
    var xPrev, wPrev, pPrev, hPrev := x1, w1, p1, h1;
    var k: nat := 0;
    while k < iterationsNum
      invariant Shaped(CgState(xPrev, wPrev, pPrev, hPrev), |q|)
      invariant Loop(q, CgState(xPrev, wPrev, pPrev, hPrev), k, iterationsNum)
        == ConjugateDirection(q, b, x0, iterationsNum)
      decreases iterationsNum - k
    {
      ghost var s := CgState(xPrev, wPrev, pPrev, hPrev);
      var wk := Sub(wPrev, Scale(hPrev, MatVec(q, pPrev)));
      var yk := Dot(MatVec(q, pPrev), wk) / Dot(MatVec(q, pPrev), pPrev);
      var pk := Sub(wk, Scale(yk, pPrev));
      assert pk == NextDirection(q, s);
      if IsZero(pk) {
        return xPrev;
      }
      var hk := Dot(wk, pk) / Dot(MatVec(q, pk), pk);
      assert hk == ExactStepSize(q, wk, pk);
      var xk := Add(xPrev, Scale(hk, pk));
      pPrev, wPrev, xPrev, hPrev := pk, wk, xk, hk;
      k := k + 1;
    }
    return xPrev;
  }
}
