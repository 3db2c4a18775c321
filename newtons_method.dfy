/** The damped Newton method for f: R^n -> R. Each step evaluates the
    Hessian and gradient grids at the current point, asks a solver for the
    minimiser x̃ of the local quadratic model, damps the step along x̃ with
    the divide-step rule, and stops once f changes by less than eps. The
    solver for the quadratic model is taken as a parameter, and the
    iteration callback is recorded as a trace of (point, iteration number)
    pairs. */
module NewtonsMethod {
  import opened LinearAlgebra
  import opened Wrappers
  import opened DivideStep

  /** The margin used when none is given (1e-7). */
  const DEFAULT_EPS: real := 0.0000001

  /** f along the ray x + step·x̃, as a function of the step. */
  function Toward(f: Vector -> real, x: Vector, xWave: Vector): real -> real
    requires |xWave| == |x|
  {
    step => f(Add(x, Scale(step, xWave)))
  }

  /** The damped step `DivideStepStrategy.__call__` returns. */
  function DampedStep(f: Vector -> real, eps: real, x: Vector, xWave: Vector, stepPrev: real, iterationNo: int): real
    requires eps > 0.0 && |xWave| == |x|
  {
    Halve(Toward(f, x, xWave), f(x), Candidate(stepPrev, iterationNo), eps).step
  }

  datatype DivideStepStrategy = DivideStepStrategy(f: Vector -> real, eps: real)
  {
    /** `DivideStepStrategy.__call__(x, x_wave, step_prev, iteration_no)`:
        the candidate step halved until f(x + step·x̃) < f(x) or
        step <= eps. */
    method Call(x: Vector, xWave: Vector, stepPrev: real, iterationNo: int) returns (step: real)
      requires eps > 0.0 && |xWave| == |x|
      ensures step == DampedStep(f, eps, x, xWave, stepPrev, iterationNo)
      ensures exists k: nat :: step == Halved(Candidate(stepPrev, iterationNo), k)
      ensures f(Add(x, Scale(step, xWave))) < f(x) || step <= eps
      ensures 0.0 <= stepPrev ==> 0.0 <= step <= Candidate(stepPrev, iterationNo)
    {
      var start := Candidate(stepPrev, iterationNo);
      var fx := f(x);
      step := HalveStep(Toward(f, x, xWave), fx, start, eps);
      ghost var h := Halve(Toward(f, x, xWave), fx, start, eps);
      assert step == Halved(start, h.halvings);
    }
  }

  /** `DivideStepStrategy(f, eps)`: eps is 1e-7 unless given. */
  function NewDivideStepStrategy(f: Vector -> real, eps: Option<real> := None): (s: DivideStepStrategy)
    ensures eps.None? ==> s.eps == DEFAULT_EPS
    ensures eps.Some? ==> s.eps == eps.value
  {
    DivideStepStrategy(f, if eps.Some? then eps.value else DEFAULT_EPS)
  }

  // ---------------------------------------------------------------------
  // Evaluating the Hessian and gradient grids

  /** A grid of functions with rows of equal length, as numpy needs to give
      it a two-dimensional shape. */
  predicate Rectangular<T>(grid: seq<seq<T>>) {
    forall i :: 0 <= i < |grid| ==> |grid[i]| == |grid[0]|
  }

  function Width<T>(grid: seq<seq<T>>): nat {
    if |grid| == 0 then 0 else |grid[0]|
  }

  /** The Hessian grid evaluated at x, entry by entry. */
  function HessianAt(fH: seq<seq<Vector -> real>>, x: Vector): (r: Matrix)
    requires Rectangular(fH)
    ensures IsMatrix(r, |fH|, Width(fH))
    ensures forall i, j :: 0 <= i < |fH| && 0 <= j < Width(fH) ==> r[i][j] == fH[i][j](x)
  {
    seq(|fH|, i requires 0 <= i < |fH| => seq(Width(fH), j requires 0 <= j < Width(fH) => fH[i][j](x)))
  }

  /** The gradient components evaluated at x. */
  function GradientAt(fGrad: seq<Vector -> real>, x: Vector): (r: Vector)
    ensures |r| == |fGrad|
    ensures forall i :: 0 <= i < |fGrad| ==> r[i] == fGrad[i](x)
  {
    seq(|fGrad|, i requires 0 <= i < |fGrad| => fGrad[i](x))
  }

  /** `call_on_H(H, x)`: a zero matrix of the grid's shape, filled entry by
      entry with H[i][j](x). */
  method CallOnH(fH: seq<seq<Vector -> real>>, x: Vector) returns (res: Matrix)
    requires Rectangular(fH)
    ensures IsMatrix(res, |fH|, Width(fH))
    ensures forall i, j :: 0 <= i < |fH| && 0 <= j < Width(fH) ==> res[i][j] == fH[i][j](x)
    ensures res == HessianAt(fH, x)
  {
    var rows, cols := |fH|, Width(fH);
    var a := new real[rows, cols]((i, j) => 0.0);
    for i := 0 to rows
      invariant forall i', j' :: 0 <= i' < i && 0 <= j' < cols ==> a[i', j'] == fH[i'][j'](x)
    {
      for j := 0 to cols
        invariant forall i', j' :: 0 <= i' < i && 0 <= j' < cols ==> a[i', j'] == fH[i'][j'](x)
        invariant forall j' :: 0 <= j' < j ==> a[i, j'] == fH[i][j'](x)
      {
        a[i, j] := fH[i][j](x);
      }
    }
    res := Rows(a);
    assert forall i :: 0 <= i < rows ==> res[i] == HessianAt(fH, x)[i];
  }

  /** `call_on_grad(grad, x)`: a zero vector of the grid's length, filled
      with grad[i](x). */
  method CallOnGrad(fGrad: seq<Vector -> real>, x: Vector) returns (res: Vector)
    ensures |res| == |fGrad|
    ensures forall i :: 0 <= i < |fGrad| ==> res[i] == fGrad[i](x)
    ensures res == GradientAt(fGrad, x)
  {
    var a := new real[|fGrad|](i => 0.0);
    for i := 0 to |fGrad|
      invariant forall i' :: 0 <= i' < i ==> a[i'] == fGrad[i'](x)
    {
      a[i] := fGrad[i](x);
    }
    res := a[..];
  }

  // ---------------------------------------------------------------------
  // The outer loop

  /** A solver for the quadratic model: from the Hessian, the gradient and
      the start x0 it returns the direction x̃. */
  type QuadraticSolver = (Matrix, Vector, Vector) -> Vector

  /** The solver answers with a vector of the dimension of x0. */
  ghost predicate KeepsDimension(solver: QuadraticSolver, x0: Vector) {
    forall h: Matrix, g: Vector :: |solver(h, g, x0)| == |x0|
  }

  /** The loop variables at the top of iteration k. */
  datatype NewtonState = NewtonState(xPrev: Vector, fPrev: real, stepPrev: real)

  /** The point the loop returns and the (point, k) pairs it reports to
      the callback from iteration k on. */
  datatype NewtonRun = NewtonRun(x: Vector, trace: seq<(Vector, int)>)

  /** One pass of the loop body at iteration k: the solver's direction
      x̃ for the model at x_prev, the damped step along it, the new point
      x_k = x_prev + step·x̃ and f(x_k). */
  function NewtonStep(f: Vector -> real, fH: seq<seq<Vector -> real>>, fGrad: seq<Vector -> real>, x0: Vector,
                      solver: QuadraticSolver, strategy: DivideStepStrategy, s: NewtonState, k: nat): (t: NewtonState)
    requires strategy.eps > 0.0 && Rectangular(fH) && KeepsDimension(solver, x0) && |s.xPrev| == |x0|
    ensures |t.xPrev| == |x0|
  {
    var xWave := solver(HessianAt(fH, s.xPrev), GradientAt(fGrad, s.xPrev), x0);
    var step := DampedStep(strategy.f, strategy.eps, s.xPrev, xWave, s.stepPrev, k);
    var xk := Add(s.xPrev, Scale(step, xWave));
    NewtonState(xk, f(xk), step)
  }

  /** The loop `for k in range(k, max_iterations_count)` of
      `newtons_method` from the state s on. */
  function NewtonLoop(f: Vector -> real, fH: seq<seq<Vector -> real>>, fGrad: seq<Vector -> real>, x0: Vector,
                      solver: QuadraticSolver, strategy: DivideStepStrategy, s: NewtonState, k: nat,
                      maxIterationsCount: int): (r: NewtonRun)
    requires strategy.eps > 0.0 && Rectangular(fH) && KeepsDimension(solver, x0) && |s.xPrev| == |x0|
    decreases maxIterationsCount - k
  {
    if k >= maxIterationsCount then
      NewtonRun(s.xPrev, [])
    else
      var t := NewtonStep(f, fH, fGrad, x0, solver, strategy, s, k);
      if Abs(s.fPrev - t.fPrev) < strategy.eps then
        NewtonRun(t.xPrev, [(t.xPrev, k)])
      else
        var rest := NewtonLoop(f, fH, fGrad, x0, solver, strategy, t, k + 1, maxIterationsCount);
        NewtonRun(rest.x, [(t.xPrev, k)] + rest.trace)
  }

  /** The pairs reported from iteration k on are numbered k, k+1, ...
      without gaps, there is at most one per remaining iteration, and the
      point returned is the last one reported (or the current point when
      none is). */
  lemma {:induction false} NewtonLoopTrace(f: Vector -> real, fH: seq<seq<Vector -> real>>, fGrad: seq<Vector -> real>,
                                           x0: Vector, solver: QuadraticSolver, strategy: DivideStepStrategy,
                                           s: NewtonState, k: nat, maxIterationsCount: int)
    requires strategy.eps > 0.0 && Rectangular(fH) && KeepsDimension(solver, x0) && |s.xPrev| == |x0|
    decreases maxIterationsCount - k
    ensures var r := NewtonLoop(f, fH, fGrad, x0, solver, strategy, s, k, maxIterationsCount);
      (forall i :: 0 <= i < |r.trace| ==> r.trace[i].1 == k + i) &&
      (k >= maxIterationsCount ==> r.trace == []) &&
      (k < maxIterationsCount ==> 1 <= |r.trace| <= maxIterationsCount - k) &&
      (r.trace == [] ==> r.x == s.xPrev) &&
      (r.trace != [] ==> r.x == r.trace[|r.trace| - 1].0)
  {
    if k < maxIterationsCount {
      var t := NewtonStep(f, fH, fGrad, x0, solver, strategy, s, k);
      if Abs(s.fPrev - t.fPrev) >= strategy.eps {
        NewtonLoopTrace(f, fH, fGrad, x0, solver, strategy, t, k + 1, maxIterationsCount);
      }
    }
  }

  /** A trace of (point, iteration) pairs whose last pair comes before
      iteration maxIterationsCount - 1 ends on the margin: f at its last
      point is within eps of f at the point before it. */
  ghost predicate EndsOnMargin(f: Vector -> real, t: seq<(Vector, int)>, maxIterationsCount: int, eps: real) {
    |t| >= 1 && t[|t| - 1].1 < maxIterationsCount - 1 ==>
      |t| >= 2 && Abs(f(t[|t| - 2].0) - f(t[|t| - 1].0)) < eps
  }

  /** A run that reports its last point before the final iteration
      number stopped on the margin: f at that point is within eps of f at
      the point before it. */
  lemma {:induction false} NewtonLoopStopsOnMargin(f: Vector -> real, fH: seq<seq<Vector -> real>>,
                                                   fGrad: seq<Vector -> real>, x0: Vector, solver: QuadraticSolver,
                                                   s: NewtonState, k: nat, maxIterationsCount: int, eps: real)
    requires eps > 0.0 && Rectangular(fH) && KeepsDimension(solver, x0) && |s.xPrev| == |x0|
    requires s.fPrev == f(s.xPrev) && k >= 1
    decreases maxIterationsCount - k
    ensures EndsOnMargin(f, [(s.xPrev, k - 1)] + NewtonLoop(f, fH, fGrad, x0, solver, DivideStepStrategy(f, eps),
                                                            s, k, maxIterationsCount).trace, maxIterationsCount, eps)
  {
    var strategy := DivideStepStrategy(f, eps);
    var r := NewtonLoop(f, fH, fGrad, x0, solver, strategy, s, k, maxIterationsCount);
    var t := [(s.xPrev, k - 1)] + r.trace;
    if k >= maxIterationsCount {
      assert r.trace == [];
      assert t == [(s.xPrev, k - 1)];
    } else {
      var u := NewtonStep(f, fH, fGrad, x0, solver, strategy, s, k);
      if Abs(s.fPrev - u.fPrev) < eps {
        assert r.trace == [(u.xPrev, k)];
        assert t == [(s.xPrev, k - 1), (u.xPrev, k)];
      } else {
        NewtonLoopStopsOnMargin(f, fH, fGrad, x0, solver, u, k + 1, maxIterationsCount, eps);
        var rest := NewtonLoop(f, fH, fGrad, x0, solver, strategy, u, k + 1, maxIterationsCount);
        var t' := [(u.xPrev, k)] + rest.trace;
        assert r.trace == t';
        MarginCons(f, (s.xPrev, k - 1), t', maxIterationsCount, eps);
      }
    }
  }

  /** Putting a pair in front of a non-empty trace keeps how it ends. */
  lemma MarginCons(f: Vector -> real, p: (Vector, int), t: seq<(Vector, int)>, maxIterationsCount: int, eps: real)
    requires |t| >= 1 && EndsOnMargin(f, t, maxIterationsCount, eps)
    ensures EndsOnMargin(f, [p] + t, maxIterationsCount, eps)
  {
    var t2 := [p] + t;
    assert t2[|t2| - 1] == t[|t| - 1];
    if |t| >= 2 {
      assert t2[|t2| - 2] == t[|t| - 2];
    }
  }

  /** No two consecutive points of the trace before its last point are
      within eps of each other in f. */
  ghost predicate NoEarlierMargin(f: Vector -> real, t: seq<(Vector, int)>, eps: real) {
    forall i :: 1 <= i < |t| - 1 ==> Abs(f(t[i - 1].0) - f(t[i].0)) >= eps
  }

  /** The loop stops as soon as f changes by less than eps: no step before
      the last one reported met the margin. */
  lemma {:induction false} NewtonLoopStopsAtFirstMargin(f: Vector -> real, fH: seq<seq<Vector -> real>>,
                                                        fGrad: seq<Vector -> real>, x0: Vector, solver: QuadraticSolver,
                                                        s: NewtonState, k: nat, maxIterationsCount: int, eps: real)
    requires eps > 0.0 && Rectangular(fH) && KeepsDimension(solver, x0) && |s.xPrev| == |x0|
    requires s.fPrev == f(s.xPrev) && k >= 1
    decreases maxIterationsCount - k
    ensures NoEarlierMargin(f, [(s.xPrev, k - 1)] + NewtonLoop(f, fH, fGrad, x0, solver, DivideStepStrategy(f, eps),
                                                              s, k, maxIterationsCount).trace, eps)
  {
    var strategy := DivideStepStrategy(f, eps);
    var r := NewtonLoop(f, fH, fGrad, x0, solver, strategy, s, k, maxIterationsCount);
    var t := [(s.xPrev, k - 1)] + r.trace;
    if k >= maxIterationsCount {
      assert r.trace == [];
      assert t == [(s.xPrev, k - 1)];
    } else {
      var u := NewtonStep(f, fH, fGrad, x0, solver, strategy, s, k);
      if Abs(s.fPrev - u.fPrev) < eps {
        assert r.trace == [(u.xPrev, k)];
        assert t == [(s.xPrev, k - 1), (u.xPrev, k)];
      } else {
        NewtonLoopStopsAtFirstMargin(f, fH, fGrad, x0, solver, u, k + 1, maxIterationsCount, eps);
        var rest := NewtonLoop(f, fH, fGrad, x0, solver, strategy, u, k + 1, maxIterationsCount);
        var t' := [(u.xPrev, k)] + rest.trace;
        assert r.trace == t';
        NoMarginCons(f, (s.xPrev, k - 1), t', eps);
      }
    }
  }

  /** Putting a pair in front of a trace keeps the property when f at the
      new pair is at least eps away from f at the old first pair. */
  lemma NoMarginCons(f: Vector -> real, p: (Vector, int), t: seq<(Vector, int)>, eps: real)
    requires |t| >= 1 && NoEarlierMargin(f, t, eps) && Abs(f(p.0) - f(t[0].0)) >= eps
    ensures NoEarlierMargin(f, [p] + t, eps)
  {
    var t2 := [p] + t;
    forall i | 1 <= i < |t2| - 1 ensures Abs(f(t2[i - 1].0) - f(t2[i].0)) >= eps {
      if i > 1 {
        assert t2[i - 1] == t[i - 2] && t2[i] == t[i - 1];
      }
    }
  }

  /** The callback's calls over the whole run: first (x0, 0), then one
      call per Newton step numbered 1, 2, ... without gaps, at most
      max_iterations_count calls in all (one when the budget is 1 or less),
      and the point returned is the last one reported. */
  lemma NewtonRunTrace(f: Vector -> real, fH: seq<seq<Vector -> real>>, fGrad: seq<Vector -> real>, x0: Vector,
                       solver: QuadraticSolver, initialStep: real, eps: real, maxIterationsCount: int)
    requires eps > 0.0 && Rectangular(fH) && KeepsDimension(solver, x0)
    ensures var run := NewtonLoop(f, fH, fGrad, x0, solver, DivideStepStrategy(f, eps),
                                  NewtonState(x0, f(x0), initialStep), 1, maxIterationsCount);
      var t := [(x0, 0)] + run.trace;
      t[0] == (x0, 0) &&
      (forall i :: 0 <= i < |t| ==> t[i].1 == i) &&
      |t| <= (if maxIterationsCount <= 1 then 1 else maxIterationsCount) &&
      (maxIterationsCount <= 1 ==> run.x == x0) &&
      run.x == t[|t| - 1].0
  {
    var s0 := NewtonState(x0, f(x0), initialStep);
    NewtonLoopTrace(f, fH, fGrad, x0, solver, DivideStepStrategy(f, eps), s0, 1, maxIterationsCount);
    var run := NewtonLoop(f, fH, fGrad, x0, solver, DivideStepStrategy(f, eps), s0, 1, maxIterationsCount);
    var t := [(x0, 0)] + run.trace;
    forall i | 1 <= i < |t| ensures t[i].1 == i {
      assert t[i] == run.trace[i - 1];
    }
  }

  /** The body of the loop up to the stop test: evaluate the grids at
      x_prev, solve the model, damp the step and move. */
  method NewtonIteration(f: Vector -> real, fH: seq<seq<Vector -> real>>, fGrad: seq<Vector -> real>, x0: Vector,
                         solver: QuadraticSolver, strategy: DivideStepStrategy, xPrev: Vector, stepPrev: real, k: nat)
    returns (xk: Vector, fk: real, step: real)
    requires strategy.eps > 0.0 && Rectangular(fH) && KeepsDimension(solver, x0) && |xPrev| == |x0|
    ensures forall fPrev :: NewtonState(xk, fk, step) == NewtonStep(f, fH, fGrad, x0, solver, strategy, NewtonState(xPrev, fPrev, stepPrev), k)
  {
    var hx := CallOnH(fH, xPrev);
    var gx := CallOnGrad(fGrad, xPrev);
    var xWave := solver(hx, gx, x0);
    step := strategy.Call(xPrev, xWave, stepPrev, k);
    xk := Add(xPrev, Scale(step, xWave));
    fk := f(xk);
  }

  lemma ConcatAssociative<T>(a: seq<T>, b: seq<T>, c: seq<T>)
    ensures (a + b) + c == a + (b + c)
  {
  }

  /** `newtons_method(f, f_H, f_grad, x0, initial_step, eps,
      max_iterations_count)` with the source's defaults; the solver for the
      quadratic model is a parameter and `trace` lists the callback's calls
      in order. */
  method NewtonsMethodRun(f: Vector -> real, fH: seq<seq<Vector -> real>>, fGrad: seq<Vector -> real>, x0: Vector,
                          solver: QuadraticSolver, initialStep: real := 1.0, eps: real := DEFAULT_EPS,
                          maxIterationsCount: int := 1000)
    returns (x: Vector, ghost trace: seq<(Vector, int)>)
    requires eps > 0.0 && Rectangular(fH) && KeepsDimension(solver, x0)
    ensures var run := NewtonLoop(f, fH, fGrad, x0, solver, DivideStepStrategy(f, eps),
                                  NewtonState(x0, f(x0), initialStep), 1, maxIterationsCount);
      x == run.x && trace == [(x0, 0)] + run.trace
  {
    var strategy := NewDivideStepStrategy(f, Some(eps));
    var stepPrev := initialStep;
    var fPrev := f(x0);
    var xPrev := x0;
    trace := [(x0, 0)];
    ghost var whole := NewtonLoop(f, fH, fGrad, x0, solver, strategy, NewtonState(x0, fPrev, stepPrev), 1, maxIterationsCount);
    var k: nat := 1;
    while k < maxIterationsCount
      invariant |xPrev| == |x0|
      invariant var run := NewtonLoop(f, fH, fGrad, x0, solver, strategy, NewtonState(xPrev, fPrev, stepPrev), k, maxIterationsCount);
        run.x == whole.x && trace + run.trace == [(x0, 0)] + whole.trace
      decreases maxIterationsCount - k
    {
      ghost var before := trace;
      var xk, fk, step := NewtonIteration(f, fH, fGrad, x0, solver, strategy, xPrev, stepPrev, k);
      trace := trace + [(xk, k)];
      if Abs(fPrev - fk) < strategy.eps {
        return xk, trace;
      }
      ghost var rest := NewtonLoop(f, fH, fGrad, x0, solver, strategy, NewtonState(xk, fk, step), k + 1, maxIterationsCount);
      assert NewtonLoop(f, fH, fGrad, x0, solver, strategy, NewtonState(xPrev, fPrev, stepPrev), k, maxIterationsCount)
        == NewtonRun(rest.x, [(xk, k)] + rest.trace);
      ConcatAssociative(before, [(xk, k)], rest.trace);
      xPrev, fPrev, stepPrev := xk, fk, step;
      k := k + 1;
    }
    x := xPrev;
  }
}
