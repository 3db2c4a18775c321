/** Step-size strategies for gradient methods on f: R^n -> R. Every
    strategy keeps f, its gradient and a margin eps (1e-7 unless given).
    The divide-step strategy halves a candidate step; the one-dimensional
    strategies minimise g(step) = f(x - step·∇f(x)) over [0, max_step] with
    dichotomy, golden section or Fibonacci search. The source's strategy
    objects never change after construction, so they are datatypes here. */
module StepAdjustmentStrategy {
  import opened LinearAlgebra
  import opened Wrappers
  import opened DivideStep
  import opened OneDimensionalMethods

  /** The margin used when none is given (1e-7). */
  const DEFAULT_EPS: real := 0.0000001

  /** The iteration budget of the one-dimensional searches when none is
      given. */
  const DEFAULT_MAX_STEPS: int := 10

  /** The eps a strategy keeps: the one given, or DEFAULT_EPS. */
  function EpsOrDefault(eps: Option<real>): (r: real)
    ensures eps.None? ==> r == DEFAULT_EPS
    ensures eps.Some? ==> r == eps.value
  {
    if eps.Some? then eps.value else DEFAULT_EPS
  }

  /** f along the ray from x against the direction d, as a function of the
      step: step ↦ f(x - step·d). */
  function Along(f: Vector -> real, x: Vector, d: Vector): real -> real
    requires |d| == |x|
  {
    step => f(Sub(x, Scale(step, d)))
  }

  // ---------------------------------------------------------------------
  // DivideStepStrategy

  datatype DivideStepStrategy = DivideStepStrategy(f: Vector -> real, fGrad: Vector -> Vector, eps: real)
  {
    /** `DivideStepStrategy.__call__(x, step_prev, iteration_no)`: the
        candidate step halved until f(x - step·∇f(x)) < f(x) or step <= eps. */
    method Call(x: Vector, stepPrev: real, iterationNo: int) returns (step: real)
      requires eps > 0.0 && |fGrad(x)| == |x|
      ensures step == Halve(Along(f, x, fGrad(x)), f(x), Candidate(stepPrev, iterationNo), eps).step
      ensures exists k: nat :: step == Halved(Candidate(stepPrev, iterationNo), k)
      ensures f(Sub(x, Scale(step, fGrad(x)))) < f(x) || step <= eps
      ensures 0.0 <= stepPrev ==> 0.0 <= step <= Candidate(stepPrev, iterationNo)
    {
      var start := Candidate(stepPrev, iterationNo);
      var fx := f(x);
      step := HalveStep(Along(f, x, fGrad(x)), fx, start, eps);
      ghost var h := Halve(Along(f, x, fGrad(x)), fx, start, eps);
      assert step == Halved(start, h.halvings);
    }
  }

  /** `DivideStepStrategy(f, f_grad, eps)`. */
  function NewDivideStepStrategy(f: Vector -> real, fGrad: Vector -> Vector, eps: Option<real> := None)
    : (s: DivideStepStrategy)
    ensures s.eps == EpsOrDefault(eps)
  {
    DivideStepStrategy(f, fGrad, EpsOrDefault(eps))
  }

  // ---------------------------------------------------------------------
  // One-dimensional strategies

  /** The search a one-dimensional strategy delegates to. Golden section
      carries the golden ratio it uses; Fibonacci search carries the table
      built when the strategy was made. */
  datatype OneDimMethod =
    | DichotomySearch
    | GoldenSectionSearch(phi: real)
    | FibonacciSearch(fibo: seq<nat>)

  datatype OneDimOptimizationStrategy = OneDimOptimizationStrategy(
    f: Vector -> real, fGrad: Vector -> Vector, optMethod: OneDimMethod,
    maxStep: real, maxSteps: int, eps: real)
  {
    /** What the delegated search needs: the golden ratio, or a Fibonacci
        table of length max_steps + 1 with max_steps >= 1. */
    predicate Valid() {
      match optMethod
      case DichotomySearch => true
      case GoldenSectionSearch(phi) => IsGoldenRatio(phi)
      case FibonacciSearch(fibo) => maxSteps >= 1 && |fibo| == maxSteps + 1 && IsFibonacciTable(fibo)
    }

    /** The step the strategy picks at x: the midpoint of the bracket its
        search ends on, for g(step) = f(x - step·∇f(x)) started on
        [0, max_step]. It depends on x alone. */
    function StepAt(x: Vector): real
      requires Valid() && |fGrad(x)| == |x|
    {
      var g := Along(f, x, fGrad(x));
      match optMethod
      case DichotomySearch =>
        var last := DichotomyLoop(g, eps, Bracket(0.0, maxStep), 0, maxSteps).0;
        Midpoint(last.a, last.b)
      case GoldenSectionSearch(phi) =>
        var last := GoldenLoop(g, phi, eps, GoldenStart(g, phi, 0.0, maxStep), maxSteps);
        Midpoint(last.a, last.b)
      case FibonacciSearch(fibo) =>
        FibonacciTableShape(fibo);
        var n := FibonacciN(eps, 0.0, maxStep, fibo, maxSteps);
        var last := FibonacciLoop(g, fibo, n, FibonacciStart(g, fibo, n, 0.0, maxStep));
        var br := FibonacciFinish(g, last);
        Midpoint(br.a, br.b)
    }

    /** With max_step >= 0 the step is never negative. Dichotomy and golden
        section also keep it at most max_step, since their final bracket
        lies inside [0, max_step]; dichotomy needs every step to see a
        bracket at least 2·SIGMA wide, which eps >= SIGMA or a starting
        bracket that wide gives. Fibonacci search can end beyond max_step. */
    lemma StepWithinBracket(x: Vector)
      requires Valid() && |fGrad(x)| == |x| && maxStep >= 0.0
      requires optMethod.DichotomySearch? ==> eps >= SIGMA || maxStep >= 2.0 * SIGMA
      ensures 0.0 <= StepAt(x)
      ensures !optMethod.FibonacciSearch? ==> StepAt(x) <= maxStep
    {
      var g := Along(f, x, fGrad(x));
      match optMethod
      case DichotomySearch =>
        DichotomyLoopNested(g, eps, Bracket(0.0, maxStep), 0, maxSteps);
      case GoldenSectionSearch(phi) =>
        GoldenLoopNested(g, phi, eps, GoldenStart(g, phi, 0.0, maxStep), maxSteps);
      case FibonacciSearch(fibo) =>
        FibonacciTableShape(fibo);
        var n := FibonacciN(eps, 0.0, maxStep, fibo, maxSteps);
        FibonacciResultAtLeast(g, fibo, n, 0.0, maxStep);
    }

    /** `OneDimOptimizationStrategy.__call__(x, step_prev, iteration_no)`:
        the previous step and the iteration number play no part. */
    method Call(x: Vector, stepPrev: Option<real> := None, iterationNo: Option<int> := None) returns (step: real)
      requires Valid() && |fGrad(x)| == |x|
      ensures step == StepAt(x)
      ensures maxStep >= 0.0 && (optMethod.DichotomySearch? ==> eps >= SIGMA || maxStep >= 2.0 * SIGMA) ==>
        0.0 <= step && (!optMethod.FibonacciSearch? ==> step <= maxStep)
    {
      var g := Along(f, x, fGrad(x));
      match optMethod {
        case DichotomySearch =>
          var r, calls := Dichotomy(eps, 0.0, maxStep, g, maxSteps);
          step := r.x;
        case GoldenSectionSearch(phi) =>
          var r, calls := GoldenSection(eps, 0.0, maxStep, g, maxSteps, phi);
          step := r.x;
        case FibonacciSearch(fibo) =>
          FibonacciTableShape(fibo);
          var r, calls := FibonacciMethod(eps, 0.0, maxStep, g, maxSteps, fibo);
          step := r.x;
      }
      if maxStep >= 0.0 && (optMethod.DichotomySearch? ==> eps >= SIGMA || maxStep >= 2.0 * SIGMA) {
        StepWithinBracket(x);
      }
    }
  }

  /** The budget a one-dimensional strategy keeps: the one given, or
      DEFAULT_MAX_STEPS. */
  function MaxStepsOrDefault(maxSteps: Option<int>): (r: int)
    ensures maxSteps.None? ==> r == DEFAULT_MAX_STEPS
    ensures maxSteps.Some? ==> r == maxSteps.value
  {
    if maxSteps.Some? then maxSteps.value else DEFAULT_MAX_STEPS
  }

  /** `DichotomyStrategy(f, f_grad, max_step, max_steps, eps)`. */
  function NewDichotomyStrategy(f: Vector -> real, fGrad: Vector -> Vector, maxStep: real,
                                maxSteps: Option<int> := None, eps: Option<real> := None)
    : (s: OneDimOptimizationStrategy)
    ensures s.Valid() && s.optMethod == DichotomySearch
    ensures s.maxSteps == MaxStepsOrDefault(maxSteps) && s.eps == EpsOrDefault(eps) && s.maxStep == maxStep
  {
    OneDimOptimizationStrategy(f, fGrad, DichotomySearch, maxStep, MaxStepsOrDefault(maxSteps), EpsOrDefault(eps))
  }

  /** `GoldenSectionStrategy(f, f_grad, max_step, max_steps, eps)`, with
      the golden ratio `phi` made explicit. */
  function NewGoldenSectionStrategy(f: Vector -> real, fGrad: Vector -> Vector, phi: real, maxStep: real,
                                    maxSteps: Option<int> := None, eps: Option<real> := None)
    : (s: OneDimOptimizationStrategy)
    requires IsGoldenRatio(phi)
    ensures s.Valid() && s.optMethod == GoldenSectionSearch(phi)
    ensures s.maxSteps == MaxStepsOrDefault(maxSteps) && s.eps == EpsOrDefault(eps) && s.maxStep == maxStep
  {
    OneDimOptimizationStrategy(f, fGrad, GoldenSectionSearch(phi), maxStep, MaxStepsOrDefault(maxSteps), EpsOrDefault(eps))
  }

  /** `FibonacciStrategy(f, f_grad, max_step, max_steps, eps)`. The table of
      length max_steps + 1 is filled once, in place, here; the source hands
      the raw `max_steps` to the table builder, so it must be given. */
  method NewFibonacciStrategy(f: Vector -> real, fGrad: Vector -> Vector, maxStep: real,
                              maxSteps: Option<int> := None, eps: Option<real> := None)
    returns (s: OneDimOptimizationStrategy)
    requires maxSteps.Some? && maxSteps.value >= 1
    ensures s.Valid() && s.optMethod.FibonacciSearch?
    ensures |s.optMethod.fibo| == maxSteps.value + 1 && IsFibonacciTable(s.optMethod.fibo)
    ensures s.maxSteps == maxSteps.value && s.eps == EpsOrDefault(eps) && s.maxStep == maxStep
  {
    var steps := MaxStepsOrDefault(maxSteps);
    var fibo := new nat[steps + 1](i => 0);
    fibo[0] := 1;
    fibo[1] := 1;
    ghost var before := fibo[..];
    var top := ComputeFibonacci(maxSteps.value, fibo);
    FilledTableIsFibonacci(before, fibo[..]);
    s := OneDimOptimizationStrategy(f, fGrad, FibonacciSearch(fibo[..]), maxStep, steps, EpsOrDefault(eps));
  }
}
