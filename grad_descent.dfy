/** Gradient descent on a function of one real variable with the "divide
    step" step-size rule. The stop test `abs(x - x_new) < EPS` of the
    source only makes sense for a scalar x, so x is a `real` here. */
module GradDescent {
  import opened LinearAlgebra
  import opened Wrappers
  import opened DivideStep

  /** The margin of the halving loop and of the stop test (1e-7). */
  const EPS: real := 0.0000001

  /** The only step adjustment strategy the function knows by name. */
  const DIVIDE_STEP: string := "divide_step"

  datatype GradDescentException = GradDescentException(message: string)

  /** `mk_new_x_callback`: the gradient step of a given size from x. */
  function MkNewX(fGrad: real -> real, x: real): real -> real {
    step => x - step * fGrad(x)
  }

  /** f at the point a step of the given size leads to. */
  function Trial(f: real -> real, mkNewX: real -> real): real -> real {
    step => f(mkNewX(step))
  }

  /** The step `divide_step_strategy` settles on. */
  function RuleStep(f: real -> real, x: real, stepPrev: real, iterationNo: int, mkNewX: real -> real): real {
    Halve(Trial(f, mkNewX), f(x), Candidate(stepPrev, iterationNo), EPS).step
  }

  /** `divide_step_strategy(f, x, step_prev, iteration_no, mk_new_x_callback)`.
      The step is the candidate halved until f at the new point is strictly
      below f(x) or the step is at most EPS. */
  method DivideStepStrategy(f: real -> real, x: real, stepPrev: real, iterationNo: int, mkNewX: real -> real)
    returns (step: real)
    ensures step == RuleStep(f, x, stepPrev, iterationNo, mkNewX)
    ensures exists k: nat :: step == Halved(Candidate(stepPrev, iterationNo), k)
    ensures f(mkNewX(step)) < f(x) || step <= EPS
    ensures 0.0 <= stepPrev ==> 0.0 <= step <= Candidate(stepPrev, iterationNo)
  {
    var start := Candidate(stepPrev, iterationNo);
    var fx := f(x);
    step := HalveStep(Trial(f, mkNewX), fx, start, EPS);
    ghost var h := Halve(Trial(f, mkNewX), fx, start, EPS);
    assert step == Halved(start, h.halvings);
  }

  /** A step adjustment strategy as `grad_descent` calls it: from f, the
      current x, the previous step, the iteration number and the update
      callback, the step to take. */
  type StepRule = (real -> real, real, real, int, real -> real) -> real

  /** `divide_step_strategy` as a value, the one strategy known by name. */
  function DivideStepRule(): StepRule {
    (f: real -> real, x: real, stepPrev: real, iterationNo: int, mkNewX: real -> real) =>
      RuleStep(f, x, stepPrev, iterationNo, mkNewX)
  }

  /** Where the loop of `grad_descent` ends: the point it returns, the step
      of its last accepted update and the number of iterations it ran. */
  datatype Descent = Descent(x: real, stepPrev: real, iterations: nat)

  /** The update the loop computes at x: the strategy's step, taken along
      -f'(x) from the current x. */
  function Update(f: real -> real, fGrad: real -> real, rule: StepRule, x: real, stepPrev: real, iterationNo: int): real {
    MkNewX(fGrad, x)(rule(f, x, stepPrev, iterationNo, MkNewX(fGrad, x)))
  }

  /** The stop test: the update would move x by less than EPS. */
  predicate Settled(f: real -> real, fGrad: real -> real, rule: StepRule, x: real, stepPrev: real, iterationNo: int) {
    Abs(x - Update(f, fGrad, rule, x, stepPrev, iterationNo)) < EPS
  }

  /** The loop of `grad_descent` from iteration `iterationNo` on, at the
      point x with the previous step `stepPrev`. */
  function GradLoop(f: real -> real, fGrad: real -> real, rule: StepRule, x: real, stepPrev: real,
                    iterationNo: nat, maxIterationsCount: int): (r: Descent)
    decreases maxIterationsCount - iterationNo
    ensures iterationNo <= r.iterations
    ensures r.iterations == iterationNo || r.iterations <= maxIterationsCount
  {
    if iterationNo >= maxIterationsCount then
      Descent(x, stepPrev, iterationNo)
    else if Settled(f, fGrad, rule, x, stepPrev, iterationNo) then
      Descent(x, stepPrev, iterationNo + 1)
    else
      GradLoop(f, fGrad, rule, Update(f, fGrad, rule, x, stepPrev, iterationNo),
               rule(f, x, stepPrev, iterationNo, MkNewX(fGrad, x)), iterationNo + 1, maxIterationsCount)
  }

  /** A run that ends before the budget is used up ends at a point whose
      next update would move less than EPS; that point itself is returned,
      not the update. */
  lemma {:induction false} GradLoopStopsOnMargin(f: real -> real, fGrad: real -> real, rule: StepRule, x: real,
                                                 stepPrev: real, iterationNo: nat, maxIterationsCount: int)
    decreases maxIterationsCount - iterationNo
    ensures var r := GradLoop(f, fGrad, rule, x, stepPrev, iterationNo, maxIterationsCount);
      r.iterations < maxIterationsCount ==>
        r.iterations >= 1 && Settled(f, fGrad, rule, r.x, r.stepPrev, r.iterations - 1)
  {
    if iterationNo < maxIterationsCount && !Settled(f, fGrad, rule, x, stepPrev, iterationNo) {
      GradLoopStopsOnMargin(f, fGrad, rule, Update(f, fGrad, rule, x, stepPrev, iterationNo),
                            rule(f, x, stepPrev, iterationNo, MkNewX(fGrad, x)), iterationNo + 1, maxIterationsCount);
    }
  }

  /** The loop variables after an iteration that does not stop: the
      updated point and the step just taken. */
  function Next(f: real -> real, fGrad: real -> real, rule: StepRule, x: real, stepPrev: real, iterationNo: int): (real, real) {
    (Update(f, fGrad, rule, x, stepPrev, iterationNo), rule(f, x, stepPrev, iterationNo, MkNewX(fGrad, x)))
  }

  /** The pairs (x, step_prev) at the top of every iteration the loop runs
      from iteration `iterationNo` on. */
  function GradTrace(f: real -> real, fGrad: real -> real, rule: StepRule, x: real, stepPrev: real,
                     iterationNo: nat, maxIterationsCount: int): seq<(real, real)>
    decreases maxIterationsCount - iterationNo
  {
    if iterationNo >= maxIterationsCount then []
    else if Settled(f, fGrad, rule, x, stepPrev, iterationNo) then [(x, stepPrev)]
    else
      var (x', stepPrev') := Next(f, fGrad, rule, x, stepPrev, iterationNo);
      [(x, stepPrev)] + GradTrace(f, fGrad, rule, x', stepPrev', iterationNo + 1, maxIterationsCount)
  }

  /** Each pair of t before the last is not settled, and the pair after it
      is its update; t starts at iteration `iterationNo`. */
  predicate UnsettledSteps(f: real -> real, fGrad: real -> real, rule: StepRule, t: seq<(real, real)>, iterationNo: int) {
    forall j :: 0 <= j < |t| - 1 ==>
      !Settled(f, fGrad, rule, t[j].0, t[j].1, iterationNo + j) &&
      t[j + 1] == Next(f, fGrad, rule, t[j].0, t[j].1, iterationNo + j)
  }

  /** The loop runs one iteration per pair of the trace, which starts at
      the loop's first point. */
  lemma {:induction false} GradTraceLength(f: real -> real, fGrad: real -> real, rule: StepRule, x: real,
                                           stepPrev: real, iterationNo: nat, maxIterationsCount: int)
    decreases maxIterationsCount - iterationNo
    ensures var t := GradTrace(f, fGrad, rule, x, stepPrev, iterationNo, maxIterationsCount);
      var r := GradLoop(f, fGrad, rule, x, stepPrev, iterationNo, maxIterationsCount);
      |t| == r.iterations - iterationNo &&
      (t == [] ==> r == Descent(x, stepPrev, iterationNo)) &&
      (t != [] ==> t[0] == (x, stepPrev))
  {
    if iterationNo < maxIterationsCount && !Settled(f, fGrad, rule, x, stepPrev, iterationNo) {
      var (x', stepPrev') := Next(f, fGrad, rule, x, stepPrev, iterationNo);
      GradTraceLength(f, fGrad, rule, x', stepPrev', iterationNo + 1, maxIterationsCount);
    }
  }

  /** No pair before the last is settled: the loop does not pass over a
      point whose update moves less than EPS. */
  lemma {:induction false} GradLoopStopsAtFirstMargin(f: real -> real, fGrad: real -> real, rule: StepRule, x: real,
                                                      stepPrev: real, iterationNo: nat, maxIterationsCount: int)
    decreases maxIterationsCount - iterationNo
    ensures UnsettledSteps(f, fGrad, rule, GradTrace(f, fGrad, rule, x, stepPrev, iterationNo, maxIterationsCount), iterationNo)
  {
    if iterationNo < maxIterationsCount && !Settled(f, fGrad, rule, x, stepPrev, iterationNo) {
      var (x', stepPrev') := Next(f, fGrad, rule, x, stepPrev, iterationNo);
      GradLoopStopsAtFirstMargin(f, fGrad, rule, x', stepPrev', iterationNo + 1, maxIterationsCount);
      GradTraceLength(f, fGrad, rule, x', stepPrev', iterationNo + 1, maxIterationsCount);
      var t' := GradTrace(f, fGrad, rule, x', stepPrev', iterationNo + 1, maxIterationsCount);
      UnsettledCons(f, fGrad, rule, (x, stepPrev), t', iterationNo);
    }
  }

  /** Putting an unsettled pair in front of the trace of its update. */
  lemma UnsettledCons(f: real -> real, fGrad: real -> real, rule: StepRule, p: (real, real), t: seq<(real, real)>,
                      iterationNo: int)
    requires UnsettledSteps(f, fGrad, rule, t, iterationNo + 1)
    requires !Settled(f, fGrad, rule, p.0, p.1, iterationNo)
    requires t != [] ==> t[0] == Next(f, fGrad, rule, p.0, p.1, iterationNo)
    ensures UnsettledSteps(f, fGrad, rule, [p] + t, iterationNo)
  {
    var t2 := [p] + t;
    forall j | 1 <= j < |t2| - 1
      ensures !Settled(f, fGrad, rule, t2[j].0, t2[j].1, iterationNo + j) &&
        t2[j + 1] == Next(f, fGrad, rule, t2[j].0, t2[j].1, iterationNo + j)
    {
      assert t2[j] == t[j - 1] && t2[j + 1] == t[j];
      assert iterationNo + j == (iterationNo + 1) + (j - 1);
    }
  }

  /** Where the loop ends: at the last pair of the trace when that pair is
      settled, and otherwise, with the budget used up, at its update. */
  lemma {:induction false} GradTraceEnd(f: real -> real, fGrad: real -> real, rule: StepRule, x: real,
                                        stepPrev: real, iterationNo: nat, maxIterationsCount: int)
    decreases maxIterationsCount - iterationNo
    ensures var t := GradTrace(f, fGrad, rule, x, stepPrev, iterationNo, maxIterationsCount);
      var r := GradLoop(f, fGrad, rule, x, stepPrev, iterationNo, maxIterationsCount);
      t != [] ==>
        var last := iterationNo + |t| - 1;
        if Settled(f, fGrad, rule, t[|t| - 1].0, t[|t| - 1].1, last) then (r.x, r.stepPrev) == t[|t| - 1]
        else r.iterations == maxIterationsCount && (r.x, r.stepPrev) == Next(f, fGrad, rule, t[|t| - 1].0, t[|t| - 1].1, last)
  {
    if iterationNo < maxIterationsCount && !Settled(f, fGrad, rule, x, stepPrev, iterationNo) {
      var (x', stepPrev') := Next(f, fGrad, rule, x, stepPrev, iterationNo);
      GradTraceEnd(f, fGrad, rule, x', stepPrev', iterationNo + 1, maxIterationsCount);
      var t' := GradTrace(f, fGrad, rule, x', stepPrev', iterationNo + 1, maxIterationsCount);
      var t := GradTrace(f, fGrad, rule, x, stepPrev, iterationNo, maxIterationsCount);
      assert t == [(x, stepPrev)] + t';
      if t' != [] {
        assert t[|t| - 1] == t'[|t'| - 1];
        assert iterationNo + |t| - 1 == (iterationNo + 1) + |t'| - 1;
      }
    }
  }

  /** With the divide-step rule, every update lowers f unless the rule had
      to shrink the step to EPS or below. */
  lemma DivideStepUpdateDescends(f: real -> real, fGrad: real -> real, x: real, stepPrev: real, iterationNo: int)
    ensures var step := DivideStepRule()(f, x, stepPrev, iterationNo, MkNewX(fGrad, x));
      f(Update(f, fGrad, DivideStepRule(), x, stepPrev, iterationNo)) < f(x) || step <= EPS
  {
    var h := Halve(Trial(f, MkNewX(fGrad, x)), f(x), Candidate(stepPrev, iterationNo), EPS);
    assert Stops(Trial(f, MkNewX(fGrad, x)), f(x), h.step, EPS);
  }

  /** A starting point where the derivative vanishes is returned after the
      first iteration, whatever the strategy and the (positive) budget. */
  lemma StationaryStart(f: real -> real, fGrad: real -> real, rule: StepRule, x0: real, initialStep: real,
                        maxIterationsCount: int)
    requires fGrad(x0) == 0.0 && maxIterationsCount >= 1
    ensures GradLoop(f, fGrad, rule, x0, initialStep, 0, maxIterationsCount) == Descent(x0, initialStep, 1)
  {
    var step := rule(f, x0, initialStep, 0, MkNewX(fGrad, x0));
    assert MkNewX(fGrad, x0)(step) == x0 - step * 0.0;
  }

  /** `grad_descent(f, f_grad, x0, max_iterations_count,
      step_adjustment_strategy, initial_step)` with the source's defaults.
      An unknown strategy name is rejected before any iteration runs. */
  method GradDescent(f: real -> real, fGrad: real -> real, x0: real, maxIterationsCount: int := 1000,
                     stepAdjustmentStrategy: string := "divide_step", initialStep: real := 1.0)
    returns (r: Result<real, GradDescentException>)
    ensures stepAdjustmentStrategy != DIVIDE_STEP ==>
      r == Failure(GradDescentException("Unknown step adjustment strategy: " + stepAdjustmentStrategy))
    ensures stepAdjustmentStrategy == DIVIDE_STEP ==>
      r == Success(GradLoop(f, fGrad, DivideStepRule(), x0, initialStep, 0, maxIterationsCount).x)
    ensures maxIterationsCount <= 0 && stepAdjustmentStrategy == DIVIDE_STEP ==> r == Success(x0)
  {
    if stepAdjustmentStrategy != DIVIDE_STEP {
      return Failure(GradDescentException("Unknown step adjustment strategy: " + stepAdjustmentStrategy));
    }
    var x := x0;
    var stepPrev := initialStep;
    var iterationNo: nat := 0;
    while iterationNo < maxIterationsCount
      invariant GradLoop(f, fGrad, DivideStepRule(), x, stepPrev, iterationNo, maxIterationsCount)
        == GradLoop(f, fGrad, DivideStepRule(), x0, initialStep, 0, maxIterationsCount)
      decreases maxIterationsCount - iterationNo
    {
      var mkNewX := MkNewX(fGrad, x);
      var step := DivideStepStrategy(f, x, stepPrev, iterationNo, mkNewX);
      assert step == DivideStepRule()(f, x, stepPrev, iterationNo, mkNewX);
      var xNew := mkNewX(step);
      if Abs(x - xNew) < EPS {
        break;
      }
      stepPrev := step;
      x := xNew;
      iterationNo := iterationNo + 1;
    }
    return Success(x);
  }
}
