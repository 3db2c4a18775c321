/** The "divide step" rule, which the source writes out three times (for
    gradient descent, for the step-adjustment strategies and for the damped
    Newton method): take the previous step, make it 256 times larger once
    every hundred iterations, then halve it until the trial point gives a
    strict descent or the step has dropped to `eps` or below.

    The three copies differ only in how the trial point is built from the
    step; here that is folded into `value`, the objective at the trial point
    as a function of the step. */
module DivideStep {
  import opened LinearAlgebra

  /** The step tried first: 256 times the previous one on iterations
      0, 100, 200, ..., the previous one otherwise (Python's `%` agrees with
      Dafny's for the positive divisor 100). */
  function Candidate(stepPrev: real, iterationNo: int): real {
    if iterationNo % 100 == 0 then stepPrev * 256.0 else stepPrev
  }

  /** Where the halving loop ends and how many halvings it performed. */
  datatype Halving = Halving(step: real, halvings: nat)

  /** The loop stops at a strict descent or at a step no larger than eps. */
  predicate Stops(value: real -> real, fx: real, step: real, eps: real) {
    value(step) < fx || step <= eps
  }

  /** An upper bound on the halvings still possible: the loop only goes on
      while step > eps, and step/eps at least halves with each pass. */
  function HalvingBudget(step: real, eps: real): nat
    requires eps > 0.0
  {
    if step > eps then ((step / eps).Floor) as nat else 0
  }

  lemma HalvingBudgetDecreases(step: real, eps: real)
    requires eps > 0.0 && step > eps
    ensures HalvingBudget(step / 2.0, eps) < HalvingBudget(step, eps)
  {
    var x := step / eps;
    assert x > 1.0;
    if step / 2.0 > eps {
      var y := (step / 2.0) / eps;
      assert y * eps == step / 2.0;
      assert x * eps == step;
      assert (2.0 * y) * eps == x * eps;
      assert x == 2.0 * y;
      assert y * eps > 1.0 * eps;
      assert y > 1.0;
      assert x.Floor >= 2 * y.Floor;
    }
  }

  /** The halving loop as a function of its start: the step it returns and
      how often it halved. */
  function Halve(value: real -> real, fx: real, step: real, eps: real): (r: Halving)
    requires eps > 0.0
    decreases HalvingBudget(step, eps)
    ensures r.step == Halved(step, r.halvings)
    ensures Stops(value, fx, r.step, eps)
    ensures r.halvings == 0 <==> Stops(value, fx, step, eps)
    ensures r.halvings > 0 ==> r.step > eps / 2.0
    ensures 0.0 <= step ==> 0.0 <= r.step <= step
  {
    if Stops(value, fx, step, eps) then
      Halving(step, 0)
    else
      HalvingBudgetDecreases(step, eps);
      var next := Halve(value, fx, step / 2.0, eps);
      Halving(next.step, next.halvings + 1)
  }

  /** The step returned is the FIRST halving of the start that stops the
      loop: every smaller number of halvings still gave no descent with a
      step above eps.  Together with the exit condition of `Halve` this
      determines the result. */
  lemma {:induction false} HalveIsFirstStop(value: real -> real, fx: real, step: real, eps: real)
    requires eps > 0.0
    decreases HalvingBudget(step, eps)
    ensures forall j :: 0 <= j < Halve(value, fx, step, eps).halvings ==>
      !Stops(value, fx, Halved(step, j), eps)
  {
    if !Stops(value, fx, step, eps) {
      HalvingBudgetDecreases(step, eps);
      HalveIsFirstStop(value, fx, step / 2.0, eps);
      forall j | 0 < j < Halve(value, fx, step, eps).halvings
        ensures !Stops(value, fx, Halved(step, j), eps)
      {
        assert Halved(step, j) == Halved(step / 2.0, j - 1);
      }
    }
  }

  /** The halving loop itself, shared by the three copies of the rule. */
  method HalveStep(value: real -> real, fx: real, start: real, eps: real) returns (step: real)
    requires eps > 0.0
    ensures step == Halve(value, fx, start, eps).step
  {
    step := start;
    while value(step) >= fx && step > eps
      invariant Halve(value, fx, step, eps).step == Halve(value, fx, start, eps).step
      decreases HalvingBudget(step, eps)
    {
      HalvingBudgetDecreases(step, eps);
      step := step / 2.0;
    }
  }
}
