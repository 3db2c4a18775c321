# methopt in Dafny

A Dafny model of the optimisation methods of `methopt`, with proofs about them.
Each part below maps to one source module.

- **One-dimensional searches** (`one_dimensional_methods.py`).
  - Covers dichotomy, golden section and Fibonacci search on a bracket [a, b].
  - Includes the Fibonacci table (`compute_fibonacci`, `pre_calc_for_fibonacci_method`) and the binary search `find_n`.
- **Step-adjustment strategies** (`step_adjustment_strategy.py`).
  - The divide-step rule, and the three strategies that minimise g(step) = f(x − step·∇f(x)) with one of the searches above.
  - All copies of the divide-step rule share one halving loop (module `DivideStep`).
  - The source has three such copies: in the strategy class, in `grad_descent.py` and in `newtons_method.py`.
- **Gradient descent** (`grad_descent.py`): the strategy dispatch, the descent loop and its stopping rule.
- **Conjugate-direction method** (`conjugate_direction_method.py`).
  - Minimises the quadratic ½(Qx, x) + (b, x) with Q positive definite.
  - The model proves that the method returns an exact solution of Qx = −b whenever it stops early, and that each direction is Q-conjugate to the one before it. Convergence within n = |Q| passes is not proved.
  - Module `ConjugateDirectionExamples` adds the exact runs of two of its test cases.
- **Damped Newton method** (`newtons_method.py`).
  - Evaluates the Hessian and gradient grids, runs its own divide-step strategy, and runs the outer loop.
  - The calls to the iteration callback are kept as a trace.
- **Quadratic functions from a Hessian** (`quadratic_assignment.py`): `fn_from_hessian` and `grad_from_hessian`.
- **Simplex method** (`linprog/internal.py`).
  - The tableau is an `array2<real>` changed in place by Gauss–Jordan pivots.
  - Pivots follow Bland's rule (as the source writes it), inside the phase-1 auxiliary program and inside `solve_canonical`.
  - The tableau is proved to represent the program: the constraint rows keep the solution set of Ax = b, and at every solution the objective row reads −cᵀx.
  - From that, the model proves three results. A final tableau bounds cᵀz over every z ≥ 0 with Az = b. `UnboundFunction` comes with a ray along which the objective grows without bound. A negative phase-1 optimum means that Ax = b has no solution x ≥ 0.
- **Trajectory callback** (`utils.py`): a class whose list grows by one (point, value) pair per call.

The model uses exact reals throughout. A loop that the source writes as `while True` is given a fuel bound. Operations that change state are methods, each proved equal to a specification function of the inputs. The properties are proved as lemmas about those functions.

Where the code and its documentation disagree, the model follows the code:

- The leaving-row key at `linprog/internal.py:43` divides `Q[0][s]`, the objective entry, and not the right-hand side `Q[i][0]`. The model keeps this key. `Linprog.KeyIgnoresRightHandSide` shows a tableau where it makes a right-hand side negative.
- `solve_aux_program` negates a row with b_i < 0 across the whole of [A | I] (`linprog/internal.py:80-83`), so the identity entry of that row becomes −1. The elimination at line 33 divides by that −1 and brings the right-hand side back to b_i < 0, so phase 1 can start from a point that is not feasible. `Linprog.NegatedRowPassesPhase1` shows a program with no solution x ≥ 0 that passes phase 1 anyway, with optimum 0.
- So the model claims that the simplex result solves Ax = b and that no feasible point has a larger objective, but not that the result is itself ≥ 0. NoSolution implies that no x ≥ 0 solves Ax = b, but the converse does not hold.
- `grad_descent` compares `abs(x - x_new) < EPS` as a scalar. The model therefore runs it over scalars.

## Model

| member | source | states |
|---|---|---|
| OneDimensionalMethods.DichotomyStep | src/methopt/one_dimensional_methods.py:16-24 | one dichotomy iteration keeps one end of the bracket and makes the width (b − a)/2 + σ |
| OneDimensionalMethods.DichotomyLoop | src/methopt/one_dimensional_methods.py:15-25 | the loop ends only once \|b − a\| <= 2·eps or the iteration budget is spent, and never runs past max_steps |
| OneDimensionalMethods.DichotomyStepNested | src/methopt/one_dimensional_methods.py:16-24 | while the bracket is at least 2σ wide, the new bracket lies inside the old one |
| OneDimensionalMethods.DichotomyLoopNested | src/methopt/one_dimensional_methods.py:15-25 | the final bracket lies inside the starting one when eps >= σ or the start is at least 2σ wide |
| OneDimensionalMethods.DichotomyWidth | src/methopt/one_dimensional_methods.py:15-25 | after k iterations the excess width b − a − 2σ has been halved exactly k times |
| OneDimensionalMethods.DichotomyWidthClosedForm | src/methopt/one_dimensional_methods.py:12-29 | excess width at the end × 2^k equals b0 − a0 − 2σ |
| OneDimensionalMethods.Dichotomy | src/methopt/one_dimensional_methods.py:12-29 | returns the midpoint of the final bracket and the iteration count; calls = 2·iterations, which is the number of f evaluations |
| OneDimensionalMethods.ValuesFromValidCache | src/methopt/one_dimensional_methods.py:45-50 | reusing the cached value gives exactly f(x1) and f(x2) |
| OneDimensionalMethods.GoldenStep | src/methopt/one_dimensional_methods.py:44-65 | an iteration stops the loop exactly when f1 = f2; otherwise it narrows and counts one iteration |
| OneDimensionalMethods.GoldenLoop | src/methopt/one_dimensional_methods.py:43-65 | the iteration count never exceeds max_steps (unless the loop does not run) |
| OneDimensionalMethods.GoldenStart | src/methopt/one_dimensional_methods.py:38-42 | the set-up caches f(x1) and starts the counter at 0 |
| OneDimensionalMethods.GoldenIdentity | src/methopt/one_dimensional_methods.py:1 | for the golden ratio, w − w/φ = w/φ² |
| OneDimensionalMethods.GoldenStepInvariant | src/methopt/one_dimensional_methods.py:52-63 | a narrowing iteration keeps the cache valid and the interior points at the golden ratio, and divides the width by φ |
| OneDimensionalMethods.GoldenLoopInvariant | src/methopt/one_dimensional_methods.py:43-65 | the whole loop keeps the cache valid and the points golden |
| OneDimensionalMethods.ShrinkByRatio | src/methopt/one_dimensional_methods.py:38-39 | a width divided by φ > 1 stays between 0 and the width, so the golden interior points lie inside the bracket |
| OneDimensionalMethods.GoldenLoopNested | src/methopt/one_dimensional_methods.py:43-65 | the final bracket lies inside the starting one |
| OneDimensionalMethods.GoldenTieStops | src/methopt/one_dimensional_methods.py:64-65 | a tie f(x1) = f(x2) ends the loop with the counter already increased and the bracket unchanged |
| OneDimensionalMethods.GoldenSection | src/methopt/one_dimensional_methods.py:37-68 | returns the midpoint of the final bracket; calls = iterations + 1, which is the number of f evaluations |
| OneDimensionalMethods.FibonacciTableEntries | src/methopt/one_dimensional_methods.py:127-143 | entry i of a table with t[0] = t[1] = 1 built by the recurrence is the i-th Fibonacci number |
| OneDimensionalMethods.FibonacciTableShape | src/methopt/one_dimensional_methods.py:127-143 | such a table is positive and non-decreasing |
| OneDimensionalMethods.ComputeFibonacci | src/methopt/one_dimensional_methods.py:127-133 | returns fib[n] > 0; entries already computed are kept; every entry it fills is the sum of the two before it; on a blank table it fills 0..n |
| OneDimensionalMethods.PreCalcForFibonacciMethod | src/methopt/one_dimensional_methods.py:136-143 | the table has min(max_steps, 52) + 1 entries and is the Fibonacci table |
| OneDimensionalMethods.FindNSearch | src/methopt/one_dimensional_methods.py:71-80 | the binary search returns a value in (left, right] |
| OneDimensionalMethods.FindNSearchBoundary | src/methopt/one_dimensional_methods.py:74-79 | the value returned fits (2·len < eps·fib[n]) or is `right`, and the one below it does not fit or is `left` |
| OneDimensionalMethods.FindNIsLeast | src/methopt/one_dimensional_methods.py:71-80 | on a non-decreasing table, find_n returns the least n >= 1 with 2·\|b − a\| < eps·fib[n], or max_steps when none fits |
| OneDimensionalMethods.FindN | src/methopt/one_dimensional_methods.py:71-80 | the loop computes that search and 1 <= n <= max_steps |
| OneDimensionalMethods.PyIndex | src/methopt/one_dimensional_methods.py:93 | a negative index counts from the end of the list, as Python reads `fibonacci[n - 2]` for n = 1 |
| OneDimensionalMethods.FibonacciStart | src/methopt/one_dimensional_methods.py:92-96 | the set-up caches f(x1) and starts the counter at 1 |
| OneDimensionalMethods.FibonacciStep | src/methopt/one_dimensional_methods.py:98-116 | an iteration counts one and keeps the cached value equal to f at its point |
| OneDimensionalMethods.FibonacciLoop | src/methopt/one_dimensional_methods.py:97-116 | the loop ends with the counter at n − 2 (or where it started) and a valid cache |
| OneDimensionalMethods.FibonacciFinish | src/methopt/one_dimensional_methods.py:118-121 | the final comparison keeps a and moves b at most to x1 + σ |
| OneDimensionalMethods.RatioUnit | src/methopt/one_dimensional_methods.py:104-115 | a ratio fib[i]/fib[j] of a smaller entry to a larger one lies in [0, 1] |
| OneDimensionalMethods.BetweenAtLeast | src/methopt/one_dimensional_methods.py:104-115 | a point placed a fraction in [0, 1] of the way between two points right of lo is right of lo |
| OneDimensionalMethods.FibonacciStartAtLeast | src/methopt/one_dimensional_methods.py:92-96 | for a <= b the set-up places both interior points at or right of a |
| OneDimensionalMethods.FibonacciStepAtLeast | src/methopt/one_dimensional_methods.py:98-116 | an iteration keeps both ends and both interior points at or right of any bound they were at or right of |
| OneDimensionalMethods.FibonacciLoopAtLeast | src/methopt/one_dimensional_methods.py:97-116 | so does the whole loop |
| OneDimensionalMethods.FibonacciResultAtLeast | src/methopt/one_dimensional_methods.py:87-124 | for a <= b the point Fibonacci search reports is at or right of a |
| OneDimensionalMethods.FibonacciNarrowing | src/methopt/one_dimensional_methods.py:97-116 | the loop computes FibonacciLoop with one f call per iteration |
| OneDimensionalMethods.FibonacciMethod | src/methopt/one_dimensional_methods.py:87-124 | 1 <= n <= min(max_steps, 52); returns the midpoint of the final bracket; iterations = max(1, n − 2); calls = iterations + 1; f is evaluated iterations + 2 times |
| DivideStep.Halve | src/methopt/step_adjustment_strategy.py:41-53 | the step is the candidate halved k times; it stops (f lower or step <= eps); k = 0 exactly when the candidate already stops; a halved step stays above eps/2; 0 <= step <= candidate |
| DivideStep.HalveIsFirstStop | src/methopt/step_adjustment_strategy.py:49-51 | no earlier halving stopped: the step is the first that does |
| DivideStep.HalveStep | src/methopt/step_adjustment_strategy.py:47-53 | the while loop computes that step |
| StepAdjustmentStrategy.EpsOrDefault | src/methopt/step_adjustment_strategy.py:20-21 | eps is the one given, or 1e-7 |
| StepAdjustmentStrategy.NewDivideStepStrategy | src/methopt/step_adjustment_strategy.py:7-25 | the strategy keeps the eps given, or 1e-7 |
| StepAdjustmentStrategy.DivideStepStrategy.Call | src/methopt/step_adjustment_strategy.py:41-53 | the candidate (step_prev·256 on iterations divisible by 100) halved until f(x − step·∇f(x)) < f(x) or step <= eps |
| StepAdjustmentStrategy.OneDimOptimizationStrategy.Call | src/methopt/step_adjustment_strategy.py:72-75 | the step is the result of the delegated search on g over [0, max_step] and depends on x alone; for max_step >= 0 it is >= 0, and for dichotomy and golden section it is <= max_step |
| StepAdjustmentStrategy.OneDimOptimizationStrategy.StepWithinBracket | src/methopt/step_adjustment_strategy.py:72-75 | for max_step >= 0 the step is >= 0; dichotomy (with eps >= σ or max_step >= 2σ) and golden section keep it <= max_step |
| StepAdjustmentStrategy.MaxStepsOrDefault | src/methopt/step_adjustment_strategy.py:65-66 | the budget is the one given, or 10 |
| StepAdjustmentStrategy.NewDichotomyStrategy | src/methopt/step_adjustment_strategy.py:78-87 | a valid strategy delegating to dichotomy with the given or default budget and eps |
| StepAdjustmentStrategy.NewGoldenSectionStrategy | src/methopt/step_adjustment_strategy.py:90-99 | a valid strategy delegating to golden section |
| StepAdjustmentStrategy.NewFibonacciStrategy | src/methopt/step_adjustment_strategy.py:102-118 | a valid strategy delegating to Fibonacci search with a Fibonacci table of length max_steps + 1 |
| GradDescent.DivideStepStrategy | src/methopt/grad_descent.py:4-27 | the candidate halved until f(mk_new_x(step)) < f(x) or step <= EPS, 0 <= step <= candidate |
| GradDescent.GradLoop | src/methopt/grad_descent.py:68-83 | the descent loop runs at most max_iterations_count iterations |
| GradDescent.GradLoopStopsOnMargin | src/methopt/grad_descent.py:79-80 | a run that stops before its budget stopped because \|x − x_new\| < EPS at its last point |
| GradDescent.GradTraceLength | src/methopt/grad_descent.py:68-83 | the trace of the loop has one pair (x, step_prev) per iteration run, starting at the loop's first point |
| GradDescent.GradLoopStopsAtFirstMargin | src/methopt/grad_descent.py:68-83 | at every pair before the last, \|x − x_new\| >= EPS and the next pair is its update: the loop stops as soon as the margin holds |
| GradDescent.GradTraceEnd | src/methopt/grad_descent.py:79-85 | the loop returns the last pair of the trace when its update is within EPS, and otherwise, with the budget used up, the update of that pair |
| GradDescent.DivideStepUpdateDescends | src/methopt/grad_descent.py:23-27 | each update under the divide-step rule lowers f, or uses a step <= EPS |
| GradDescent.StationaryStart | src/methopt/grad_descent.py:67-83 | from a point where the gradient is 0 the loop stops after one iteration at x0 |
| GradDescent.GradDescent | src/methopt/grad_descent.py:30-85 | an unknown strategy name raises GradDescentException with the source's message; otherwise returns the loop's point (x0 when the budget is <= 0) |
| Utils.TrajectoryIterationCallback.constructor | src/methopt/utils.py:2-4 | a new callback has an empty trajectory |
| Utils.TrajectoryIterationCallback.Call | src/methopt/utils.py:6-7 | each call appends (x, f(x)) and keeps everything recorded before |
| NewtonsMethod.NewDivideStepStrategy | src/methopt/newtons_method.py:7-13 | the strategy keeps the eps given, or 1e-7 |
| NewtonsMethod.DivideStepStrategy.Call | src/methopt/newtons_method.py:15-27 | the candidate halved until f(x + step·x̃) < f(x) or step <= eps, 0 <= step <= candidate |
| NewtonsMethod.HessianAt | src/methopt/newtons_method.py:40-45 | entry (i, j) is H[i][j](x) |
| NewtonsMethod.GradientAt | src/methopt/newtons_method.py:47-51 | entry i is grad[i](x) |
| NewtonsMethod.CallOnH | src/methopt/newtons_method.py:40-45 | the nested loop fills every entry (i, j) with H[i][j](x) |
| NewtonsMethod.CallOnGrad | src/methopt/newtons_method.py:47-51 | the loop fills every entry i with grad[i](x) |
| NewtonsMethod.NewtonLoopTrace | src/methopt/newtons_method.py:61-78 | the callback sees iterations k, k+1, … without gaps, at most one per remaining iteration, and the point returned is the last one reported |
| NewtonsMethod.NewtonLoopStopsOnMargin | src/methopt/newtons_method.py:73-75 | a run whose last report comes before the last iteration stopped on \|f(x_prev) − f(x_k)\| < eps |
| NewtonsMethod.NewtonLoopStopsAtFirstMargin | src/methopt/newtons_method.py:61-78 | no two consecutive points before the last one reported differ in f by less than eps: the loop stops as soon as the margin holds |
| NewtonsMethod.NewtonRunTrace | src/methopt/newtons_method.py:56-79 | the callback first sees (x0, 0), then steps numbered 1, 2, … without gaps; at most max(1, max_iterations_count) calls; the point returned is the last reported |
| NewtonsMethod.NewtonIteration | src/methopt/newtons_method.py:66-73 | one loop body computes the next point, f there and the step |
| NewtonsMethod.NewtonsMethodRun | src/methopt/newtons_method.py:30-79 | the method returns the loop's point, and the callback sees (x0, 0) followed by the loop's trace |
| NewtonsMethodExamples.TestObjectiveAtStart | tests/newtons_method_test.py:68-69 | the test's f is 3000 at x0 = [3, 3] |
| NewtonsMethodExamples.FirstRecordedPoint | tests/newtons_method_test.py:60-86 | the run from [3, 3] reports x0 first, and a trajectory callback records ([3, 3], 3000) as its first entry |
| ConjugateDirectionMethod.Start | src/methopt/conjugate_direction_method.py:12-19 | b = 0 returns b; a zero initial residual returns x0; otherwise the first direction is the residual, and the exact step leaves the new residual orthogonal to it |
| ConjugateDirectionMethod.ExactStepSize | src/methopt/conjugate_direction_method.py:32-33 | h makes w − h·Qp orthogonal to p |
| ConjugateDirectionMethod.Iteration | src/methopt/conjugate_direction_method.py:26-34 | returns x_prev exactly when the new direction is zero; otherwise steps along it, leaving the residual orthogonal to it |
| ConjugateDirectionMethod.Loop | src/methopt/conjugate_direction_method.py:25-40 | a run that stops early used at most iterations_num passes, and one that does not used all of them |
| ConjugateDirectionMethod.ConjugateDirection | src/methopt/conjugate_direction_method.py:4-40 | the early returns for b = 0 and a zero residual, and the bound on the passes |
| ConjugateDirectionMethod.ResidualStep | src/methopt/conjugate_direction_method.py:26 | moving x by h·p moves the residual −Qx − b by −h·Qp, so the w the loop carries is the residual |
| ConjugateDirectionMethod.StartInvariant | src/methopt/conjugate_direction_method.py:14-19 | after the set-up, the carried w is the residual at x and is orthogonal to p |
| ConjugateDirectionMethod.IterationInvariant | src/methopt/conjugate_direction_method.py:26-34 | each pass keeps that invariant |
| ConjugateDirectionMethod.DirectionsConjugate | src/methopt/conjugate_direction_method.py:27-29 | each new direction is Q-conjugate to the previous one |
| ConjugateDirectionMethod.ZeroDirection | src/methopt/conjugate_direction_method.py:29-31 | a zero direction means a zero residual |
| ConjugateDirectionMethod.ZeroResidualStops | src/methopt/conjugate_direction_method.py:26-31 | a zero residual makes the next pass return |
| ConjugateDirectionMethod.LoopConvergedSolves | src/methopt/conjugate_direction_method.py:25-40 | a loop that stops on a zero direction returns a point with zero residual |
| ConjugateDirectionMethod.ConvergedSolves | src/methopt/conjugate_direction_method.py:4-40 | every early return is an exact solution of Qx = −b |
| ConjugateDirectionMethod.ConjugateDirectionMethod | src/methopt/conjugate_direction_method.py:4-40 | the loop computes the point of that run |
| ConjugateDirectionExamples.OneDimensionalExample | tests/conjugate_direction_methon_test.py:32-39 | Q = [[20]], b = [−100], x0 = [0] stops after one pass at exactly [5] |
| ConjugateDirectionExamples.PositiveDefiniteTwoByTwo | tests/conjugate_direction_methon_test.py:81-84 | [[2, 4], [4, 10]] is positive definite |
| ConjugateDirectionExamples.TwoDimensionalExample | tests/conjugate_direction_methon_test.py:81-89 | Q = [[2, 4], [4, 10]], b = [1, 0], x0 = [10, 10] stops after two passes at exactly [−2.5, 1] |
| QuadraticAssignment.QuadraticFunction.Call | src/methopt/quadratic_assignment.py:33-38 | the double loop sums H[i][j]·x[i]·x[j] over i <= j < n |
| QuadraticAssignment.FnFromHessian | src/methopt/quadratic_assignment.py:32-40 | the function built keeps the Hessian and n |
| QuadraticAssignment.GradFromHessian | src/methopt/quadratic_assignment.py:43-51 | n components, the i-th bound to row i |
| QuadraticAssignment.UpperTriangleOnly | src/methopt/quadratic_assignment.py:35-37 | fn reads only the upper triangle of H |
| QuadraticAssignment.UpperPerturbed | src/methopt/quadratic_assignment.py:33-38 | how fn changes when x moves by t along e_k, row by row |
| QuadraticAssignment.GradSplit | src/methopt/quadratic_assignment.py:46-47 | for symmetric H, grad[k] is column k above the diagonal + 2·H[k][k]·x[k] + row k right of it |
| QuadraticAssignment.GradientOfQuadraticForm | src/methopt/quadratic_assignment.py:32-51 | for symmetric H, fn(x + t·e_k) − fn(x) = t·grad[k](x) + t²·H[k][k], so grad is the exact gradient of fn |
| QuadraticAssignment.FnOnUnit | src/methopt/quadratic_assignment.py:32-40 | fn(e_k) = H[k][k] |
| QuadraticAssignment.GradOnUnit | src/methopt/quadratic_assignment.py:46-47 | grad[k](e_k) = 2·H[k][k] |
| QuadraticAssignment.TestFnValues | tests/quadratic_assignment_test.py:46-58 | the values of fn at [1, 1, 0] and [1, 6, 1] for the test Hessian |
| QuadraticAssignment.TestGradValue | tests/quadratic_assignment_test.py:61-72 | grad[0]([5, 666, 0]) = 2·10·5 + 12·666 for the test Hessian |
| Linprog.InitialTableau | src/methopt/linprog/internal.py:27-32 | row 0 is [0, −c], row i + 1 is [b_i, A_i] |
| Linprog.InitialTableauSystem | src/methopt/linprog/internal.py:27-32 | the constraint rows of the initial tableau have exactly the solutions of Az = b |
| Linprog.BuildTableau | src/methopt/linprog/internal.py:27-32 | the new array holds that tableau |
| Linprog.InitialObjective | src/methopt/linprog/internal.py:27-32 | the objective row [0, −c] has the residual −cᵀz at every z |
| Linprog.PivotObjective | src/methopt/linprog/internal.py:47-50 | at a solution of the constraint rows, a pivot on a constraint row keeps the objective row's residual |
| Linprog.EliminateObjective | src/methopt/linprog/internal.py:109-115 | so does elimination, pivot after pivot |
| Linprog.PivotMakesUnit | src/methopt/linprog/internal.py:47-50 | after the pivot on (r, s), column s is the unit vector e_r |
| Linprog.PivotKeepsUnit | src/methopt/linprog/internal.py:47-50 | a unit column of another row stays a unit column |
| Linprog.PivotKeepsBasis | src/methopt/linprog/internal.py:47-52 | the pivot with `basis[r - 1] = s` keeps every basis column the unit vector of its row |
| Linprog.EvalPivot | src/methopt/linprog/internal.py:47-50 | each row's residual at z after the pivot, in terms of the residuals before it |
| Linprog.PivotSystem | src/methopt/linprog/internal.py:47-50 | a pivot on a constraint row keeps the solution set of the constraint rows |
| Linprog.DivideRow | src/methopt/linprog/internal.py:47 | row r is divided by the pivot and no other entry changes |
| Linprog.SubtractRow | src/methopt/linprog/internal.py:48-50 | row i loses factor × row r and no other entry changes |
| Linprog.EliminateRow | src/methopt/linprog/internal.py:48-50 | once row r is divided, clearing column s of row i turns that row into row i of the pivot and leaves every other row as it was |
| Linprog.PivotInPlace | src/methopt/linprog/internal.py:47-50 | the array afterwards is the pivot of the array before |
| Linprog.Enumerate1 | src/methopt/linprog/internal.py:118-122 | the k-th pair is (k + 1, items[k]) |
| Linprog.EliminateBasisColumns | src/methopt/linprog/internal.py:109-115 | after elimination every basis column is the unit vector of its row |
| Linprog.EliminateSystem | src/methopt/linprog/internal.py:109-115 | elimination keeps the solution set of the constraint rows |
| Linprog.EliminateNext | src/methopt/linprog/internal.py:111-115 | one more basis entry adds one pivot, or fails on a zero pivot |
| Linprog.EliminateNoneStays | src/methopt/linprog/internal.py:111-115 | once a pivot is zero, elimination fails |
| Linprog.GaussElimination | src/methopt/linprog/internal.py:109-115 | the loop succeeds exactly when no pivot is zero, and then leaves the eliminated tableau |
| Linprog.ChooseEntering | src/methopt/linprog/internal.py:37-38 | none exactly when no reduced cost is negative; otherwise the least column with a negative reduced cost |
| Linprog.ChooseLeaving | src/methopt/linprog/internal.py:42-43 | none exactly when no entry of column s is positive; otherwise a row with a positive entry whose key (\|Q[0][s]/Q[i][s]\|, basis[i − 1]) is least, first among equals |
| Linprog.EliminateRepresents | src/methopt/linprog/internal.py:27-33 | the eliminated initial tableau represents the program with the given basis: its constraint rows have exactly the solutions of Az = b, its basis columns are unit vectors, and at each solution the objective row reads −cᵀz |
| Linprog.PivotRepresents | src/methopt/linprog/internal.py:47-52 | a pivot with its basis update keeps that representation, objective row included |
| Linprog.PivotBasis | src/methopt/linprog/internal.py:47-52 | the in-place pivot and basis update |
| Linprog.SimplexPass | src/methopt/linprog/internal.py:35-52 | one pass of the loop keeps the representation. It stops at the optimum exactly when no reduced cost is negative, and then leaves tableau and basis unchanged. Otherwise s is Bland's entering column, the least with a negative reduced cost. The pass reports unbounded only when column s has no positive entry; it then leaves both unchanged and an improving ray exists. Otherwise it pivots on Bland's row r, a row with a positive entry whose key is least: the tableau becomes the pivot of the old one on (r, s), and basis[r − 1] becomes s |
| Linprog.SolveCanonicalImpl | src/methopt/linprog/internal.py:24-52 | a successful return represents the program, has no negative reduced cost, and its Q[0][0] bounds cᵀz from above over every z >= 0 with Az = b; UnboundFunction comes with an improving ray; the other failures are a zero pivot or exhausted fuel |
| Linprog.BasicValue | src/methopt/linprog/internal.py:17-20 | cᵀx at the point x read off a representing tableau equals Q[0][0] |
| Linprog.OptimalBound | src/methopt/linprog/internal.py:37-40 | when no reduced cost is negative, cᵀz <= Q[0][0] for every z >= 0 with Az = b |
| Linprog.RayStaysFeasible | src/methopt/linprog/internal.py:44-45 | along an improving ray d (d >= 0, Ad = 0, cᵀd > 0) a feasible point stays feasible and cᵀ grows by t·cᵀd, so the maximum is unbounded |
| Linprog.UnboundedRay | src/methopt/linprog/internal.py:37-45 | a column s with a negative reduced cost and no positive entry gives an improving ray: 1 at s, minus the column's entries at the basis variables |
| Linprog.AssignedUntouched | src/methopt/linprog/internal.py:17-20 | the components outside the basis stay 0 |
| Linprog.AssignedAt | src/methopt/linprog/internal.py:17-20 | the component of each basis column is that row's right-hand side |
| Linprog.BasicSolution | src/methopt/linprog/internal.py:17-20 | the point read off the tableau takes the basic values, is 0 elsewhere, and satisfies the constraint rows |
| Linprog.AuxObjective | src/methopt/linprog/internal.py:75-76 | the auxiliary objective at (x, y) is −Σy |
| Linprog.AuxProgram | src/methopt/linprog/internal.py:73-85 | rows with b_i < 0 are negated across [A \| I], so that b_ >= 0 before elimination (the elimination at line 33 can make it negative again); the system Ax + y = b is unchanged; the initial basis is n + 1 … n + m |
| Linprog.AugmentedSolves | src/methopt/linprog/internal.py:78 | a solution of Ax + y = b with y = 0 gives a solution of Ax = b |
| Linprog.AuxBounded | src/methopt/linprog/internal.py:75-87 | the phase-1 objective −Σy has no improving ray, so phase 1 never raises UnboundFunction |
| Linprog.AuxFeasiblePoint | src/methopt/linprog/internal.py:65-67 | a solution x >= 0 of Ax = b, with y = 0, is a feasible point of the auxiliary program of objective 0 |
| Linprog.Phase1Infeasible | src/methopt/linprog/internal.py:87-89 | a final phase-1 tableau with Q[0][0] < 0 means that no x >= 0 solves Ax = b |
| Linprog.BasicFeasiblePoint | src/methopt/linprog/internal.py:17-20 | the point read off a representing tableau solves the system and is 0 outside the basis |
| Linprog.Phase1Feasible | src/methopt/linprog/internal.py:87-106 | a final phase-1 tableau whose basis lies in the x columns gives a solution of Ax = b |
| Linprog.NoArtificial | src/methopt/linprog/internal.py:92-94 | true exactly when every basis entry is one of the x variables 1..n |
| Linprog.Phase1Outcome | src/methopt/linprog/internal.py:88-106 | NoSolution only when no x >= 0 solves Ax = b; ArtificialInBasis when a y variable is left in the basis; otherwise the basis, in the x columns, of a solution of Ax = b |
| Linprog.SolveAuxProgram | src/methopt/linprog/internal.py:55-106 | a basis returned lies in the x columns, and then Ax = b has a solution; NoSolution means that no x >= 0 solves Ax = b; the other failures are ArtificialInBasis or a failure of the simplex loop other than UnboundFunction |
| Linprog.RepresentsSolution | src/methopt/linprog/internal.py:17-20 | the point read off a representing tableau solves Ax = b |
| Linprog.ReadSolution | src/methopt/linprog/internal.py:17-20 | the loop builds that point |
| Linprog.SolveCanonical | src/methopt/linprog/internal.py:6-21 | a returned x has \|c\| components, solves Ax = b and has cᵀx >= cᵀz for every z >= 0 with Az = b; NoSolution means that no x >= 0 solves Ax = b; UnboundFunction comes with an improving ray; the failures are those of the two phases |
| Linprog.KeyIgnoresRightHandSide | src/methopt/linprog/internal.py:43 | the leaving-row key can choose a row whose pivot makes another right-hand side negative |
| Linprog.NegatedRowPassesPhase1 | src/methopt/linprog/internal.py:80-89 | for A = [1], b = [−2], which has no solution x >= 0, the negated row keeps its right-hand side at −2 after elimination, and phase 1 ends at optimum 0 with basis [1], so no NoSolution is raised |

## Left out

- Floating point: every computation uses exact reals. Rounding, overflow, `inf` and `nan` are not modelled. For example, a float halving loop ends by underflow; over the reals it needs eps > 0.
- DivideStep.Halve: requires eps > 0. Over the reals, the halving loop ends only because step <= eps eventually holds.
- The same eps > 0 requirement applies to `StepAdjustmentStrategy.DivideStepStrategy.Call`, `NewtonsMethod.DivideStepStrategy.Call` and `NewtonsMethod.NewtonsMethodRun`. `grad_descent` uses the constant EPS = 1e-7, so it needs no such requirement.
- OneDimensionalMethods.GoldenSection: PHI is a parameter with φ > 1 and φ² = φ + 1, not the float `(1 + 5 ** 0.5) / 2`.
- GradDescent.GradDescent: modelled over scalars, because `abs(x - x_new) < EPS` is a scalar comparison. Array points are not modelled.
- NewtonsMethod.NewtonsMethodRun has these limits:
  - The solver `conjugate_direction_method_for_quadratic` is imported but is not part of this model, so the solver is a function parameter that keeps the dimension of x0.
  - `np.all(abs(f_prev - fk) < eps)` is read as a scalar comparison.
  - The iteration callback is recorded as a ghost trace.
- ConjugateDirectionMethod.ConjugateDirection: convergence within n = |Q| passes is not proved, and neither is Q-conjugacy of every pair of directions. Only each direction against the one before it is proved conjugate (DirectionsConjugate), and a run that stops early is proved exact (ConvergedSolves). A run that uses its whole budget is not claimed to solve Qx = −b.
- ConjugateDirectionMethod.ConjugateDirection: requires Q positive definite. Otherwise the step denominators (Qp, p) can be 0. `np.linalg.norm(p) == 0` is modelled as "every component is 0".
- StepAdjustmentStrategy.NewFibonacciStrategy: requires max_steps to be given and >= 1. Otherwise the source fails while building the table, at `compute_fibonacci(None, …)` or at `fibo[1]`.
- StepAdjustmentStrategy.OneDimOptimizationStrategy.Call: for Fibonacci search the step is proved >= 0 but not <= max_step. For n = 1, line 93 reads `fibonacci[-1]`, the last table entry, so x1 can lie beyond b, and the final comparison at lines 119-121 can move b to x1 + σ. For dichotomy the bound needs eps >= σ or max_step >= 2σ; otherwise a bracket narrower than 2σ widens at each step and can leave [0, max_step].
- OneDimensionalMethods.FibonacciMethod: requires max_steps >= 1 and a positive table longer than min(max_steps, 52).
- OneDimensionalMethods.ComputeFibonacci: the recursion works on an `array<nat>` with Python's unbounded integers. It does not model a table longer than the recursion depth allows.
- Linprog.SolveCanonicalImpl: the `while True` loop has a fuel bound. It reports FuelExhausted after fuel + 1 passes. Bland's rule with the key as written is not proved to terminate.
- Linprog.GaussElimination: a zero pivot fails with ZeroPivot. numpy would go on with `inf`/`nan` entries.
- Linprog.SolveAuxProgram: models phase 1 and the `Q[0][0] < 0` check. The clean-up at lines 91-104 is not modelled. It drives artificial variables out of the basis and drops redundant rows, and the source's version would fail on a numpy array (`del A[r - 1]`, `redundant.add` on a dict). A phase-1 basis that still holds an artificial variable is reported as ArtificialInBasis.
- Linprog.SolveAuxProgram: the source raises `NoSolutionError`, which is not defined (simplex_error.py defines `NoSolution`). It is modelled as NoSolution.
- Linprog.SolveCanonical: x >= 0 is not claimed, for two independent reasons. The key at line 43 can make a right-hand side negative (see `Linprog.KeyIgnoresRightHandSide`). Lines 80-83 with the elimination at line 33 can start phase 1 from a negative right-hand side (next line). So the returned x is proved to have the largest objective among the feasible points, but not to be feasible itself.
- Linprog.SolveCanonical: an infeasible program can end in Success. Lines 80-83 negate the identity entry of a row together with the rest of it, and the elimination at line 33 undoes the sign change of b_i. So phase 1 can start infeasible and finish at optimum 0 with a basis in the x columns (see `Linprog.NegatedRowPassesPhase1`, where the result is x = [−2]). NoSolution implies that no x >= 0 solves Ax = b, but the converse is not claimed.
- Linprog.SolveCanonical: UnboundFunction is proved to come with an improving ray. It is not proved that a feasible point exists to start the ray from, because neither phase keeps the right-hand sides >= 0.
- Linprog.SolveCanonical: the assertion `Q[i][j] == 1` at line 19 is proved to hold, not checked at run time.
- `generate_eigenvalues`, `generate_orthonormal_matrix`, `generate_hessian` and `generate_quadratic_assignment` are left out. They use random numbers and a QR factorisation.
- The scripts, the plotting code in `graphic/` and the test drivers are left out.
- The abstract `StepAdjustmentStrategy` base class is left out because it has no behaviour. Its eps default is modelled in EpsOrDefault.
