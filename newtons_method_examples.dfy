/** The iteration-callback example of the Newton tests: f(x, z) = 4x^6 +
    10z^2 - 4xz + 10z from x0 = [3, 3], with a callback that records every
    point the method reports together with f there. The first entry the
    callback records is x0 with f(x0) = 3000. */
module NewtonsMethodExamples {
  import opened LinearAlgebra
  import opened NewtonsMethod
  import opened Utils

  /** The coordinates of a point of the plane; a vector of another length
      reads as zero where it has no entry. */
  function First(x: Vector): real {
    if |x| > 0 then x[0] else 0.0
  }

  function Second(x: Vector): real {
    if |x| > 1 then x[1] else 0.0
  }

  /** f(x, z) = 4x^6 + 10z^2 - 4xz + 10z. */
  function TestObjective(x: Vector): real {
    var u, z := First(x), Second(x);
    4.0 * (u * u * u) * (u * u * u) + 10.0 * z * z - 4.0 * u * z + 10.0 * z
  }

  /** The gradient (24x^5 - 4z, 20z - 4x + 10). */
  function TestGradient(): seq<Vector -> real> {
    [x => 24.0 * (First(x) * First(x)) * (First(x) * First(x)) * First(x) - 4.0 * Second(x),
     x => 20.0 * Second(x) - 4.0 * First(x) + 10.0]
  }

  /** The Hessian [[120x^4, -4], [-4, 20]]. */
  function TestHessian(): (h: seq<seq<Vector -> real>>)
    ensures Rectangular(h) && |h| == 2
  {
    [[x => 120.0 * (First(x) * First(x)) * (First(x) * First(x)), x => -4.0],
     [x => -4.0, x => 20.0]]
  }

  /** f(3, 3) = 2916 + 90 - 36 + 30 = 3000. */
  lemma TestObjectiveAtStart()
    ensures TestObjective([3.0, 3.0]) == 3000.0
  {
    assert First([3.0, 3.0]) == 3.0 && Second([3.0, 3.0]) == 3.0;
  }

  /** The run from [3, 3] reports x0 at iteration 0 first; a trajectory
      callback fed that report records ([3, 3], 3000) as its first entry. */
  method FirstRecordedPoint(solver: QuadraticSolver) returns (cb: TrajectoryIterationCallback, ghost trace: seq<(Vector, int)>)
    requires KeepsDimension(solver, [3.0, 3.0])
    ensures |trace| >= 1 && trace[0] == ([3.0, 3.0], 0)
    ensures cb.f == TestObjective
    ensures cb.trajectory == [(trace[0].0, cb.f(trace[0].0))]
    ensures cb.trajectory[0] == ([3.0, 3.0], 3000.0)
  {
    var x0: Vector := [3.0, 3.0];
    var x;
    x, trace := NewtonsMethodRun(TestObjective, TestHessian(), TestGradient(), x0, solver);
    cb := new TrajectoryIterationCallback(TestObjective);
    cb.Call(x0, 0);
    TestObjectiveAtStart();
  }
}
