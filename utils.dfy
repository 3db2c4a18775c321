/** The iteration callback that records the trajectory of a method: every
    call appends the point together with the objective's value there. */
module Utils {
  import opened LinearAlgebra

  class TrajectoryIterationCallback {
    const f: Vector -> real
    var trajectory: seq<(Vector, real)>

    /** `TrajectoryIterationCallback(f)`: f is fixed from here on and the
        trajectory starts empty. */
    constructor(f: Vector -> real)
      ensures this.f == f && trajectory == []
    {
      this.f := f;
      trajectory := [];
    }

    /** `__call__(x, **kwargs)`: appends (x, f(x)); the iteration number a
        method passes along is ignored. Everything recorded before stays as
        it was. */
    method Call(x: Vector, iterationNo: int)
      modifies this
      ensures trajectory == old(trajectory) + [(x, f(x))]
      ensures |trajectory| == |old(trajectory)| + 1 && old(trajectory) <= trajectory
    {
      trajectory := trajectory + [(x, f(x))];
    }
  }
}
