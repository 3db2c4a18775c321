/** The exact examples of the method's tests, run over exact reals: the
    one-dimensional Q = [[20]], b = [-100], x0 = [0], and the
    two-dimensional Q = [[2, 4], [4, 10]], b = [1, 0], x0 = [10, 10], whose
    run takes two steps through the rational points below and then stops on
    a zero direction at the exact minimiser [-2.5, 1]. */
module ConjugateDirectionExamples {
  import opened LinearAlgebra
  import opened ConjugateDirectionMethod

  lemma PositiveDefiniteOneByOne()
    ensures PositiveDefinite([[20.0]])
  {
    var q := [[20.0]];
    forall v: Vector | |v| == 1 && !IsZero(v) ensures Dot(MatVec(q, v), v) > 0.0 {
      assert Dot(q[0], v) == 20.0 * v[0] + Dot(q[0][1..], v[1..]);
      assert MatVec(q, v) == [20.0 * v[0]];
      assert Dot(MatVec(q, v), v) == (20.0 * v[0]) * v[0];
      assert v[0] != 0.0;
      if v[0] > 0.0 {
        ProductPlus(20.0 * v[0], v[0], 0.0);
      } else {
        ProductPlus(-20.0 * v[0], -v[0], 0.0);
      }
    }
  }

  /** Before the loop: the residual at [0] is [100] and the exact step
      0.05 along it reaches [5]. */
  lemma OneDimensionalStart()
    ensures PositiveDefinite([[20.0]])
    ensures Start([[20.0]], [-100.0], [0.0]) == Continue(CgState([5.0], [100.0], [100.0], 0.05))
  {
    PositiveDefiniteOneByOne();
    var q := [[20.0]];
    assert MatVec(q, [0.0]) == [0.0];
    assert Residual(q, [-100.0], [0.0]) == [100.0];
    assert MatVec(q, [100.0]) == [2000.0];
    assert [100.0][0] != 0.0 && [-100.0][0] != 0.0;
    assert Dot([100.0], [100.0]) == 10000.0 by { assert [100.0][1..] == []; }
    assert Dot([2000.0], [100.0]) == 200000.0 by { assert [2000.0][1..] == []; }
    assert ExactStepSize(q, [100.0], [100.0]) == 0.05;
    assert Add([0.0], Scale(0.05, [100.0])) == [5.0];
  }

  /** Q = [[20]], b = [-100], x0 = [0]: one exact step reaches [5], and
      the first pass of the loop returns it. */
  lemma OneDimensionalExample()
    ensures PositiveDefinite([[20.0]])
    ensures ConjugateDirection([[20.0]], [-100.0], [0.0], 1000) == Run([5.0], 1, true)
  {
    OneDimensionalStart();
    var s := CgState([5.0], [100.0], [100.0], 0.05);
    assert [100.0][0] != 0.0;
    assert MatVec([[20.0]], [100.0]) == [2000.0];
    assert NextResidual([[20.0]], s) == [0.0];
    ZeroResidualStops([[20.0]], s);
  }

  // The two-dimensional run: W1 = -Q·x0 - b is the first residual and
  // direction, H1 the first exact step, X1 the first point; W2, P2, H2 the
  // residual, direction and step of the first pass, which ends at X2.
  const Q2: Matrix := [[2.0, 4.0], [4.0, 10.0]]
  const W1: Vector := [-61.0, -140.0]
  const H1: real := 23321.0 / 271762.0
  const X1: Vector := [1295039.0 / 271762.0, -273660.0 / 135881.0]
  const W2: Vector := [-336280.0 / 135881.0, 146522.0 / 135881.0]
  const P2: Vector := [-46046008524.0 / 18463646161.0, 19101811322.0 / 18463646161.0]
  const H2: real := 135881.0 / 46642.0
  const X2: Vector := [-2.5, 1.0]

  /** A dot product of two vectors of dimension 2, written out. */
  lemma Dot2(u: Vector, v: Vector)
    requires |u| == |v| == 2
    ensures Dot(u, v) == u[0] * v[0] + u[1] * v[1]
  {
    assert Dot(u[1..][1..], v[1..][1..]) == 0.0;
  }

  lemma MatVec2(v: Vector)
    requires |v| == 2
    ensures MatVec(Q2, v) == [2.0 * v[0] + 4.0 * v[1], 4.0 * v[0] + 10.0 * v[1]]
  {
    Dot2(Q2[0], v);
    Dot2(Q2[1], v);
  }

  lemma PositiveDefiniteTwoByTwo()
    ensures PositiveDefinite(Q2)
  {
    forall v: Vector | |v| == 2 && !IsZero(v) ensures Dot(MatVec(Q2, v), v) > 0.0 {
      MatVec2(v);
      var m := MatVec(Q2, v);
      Dot2(m, v);
      var a := v[0] + 2.0 * v[1];
      assert m[0] * v[0] + m[1] * v[1] == 2.0 * (a * a) + 2.0 * (v[1] * v[1]);
      SquarePlus(a, 0.0);
      SquarePlus(v[1], 0.0);
      if v[1] == 0.0 {
        assert v[0] != 0.0;
      }
    }
  }

  lemma FirstDirection()
    ensures !IsZero(W1)
  {
    assert W1[0] != 0.0;
  }

  lemma FirstStepSize()
    ensures PositiveDefinite(Q2) && !IsZero(W1)
    ensures ExactStepSize(Q2, W1, W1) == H1
  {
    PositiveDefiniteTwoByTwo();
    FirstDirection();
    MatVec2(W1);
    Dot2(W1, W1);
    Dot2(MatVec(Q2, W1), W1);
  }

  lemma FirstResidual()
    ensures Residual(Q2, [1.0, 0.0], [10.0, 10.0]) == W1
  {
    MatVec2([10.0, 10.0]);
  }

  lemma TwoDimensionalStart()
    ensures PositiveDefinite(Q2)
    ensures Start(Q2, [1.0, 0.0], [10.0, 10.0]) == Continue(CgState(X1, W1, W1, H1))
  {
    FirstStepSize();
    FirstResidual();
    assert [1.0, 0.0][0] != 0.0;
    assert Add([10.0, 10.0], Scale(H1, W1)) == X1;
  }

  lemma SecondResidual()
    ensures !IsZero(W1)
    ensures NextResidual(Q2, CgState(X1, W1, W1, H1)) == W2
  {
    FirstDirection();
    MatVec2(W1);
  }

  lemma SecondDirection()
    ensures PositiveDefinite(Q2) && !IsZero(W1)
    ensures NextDirection(Q2, CgState(X1, W1, W1, H1)) == P2
  {
    PositiveDefiniteTwoByTwo();
    SecondResidual();
    var qp1 := MatVec(Q2, W1);
    MatVec2(W1);
    Dot2(qp1, W2);
    Dot2(qp1, W1);
    assert Dot(qp1, W2) / Dot(qp1, W1) == -5769604.0 / 18463646161.0;
  }

  lemma SecondStepSize()
    ensures PositiveDefinite(Q2)
    ensures !IsZero(P2) && ExactStepSize(Q2, W2, P2) == H2
  {
    PositiveDefiniteTwoByTwo();
    assert P2[0] != 0.0;
    MatVec2(P2);
    Dot2(W2, P2);
    Dot2(MatVec(Q2, P2), P2);
  }

  lemma TwoDimensionalFirstPass()
    ensures PositiveDefinite(Q2) && !IsZero(W1)
    ensures Iteration(Q2, CgState(X1, W1, W1, H1)) == Continue(CgState(X2, W2, P2, H2))
  {
    SecondDirection();
    SecondResidual();
    SecondStepSize();
    SecondPoint();
  }

  lemma SecondPoint()
    ensures Add(X1, Scale(H2, P2)) == X2
  {
  }

  /** [-2.5, 1] solves Qx = -b. */
  lemma SolutionTwoDimensional()
    ensures IsZero(Residual(Q2, [1.0, 0.0], X2))
  {
    MatVec2(X2);
  }

  /** The second pass finds the residual at X2 zero (by the loop invariant,
      not by recomputing it from W2 and P2) and returns X2. */
  lemma TwoDimensionalSecondPass()
    ensures PositiveDefinite(Q2) && !IsZero(P2)
    ensures Iteration(Q2, CgState(X2, W2, P2, H2)) == Return(X2)
  {
    TwoDimensionalStart();
    StartInvariant(Q2, [1.0, 0.0], [10.0, 10.0]);
    TwoDimensionalFirstPass();
    IterationInvariant(Q2, [1.0, 0.0], CgState(X1, W1, W1, H1));
    SolutionTwoDimensional();
    ZeroResidualStops(Q2, CgState(X2, W2, P2, H2));
  }

  /** Q = [[2, 4], [4, 10]], b = [1, 0], x0 = [10, 10]: the run ends on
      its second pass at [-2.5, 1]. */
  lemma TwoDimensionalExample()
    ensures PositiveDefinite(Q2)
    ensures ConjugateDirection(Q2, [1.0, 0.0], [10.0, 10.0], 1000) == Run(X2, 2, true)
  {
    TwoDimensionalStart();
    TwoDimensionalFirstPass();
    TwoDimensionalSecondPass();
  }
}
