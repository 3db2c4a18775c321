/** The quadratic objective built from a Hessian H of size n, and its
    gradient components:
      fn(x)      = Σ_{i ≤ j < n} H[i][j]·x[i]·x[j]   (the upper triangle only)
      grad[i](x) = Σ_{j < n} x[j]·H[i][j]·(2 if j = i else 1).
    For a symmetric H, grad[i] is the partial derivative of fn along e_i:
    fn(x + t·e_i) - fn(x) = t·grad[i](x) + t²·H[i][i]. */
module QuadraticAssignment {
  import opened LinearAlgebra

  /** The entries fn reads exist: rows 0..n-1 of H have at least n entries. */
  predicate Covers(hessian: Matrix, n: nat) {
    |hessian| >= n && forall i :: 0 <= i < n ==> |hessian[i]| >= n
  }

  /** Σ_{i ≤ k < j} H[i][k]·x[i]·x[k]: row i of the sum, up to column j. */
  function RowSum(hessian: Matrix, x: Vector, i: nat, j: nat): real
    requires Covers(hessian, |x|) && i < |x| && j <= |x|
    decreases j
  {
    if j <= i then 0.0
    else RowSum(hessian, x, i, j - 1) + hessian[i][j - 1] * x[i] * x[j - 1]
  }

  /** The rows 0..m-1 of the sum, each up to column n. */
  function UpperSum(hessian: Matrix, x: Vector, m: nat, n: nat): real
    requires Covers(hessian, |x|) && m <= n == |x|
  {
    if m == 0 then 0.0 else UpperSum(hessian, x, m - 1, n) + RowSum(hessian, x, m - 1, n)
  }

  /** fn(x) for the first n coordinates of x. */
  function QuadraticForm(hessian: Matrix, n: nat, x: Vector): real
    requires Covers(hessian, n) && |x| >= n
  {
    UpperSum(hessian, x[..n], n, n)
  }

  /** The function `fn_from_hessian(hessian, n)` returns, with what it
      captures. */
  datatype QuadraticFunction = QuadraticFunction(hessian: Matrix, n: nat)
  {
    /** `fn(x)`: the nested loops accumulate the upper triangle row by row. */
    method Call(x: Vector) returns (result: real)
      requires Covers(hessian, n) && |x| >= n
      ensures result == QuadraticForm(hessian, n, x)
    {
      var y := x[..n];
      result := 0.0;
      for i := 0 to n
        invariant result == UpperSum(hessian, y, i, n)
      {
        ghost var before := result;
        for j := i to n
          invariant result == before + RowSum(hessian, y, i, j)
        {
          result := result + hessian[i][j] * x[i] * x[j];
        }
      }
    }
  }

  function FnFromHessian(hessian: Matrix, n: nat): (fn: QuadraticFunction)
    ensures fn.hessian == hessian && fn.n == n
  {
    QuadraticFunction(hessian, n)
  }

  /** Σ_{j < m} x[j]·H[it][j]·(2 if j = it else 1). */
  function GradSum(hessian: Matrix, x: Vector, it: nat, m: nat): real
    requires it < |hessian| && |hessian[it]| == |x| && m <= |x|
  {
    if m == 0 then 0.0
    else GradSum(hessian, x, it, m - 1) + x[m - 1] * hessian[it][m - 1] * (if m - 1 == it then 2.0 else 1.0)
  }

  /** `partial(gr, it)`: the it-th gradient component. numpy multiplies x,
      H[it] and the weights element-wise, so all three have length n. */
  datatype GradComponent = GradComponent(hessian: Matrix, n: nat, it: nat)
  {
    function Call(x: Vector): real
      requires it < |hessian| && |hessian[it]| == n && |x| == n
    {
      GradSum(hessian, x, it, n)
    }
  }

  /** `grad_from_hessian(hessian, n)`: the components 0..n-1, in order. */
  function GradFromHessian(hessian: Matrix, n: nat): (grad: seq<GradComponent>)
    ensures |grad| == n
    ensures forall i :: 0 <= i < n ==> grad[i].it == i && grad[i].hessian == hessian && grad[i].n == n
  {
    seq(n, i requires 0 <= i < n => GradComponent(hessian, n, i))
  }

  // ---------------------------------------------------------------------
  // Only the upper triangle is read

  /** Two Hessians with the same upper triangle give the same fn. */
  lemma {:induction false} UpperTriangleOnly(h1: Matrix, h2: Matrix, n: nat, x: Vector)
    requires Covers(h1, n) && Covers(h2, n) && |x| >= n
    requires forall i, j :: 0 <= i <= j < n ==> h1[i][j] == h2[i][j]
    ensures QuadraticForm(h1, n, x) == QuadraticForm(h2, n, x)
  {
    var y := x[..n];
    forall i | 0 <= i < n ensures RowSum(h1, y, i, n) == RowSum(h2, y, i, n) {
      RowsAgree(h1, h2, y, i, n);
    }
    UpperSumsAgree(h1, h2, y, n);
  }

  lemma {:induction false} RowsAgree(h1: Matrix, h2: Matrix, x: Vector, i: nat, j: nat)
    requires Covers(h1, |x|) && Covers(h2, |x|) && i < |x| && j <= |x|
    requires forall k :: i <= k < |x| ==> h1[i][k] == h2[i][k]
    decreases j
    ensures RowSum(h1, x, i, j) == RowSum(h2, x, i, j)
  {
    if j > i {
      RowsAgree(h1, h2, x, i, j - 1);
    }
  }

  lemma {:induction false} UpperSumsAgree(h1: Matrix, h2: Matrix, x: Vector, m: nat)
    requires Covers(h1, |x|) && Covers(h2, |x|) && m <= |x|
    requires forall i :: 0 <= i < |x| ==> RowSum(h1, x, i, |x|) == RowSum(h2, x, i, |x|)
    ensures UpperSum(h1, x, m, |x|) == UpperSum(h2, x, m, |x|)
  {
    if m > 0 {
      UpperSumsAgree(h1, h2, x, m - 1);
    }
  }

  // ---------------------------------------------------------------------
  // grad is the gradient of fn

  /** H is symmetric on its n × n block. */
  predicate Symmetric(hessian: Matrix, n: nat)
    requires IsMatrix(hessian, n, n)
  {
    forall i, j :: 0 <= i < n && 0 <= j < n ==> hessian[i][j] == hessian[j][i]
  }

  /** Σ_{r < m} H[r][k]·x[r]: column k above row m. */
  function ColumnSum(hessian: Matrix, x: Vector, k: nat, m: nat): real
    requires IsMatrix(hessian, |x|, |x|) && k < |x| && m <= |x|
  {
    if m == 0 then 0.0 else ColumnSum(hessian, x, k, m - 1) + hessian[m - 1][k] * x[m - 1]
  }

  /** Σ_{k < j' < j} H[k][j']·x[j']: row k right of the diagonal, up to j. */
  function RightSum(hessian: Matrix, x: Vector, k: nat, j: nat): real
    requires IsMatrix(hessian, |x|, |x|) && k < |x| && j <= |x|
  {
    if j <= k + 1 then 0.0 else RightSum(hessian, x, k, j - 1) + hessian[k][j - 1] * x[j - 1]
  }

  /** x moved by t along e_k. */
  function Moved(x: Vector, k: nat, t: real): (y: Vector)
    requires k < |x|
    ensures |y| == |x|
  {
    x[k := x[k] + t]
  }

  /** Rows above row k change only in their column k. */
  lemma {:induction false} RowAbovePerturbed(hessian: Matrix, x: Vector, k: nat, t: real, r: nat, j: nat)
    requires IsMatrix(hessian, |x|, |x|) && r < k < |x| && j <= |x|
    decreases j
    ensures RowSum(hessian, Moved(x, k, t), r, j)
      == RowSum(hessian, x, r, j) + (if k < j then hessian[r][k] * x[r] * t else 0.0)
  {
    var y := Moved(x, k, t);
    if j > r {
      RowAbovePerturbed(hessian, x, k, t, r, j - 1);
      if j - 1 == k {
        assert hessian[r][k] * y[r] * y[k] == hessian[r][k] * x[r] * x[k] + hessian[r][k] * x[r] * t;
      } else {
        assert y[j - 1] == x[j - 1];
      }
    }
  }

  /** Rows below row k only read coordinates after k, so they do not change. */
  lemma {:induction false} RowBelowPerturbed(hessian: Matrix, x: Vector, k: nat, t: real, r: nat, j: nat)
    requires IsMatrix(hessian, |x|, |x|) && k < r < |x| && j <= |x|
    decreases j
    ensures RowSum(hessian, Moved(x, k, t), r, j) == RowSum(hessian, x, r, j)
  {
    if j > r {
      RowBelowPerturbed(hessian, x, k, t, r, j - 1);
    }
  }

  /** Row k changes by t·(its part right of the diagonal) plus
      H[k][k]·(2t·x[k] + t²). */
  lemma {:induction false} RowAtPerturbed(hessian: Matrix, x: Vector, k: nat, t: real, j: nat)
    requires IsMatrix(hessian, |x|, |x|) && k < |x| && j <= |x|
    decreases j
    ensures RowSum(hessian, Moved(x, k, t), k, j) == RowSum(hessian, x, k, j)
      + (if k < j then t * RightSum(hessian, x, k, j) + hessian[k][k] * (2.0 * t * x[k] + t * t) else 0.0)
  {
    var y := Moved(x, k, t);
    assert y[k] == x[k] + t;
    if j == k + 1 {
      SquareShift(hessian[k][k], x[k], t);
    } else if j > k + 1 {
      RowAtPerturbed(hessian, x, k, t, j - 1);
      assert y[j - 1] == x[j - 1];
      ProductShift(hessian[k][j - 1], x[k], t, x[j - 1]);
    }
  }

  lemma SquareShift(c: real, a: real, t: real)
    ensures c * (a + t) * (a + t) == c * a * a + c * (2.0 * t * a + t * t)
  {
  }

  lemma ProductShift(c: real, a: real, t: real, b: real)
    ensures c * (a + t) * b == c * a * b + t * (c * b)
  {
  }

  /** What moving x by t along e_k adds to the rows 0..m-1 together. */
  function PerturbedBy(hessian: Matrix, x: Vector, k: nat, t: real, m: nat): real
    requires IsMatrix(hessian, |x|, |x|) && k < |x| && m <= |x|
  {
    t * ColumnSum(hessian, x, k, if m < k then m else k)
      + (if k < m then t * RightSum(hessian, x, k, |x|) + hessian[k][k] * (2.0 * t * x[k] + t * t) else 0.0)
  }

  /** The rows 0..m-1 together. */
  lemma {:induction false} UpperPerturbed(hessian: Matrix, x: Vector, k: nat, t: real, m: nat)
    requires IsMatrix(hessian, |x|, |x|) && k < |x| && m <= |x|
    ensures UpperSum(hessian, Moved(x, k, t), m, |x|) == UpperSum(hessian, x, m, |x|) + PerturbedBy(hessian, x, k, t, m)
  {
    if m > 0 {
      UpperPerturbed(hessian, x, k, t, m - 1);
      RowPerturbed(hessian, x, k, t, m - 1);
    }
  }

  /** Row r's change is what PerturbedBy gains from row r. */
  lemma RowPerturbed(hessian: Matrix, x: Vector, k: nat, t: real, r: nat)
    requires IsMatrix(hessian, |x|, |x|) && k < |x| && r < |x|
    ensures RowSum(hessian, Moved(x, k, t), r, |x|) - RowSum(hessian, x, r, |x|)
      == PerturbedBy(hessian, x, k, t, r + 1) - PerturbedBy(hessian, x, k, t, r)
  {
    if r < k {
      RowAbovePerturbed(hessian, x, k, t, r, |x|);
      PerturbedByAbove(hessian, x, k, t, r);
    } else if r == k {
      RowAtPerturbed(hessian, x, k, t, |x|);
      assert PerturbedBy(hessian, x, k, t, r) == t * ColumnSum(hessian, x, k, k);
    } else {
      RowBelowPerturbed(hessian, x, k, t, r, |x|);
      assert PerturbedBy(hessian, x, k, t, r + 1) == PerturbedBy(hessian, x, k, t, r);
    }
  }

  /** A row above row k adds its column-k term to the column part. */
  lemma PerturbedByAbove(hessian: Matrix, x: Vector, k: nat, t: real, r: nat)
    requires IsMatrix(hessian, |x|, |x|) && r < k < |x|
    ensures PerturbedBy(hessian, x, k, t, r + 1) == PerturbedBy(hessian, x, k, t, r) + hessian[r][k] * x[r] * t
  {
    assert ColumnSum(hessian, x, k, r + 1) == ColumnSum(hessian, x, k, r) + hessian[r][k] * x[r];
    ScaledSum(t, ColumnSum(hessian, x, k, r), hessian[r][k] * x[r]);
  }

  lemma ScaledSum(t: real, a: real, c: real)
    ensures t * (a + c) == t * a + c * t
  {
  }

  /** For a symmetric H the k-th component splits into column k above
      the diagonal, twice the diagonal term, and row k right of it. */
  lemma {:induction false} GradSplit(hessian: Matrix, x: Vector, k: nat, m: nat)
    requires IsMatrix(hessian, |x|, |x|) && Symmetric(hessian, |x|) && k < |x| && m <= |x|
    ensures GradSum(hessian, x, k, m) == ColumnSum(hessian, x, k, if m < k then m else k)
      + (if k < m then 2.0 * x[k] * hessian[k][k] + RightSum(hessian, x, k, m) else 0.0)
  {
    if m > 0 {
      GradSplit(hessian, x, k, m - 1);
      if m - 1 < k {
        assert hessian[k][m - 1] == hessian[m - 1][k];
      }
    }
  }

  /** `grad[k]` is the partial derivative of `fn` along e_k, exactly: moving
      x by t along e_k changes fn by t·grad[k](x) + t²·H[k][k]. */
  lemma GradientOfQuadraticForm(hessian: Matrix, n: nat, x: Vector, k: nat, t: real)
    requires IsMatrix(hessian, n, n) && Symmetric(hessian, n) && |x| == n && k < n
    ensures QuadraticForm(hessian, n, Moved(x, k, t)) - QuadraticForm(hessian, n, x)
      == t * GradFromHessian(hessian, n)[k].Call(x) + t * t * hessian[k][k]
  {
    assert x[..n] == x;
    assert Moved(x, k, t)[..n] == Moved(x, k, t);
    UpperPerturbed(hessian, x, k, t, n);
    GradSplit(hessian, x, k, n);
  }

  // ---------------------------------------------------------------------
  // Unit vectors

  lemma {:induction false} RowSumZero(hessian: Matrix, n: nat, i: nat, j: nat)
    requires IsMatrix(hessian, n, n) && i < n && j <= n
    decreases j
    ensures RowSum(hessian, Zero(n), i, j) == 0.0
  {
    if j > i {
      RowSumZero(hessian, n, i, j - 1);
    }
  }

  lemma {:induction false} UpperSumZero(hessian: Matrix, n: nat, m: nat)
    requires IsMatrix(hessian, n, n) && m <= n
    ensures UpperSum(hessian, Zero(n), m, n) == 0.0
  {
    if m > 0 {
      UpperSumZero(hessian, n, m - 1);
      RowSumZero(hessian, n, m - 1, n);
    }
  }

  lemma {:induction false} ColumnSumZero(hessian: Matrix, n: nat, k: nat, m: nat)
    requires IsMatrix(hessian, n, n) && k < n && m <= n
    ensures ColumnSum(hessian, Zero(n), k, m) == 0.0
  {
    if m > 0 {
      ColumnSumZero(hessian, n, k, m - 1);
    }
  }

  lemma {:induction false} RightSumZero(hessian: Matrix, n: nat, k: nat, j: nat)
    requires IsMatrix(hessian, n, n) && k < n && j <= n
    decreases j
    ensures RightSum(hessian, Zero(n), k, j) == 0.0
  {
    if j > k + 1 {
      RightSumZero(hessian, n, k, j - 1);
    }
  }

  /** fn(e_k) = H[k][k], for any H (symmetric or not). */
  lemma FnOnUnit(hessian: Matrix, n: nat, k: nat)
    requires IsMatrix(hessian, n, n) && k < n
    ensures QuadraticForm(hessian, n, Unit(n, k)) == hessian[k][k]
  {
    var z := Zero(n);
    assert Unit(n, k) == Moved(z, k, 1.0);
    assert Unit(n, k)[..n] == Unit(n, k);
    UpperPerturbed(hessian, z, k, 1.0, n);
    UpperSumZero(hessian, n, n);
    ColumnSumZero(hessian, n, k, k);
    RightSumZero(hessian, n, k, n);
  }

  lemma {:induction false} GradSumOnUnit(hessian: Matrix, n: nat, k: nat, m: nat)
    requires k < |hessian| && |hessian[k]| == n && k < n && m <= n
    ensures GradSum(hessian, Unit(n, k), k, m) == if k < m then 2.0 * hessian[k][k] else 0.0
  {
    if m > 0 {
      GradSumOnUnit(hessian, n, k, m - 1);
    }
  }

  /** grad[k](e_k) = 2·H[k][k]. */
  lemma GradOnUnit(hessian: Matrix, n: nat, k: nat)
    requires k < |hessian| && |hessian[k]| == n && k < n
    ensures GradFromHessian(hessian, n)[k].Call(Unit(n, k)) == 2.0 * hessian[k][k]
  {
    GradSumOnUnit(hessian, n, k, n);
  }

  // ---------------------------------------------------------------------
  // The Hessian of the tests

  const TEST_HESSIAN: Matrix := [[10.0, 12.0, 11.0], [12.0, 14.0, 18.0], [11.0, 18.0, 7.0]]

  /** fn(x) for n = 3, written out term by term. */
  lemma QuadraticFormOfThree(hessian: Matrix, x: Vector)
    requires IsMatrix(hessian, 3, 3) && |x| == 3
    ensures QuadraticForm(hessian, 3, x)
      == hessian[0][0] * x[0] * x[0] + hessian[0][1] * x[0] * x[1] + hessian[0][2] * x[0] * x[2]
       + hessian[1][1] * x[1] * x[1] + hessian[1][2] * x[1] * x[2] + hessian[2][2] * x[2] * x[2]
  {
    assert x[..3] == x;
    assert RowSum(hessian, x, 0, 1) == hessian[0][0] * x[0] * x[0];
    assert RowSum(hessian, x, 0, 2) == RowSum(hessian, x, 0, 1) + hessian[0][1] * x[0] * x[1];
    assert RowSum(hessian, x, 0, 3) == RowSum(hessian, x, 0, 2) + hessian[0][2] * x[0] * x[2];
    assert RowSum(hessian, x, 1, 2) == hessian[1][1] * x[1] * x[1];
    assert RowSum(hessian, x, 1, 3) == RowSum(hessian, x, 1, 2) + hessian[1][2] * x[1] * x[2];
    assert RowSum(hessian, x, 2, 3) == hessian[2][2] * x[2] * x[2];
    assert UpperSum(hessian, x, 1, 3) == RowSum(hessian, x, 0, 3);
    assert UpperSum(hessian, x, 2, 3) == UpperSum(hessian, x, 1, 3) + RowSum(hessian, x, 1, 3);
  }

  /** The values the tests expect: fn([1, 1, 0]) = 10 + 14 + 12 and
      fn([1, 6, 1]) = 10 + 14·36 + 7 + 12·6 + 18·6 + 11. */
  lemma TestFnValues()
    ensures QuadraticForm(TEST_HESSIAN, 3, [1.0, 1.0, 0.0]) == 10.0 + 14.0 + 12.0
    ensures QuadraticForm(TEST_HESSIAN, 3, [1.0, 6.0, 1.0])
      == 10.0 + 14.0 * 36.0 + 7.0 + 12.0 * 6.0 + 18.0 * 6.0 + 11.0
  {
    QuadraticFormOfThree(TEST_HESSIAN, [1.0, 1.0, 0.0]);
    QuadraticFormOfThree(TEST_HESSIAN, [1.0, 6.0, 1.0]);
  }

  /** The value the tests expect: grad[0]([5, 666, 0]) = 2·10·5 + 12·666. */
  lemma TestGradValue()
    ensures GradFromHessian(TEST_HESSIAN, 3)[0].Call([5.0, 666.0, 0.0]) == 2.0 * 10.0 * 5.0 + 12.0 * 666.0
  {
    var x := [5.0, 666.0, 0.0];
    assert GradSum(TEST_HESSIAN, x, 0, 1) == 100.0;
    assert GradSum(TEST_HESSIAN, x, 0, 2) == 100.0 + 12.0 * 666.0;
  }
}
