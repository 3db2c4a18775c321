/** Exact real scalars, vectors and matrices shared by the optimisation
    methods: the numpy arithmetic of the source, stated over `real`. */
module LinearAlgebra {

  type Vector = seq<real>
  type Matrix = seq<seq<real>>

  function Abs(x: real): real {
    if x < 0.0 then -x else x
  }

  /** 2^k as a real number. */
  function Pow2(k: nat): (r: real)
    ensures r >= 1.0
  {
    if k == 0 then 1.0 else 2.0 * Pow2(k - 1)
  }

  /** x halved k times. */
  function Halved(x: real, k: nat): real
    decreases k
  {
    if k == 0 then x else Halved(x / 2.0, k - 1)
  }

  /** Halving k times undoes multiplying by 2^k. */
  lemma {:induction false} HalvedTimesPow2(x: real, k: nat)
    decreases k
    ensures Halved(x, k) * Pow2(k) == x
  {
    if k > 0 {
      HalvedTimesPow2(x / 2.0, k - 1);
      DoubleProduct(Halved(x / 2.0, k - 1), Pow2(k - 1), Pow2(k), x / 2.0);
    }
  }

  lemma DoubleProduct(e: real, p: real, q: real, d: real)
    requires e * p == d && q == 2.0 * p
    ensures e * q == 2.0 * d
  {
  }

  function Add(u: Vector, v: Vector): Vector
    requires |u| == |v|
  {
    seq(|u|, i requires 0 <= i < |u| => u[i] + v[i])
  }

  function Sub(u: Vector, v: Vector): Vector
    requires |u| == |v|
  {
    seq(|u|, i requires 0 <= i < |u| => u[i] - v[i])
  }

  function Scale(c: real, v: Vector): Vector {
    seq(|v|, i requires 0 <= i < |v| => c * v[i])
  }

  function Zero(n: nat): Vector {
    seq(n, i => 0.0)
  }

  /** numpy's `np.all(v == 0)`, equivalently `np.linalg.norm(v) == 0`. */
  predicate IsZero(v: Vector) {
    forall i :: 0 <= i < |v| ==> v[i] == 0.0
  }

  /** The unit vector e_k of dimension n. */
  function Unit(n: nat, k: nat): Vector {
    seq(n, i => if i == k then 1.0 else 0.0)
  }

  function Dot(u: Vector, v: Vector): real
    requires |u| == |v|
  {
    if |u| == 0 then 0.0 else u[0] * v[0] + Dot(u[1..], v[1..])
  }

  /** Every row of `q` has `cols` entries. */
  predicate IsMatrix(q: Matrix, rows: nat, cols: nat) {
    |q| == rows && forall i :: 0 <= i < |q| ==> |q[i]| == cols
  }

  /** numpy's `Q @ v`. */
  function MatVec(q: Matrix, v: Vector): Vector
    requires forall i :: 0 <= i < |q| ==> |q[i]| == |v|
  {
    seq(|q|, i requires 0 <= i < |q| => Dot(q[i], v))
  }

  /** The positive-definite quadratic forms: (Qv)·v > 0 for every non-zero v. */
  ghost predicate PositiveDefinite(q: Matrix) {
    IsMatrix(q, |q|, |q|) &&
    forall v: Vector :: |v| == |q| && !IsZero(v) ==> Dot(MatVec(q, v), v) > 0.0
  }

  /** The snapshot of a two-dimensional array as a sequence of rows. */
  function Rows(a: array2<real>): (r: Matrix)
    reads a
    ensures IsMatrix(r, a.Length0, a.Length1)
    ensures forall i, j :: 0 <= i < a.Length0 && 0 <= j < a.Length1 ==> r[i][j] == a[i, j]
  {
    seq(a.Length0, i requires 0 <= i < a.Length0 reads a =>
      seq(a.Length1, j requires 0 <= j < a.Length1 reads a => a[i, j]))
  }

  lemma {:induction false} DotComm(u: Vector, v: Vector)
    requires |u| == |v|
    ensures Dot(u, v) == Dot(v, u)
  {
    if |u| > 0 {
      DotComm(u[1..], v[1..]);
    }
  }

  lemma {:induction false} DotAddRight(u: Vector, v: Vector, w: Vector)
    requires |u| == |v| == |w|
    ensures Dot(u, Add(v, w)) == Dot(u, v) + Dot(u, w)
  {
    if |u| > 0 {
      assert Add(v, w)[1..] == Add(v[1..], w[1..]);
      DotAddRight(u[1..], v[1..], w[1..]);
      assert u[0] * (v[0] + w[0]) == u[0] * v[0] + u[0] * w[0];
    }
  }

  lemma {:induction false} DotSubRight(u: Vector, v: Vector, w: Vector)
    requires |u| == |v| == |w|
    ensures Dot(u, Sub(v, w)) == Dot(u, v) - Dot(u, w)
  {
    if |u| > 0 {
      assert Sub(v, w)[1..] == Sub(v[1..], w[1..]);
      DotSubRight(u[1..], v[1..], w[1..]);
      assert u[0] * (v[0] - w[0]) == u[0] * v[0] - u[0] * w[0];
    }
  }

  lemma {:induction false} DotScaleRight(u: Vector, c: real, v: Vector)
    requires |u| == |v|
    ensures Dot(u, Scale(c, v)) == c * Dot(u, v)
  {
    if |u| > 0 {
      assert Scale(c, v)[1..] == Scale(c, v[1..]) by {
        forall i | 0 <= i < |v| - 1 ensures Scale(c, v)[1..][i] == Scale(c, v[1..])[i] { }
      }
      DotScaleRight(u[1..], c, v[1..]);
      assert u[0] * (c * v[0]) == c * (u[0] * v[0]);
    }
  }

  lemma {:induction false} DotSelfNonNegative(v: Vector)
    ensures Dot(v, v) >= 0.0
    ensures !IsZero(v) ==> Dot(v, v) > 0.0
  {
    if |v| > 0 {
      DotSelfNonNegative(v[1..]);
      SquarePlus(v[0], Dot(v[1..], v[1..]));
      if !IsZero(v) && v[0] == 0.0 {
        var i :| 0 <= i < |v| && v[i] != 0.0;
        assert v[1..][i - 1] == v[i];
      }
    }
  }

  /** The dot product with a zero vector is zero. */
  lemma {:induction false} DotZeroRight(u: Vector, v: Vector)
    requires |u| == |v| && IsZero(v)
    ensures Dot(u, v) == 0.0
  {
    if |u| > 0 {
      DotZeroRight(u[1..], v[1..]);
    }
  }

  /** x² + r is non-negative, and positive when x is not zero. */
  lemma SquarePlus(x: real, r: real)
    requires r >= 0.0
    ensures x * x + r >= 0.0
    ensures x != 0.0 ==> x * x + r > 0.0
  {
    if x > 0.0 {
      ProductPlus(x, x, r);
    } else if x < 0.0 {
      ProductPlus(-x, -x, r);
      assert (-x) * (-x) == x * x;
    }
  }

  lemma ProductPlus(x: real, y: real, r: real)
    requires x > 0.0 && y > 0.0 && r >= 0.0
    ensures x * y + r > 0.0
  {
  }

  /** Q(x + h·p) = Qx + h·Qp. */
  lemma MatVecAffine(q: Matrix, x: Vector, h: real, p: Vector)
    requires |x| == |p|
    requires forall i :: 0 <= i < |q| ==> |q[i]| == |x|
    ensures MatVec(q, Add(x, Scale(h, p))) == Add(MatVec(q, x), Scale(h, MatVec(q, p)))
  {
    forall i | 0 <= i < |q|
      ensures Dot(q[i], Add(x, Scale(h, p))) == Dot(q[i], x) + h * Dot(q[i], p)
    {
      DotAddRight(q[i], x, Scale(h, p));
      DotScaleRight(q[i], h, p);
    }
    assert forall i | 0 <= i < |q| ::
      MatVec(q, Add(x, Scale(h, p)))[i] == Add(MatVec(q, x), Scale(h, MatVec(q, p)))[i];
  }
}
