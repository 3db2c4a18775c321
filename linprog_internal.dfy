/** The simplex tableau method of `linprog/internal.py`: maximise cᵀx
    subject to Ax = b, x >= 0.

    The tableau Q has m + 1 rows and n + 1 columns.
    - Row 0 is the objective row: Q[0][0] is the objective value and
      Q[0][j] the reduced cost of x_j.
    - Row i >= 1 is the constraint Σ_j Q[i][j]·x_j = Q[i][0].
    - The basis is a list of 1-based column numbers. Entry k belongs to
      row k + 1: its column is kept equal to the unit vector e_{k+1}.

    Every pivot changes the rows in place and the chosen basis entry in
    place, as the source does.  The solution set of the constraint rows
    never changes, so the point read off the final tableau solves Ax = b. */
module Linprog {
  import opened Wrappers
  import opened LinearAlgebra

  /** The exceptions of `simplex_error.py`, plus the outcomes the model
      reports where the source goes on with inf/nan values or fails. */
  datatype SimplexError =
    | NoSolution               // the constraints have no solution (phase 1 optimum below 0)
    | IncorrectInitialSolution // declared in the source, never raised by the modelled code
    | UnboundFunction          // the objective grows without bound
    | ZeroPivot                // gauss_elimination met a zero pivot (numpy: inf/nan)
    | ArtificialInBasis        // phase 1 ended with an artificial variable in the basis
    | FuelExhausted            // the pivot loop did not stop within the fuel given

  /** A tableau of m constraint rows over n variables. */
  predicate Tableau(q: Matrix, m: nat, n: nat) {
    IsMatrix(q, m + 1, n + 1)
  }

  /** The basis names variables 1..n. */
  predicate BasisInRange(basis: seq<nat>, n: nat) {
    forall k :: 0 <= k < |basis| ==> 1 <= basis[k] <= n
  }

  // ---------------------------------------------------------------------
  // Equations and their solutions

  /** z solves Az = b. */
  predicate Solves(a: Matrix, b: Vector, z: Vector)
    requires |a| == |b| && forall i :: 0 <= i < |a| ==> |a[i]| == |z|
  {
    forall i :: 0 <= i < |a| ==> Dot(a[i], z) == b[i]
  }

  /** The residual of a tableau row t = [β] + α at z: α·z - β.  The row's
      equation holds exactly when it is zero. */
  function Eval(t: Vector, z: Vector): real
    requires |t| == |z| + 1
  {
    Dot(t, [-1.0] + z)
  }

  /** z solves every constraint row of the tableau (rows 1..m). */
  predicate System(q: Matrix, z: Vector)
    requires forall i :: 0 <= i < |q| ==> |q[i]| == |z| + 1
  {
    forall i :: 1 <= i < |q| ==> Eval(q[i], z) == 0.0
  }

  lemma EvalSplit(t: Vector, z: Vector)
    requires |t| == |z| + 1
    ensures Eval(t, z) == Dot(t[1..], z) - t[0]
  {
    assert ([-1.0] + z)[1..] == z;
  }

  // ---------------------------------------------------------------------
  // The initial tableau

  /** `np.row_stack((np.hstack(([0], -c)), np.column_stack((b, A))))`. */
  function InitialTableau(c: Vector, a: Matrix, b: Vector): (q: Matrix)
    requires |a| == |b| && forall i :: 0 <= i < |a| ==> |a[i]| == |c|
    ensures Tableau(q, |b|, |c|)
    ensures q[0][0] == 0.0 && forall j :: 0 <= j < |c| ==> q[0][j + 1] == -c[j]
    ensures forall i :: 0 <= i < |b| ==> q[i + 1][0] == b[i]
    ensures forall i, j :: 0 <= i < |b| && 0 <= j < |c| ==> q[i + 1][j + 1] == a[i][j]
  {
    [[0.0] + Scale(-1.0, c)] + seq(|b|, i requires 0 <= i < |b| => [b[i]] + a[i])
  }

  /** The constraint rows of the initial tableau say exactly Az = b. */
  lemma InitialTableauSystem(c: Vector, a: Matrix, b: Vector, z: Vector)
    requires |a| == |b| && forall i :: 0 <= i < |a| ==> |a[i]| == |c|
    requires |z| == |c|
    ensures System(InitialTableau(c, a, b), z) <==> Solves(a, b, z)
  {
    var q := InitialTableau(c, a, b);
    forall i | 0 <= i < |b| ensures Eval(q[i + 1], z) == Dot(a[i], z) - b[i] {
      EvalSplit(q[i + 1], z);
      assert q[i + 1] == [b[i]] + a[i];
      assert q[i + 1][1..] == a[i];
    }
    if System(q, z) {
      forall i | 0 <= i < |b| ensures Dot(a[i], z) == b[i] {
        assert Eval(q[i + 1], z) == 0.0;
      }
    }
    if Solves(a, b, z) {
      forall i | 1 <= i < |q| ensures Eval(q[i], z) == 0.0 {
        assert Eval(q[(i - 1) + 1], z) == Dot(a[i - 1], z) - b[i - 1];
      }
    }
  }

  /** Builds the tableau as a fresh two-dimensional array. */
  method BuildTableau(c: Vector, a: Matrix, b: Vector) returns (tab: array2<real>)
    requires |a| == |b| && forall i :: 0 <= i < |a| ==> |a[i]| == |c|
    ensures fresh(tab) && Rows(tab) == InitialTableau(c, a, b)
  {
    var t := InitialTableau(c, a, b);
    tab := new real[|b| + 1, |c| + 1]((i, j) requires 0 <= i <= |b| && 0 <= j <= |c| => t[i][j]);
    forall i | 0 <= i < |t| ensures Rows(tab)[i] == t[i] {
      assert forall j :: 0 <= j < |t[i]| ==> Rows(tab)[i][j] == t[i][j];
    }
  }

  // ---------------------------------------------------------------------
  // Row arithmetic

  /** numpy's `v / p` for a row v. */
  function Div(v: Vector, p: real): Vector
    requires p != 0.0
  {
    seq(|v|, k requires 0 <= k < |v| => v[k] / p)
  }

  lemma {:induction false} DotDivLeft(v: Vector, p: real, w: Vector)
    requires p != 0.0 && |v| == |w|
    ensures Dot(Div(v, p), w) == Dot(v, w) / p
  {
    if |v| > 0 {
      assert Div(v, p)[1..] == Div(v[1..], p);
      DotDivLeft(v[1..], p, w[1..]);
      assert (v[0] / p) * w[0] == (v[0] * w[0]) / p;
    }
  }

  lemma DotSubLeft(u: Vector, v: Vector, w: Vector)
    requires |u| == |v| == |w|
    ensures Dot(Sub(u, v), w) == Dot(u, w) - Dot(v, w)
  {
    DotComm(Sub(u, v), w);
    DotSubRight(w, u, v);
    DotComm(u, w);
    DotComm(v, w);
  }

  lemma {:induction false} DotScaleLeft(c: real, v: Vector, w: Vector)
    requires |v| == |w|
    ensures Dot(Scale(c, v), w) == c * Dot(v, w)
  {
    if |v| > 0 {
      assert Scale(c, v)[1..] == Scale(c, v[1..]) by {
        forall i | 0 <= i < |v| - 1 ensures Scale(c, v)[1..][i] == Scale(c, v[1..])[i] { }
      }
      DotScaleLeft(c, v[1..], w[1..]);
      assert (c * v[0]) * w[0] + c * Dot(v[1..], w[1..]) == c * (v[0] * w[0] + Dot(v[1..], w[1..]));
    }
  }

  // ---------------------------------------------------------------------
  // The Gauss–Jordan pivot

  /** Row r divided by its pivot entry: `Q[r] /= Q[r][s]`. */
  function PivotRow(q: Matrix, r: nat, s: nat): Vector
    requires r < |q| && s < |q[r]| && q[r][s] != 0.0
  {
    Div(q[r], q[r][s])
  }

  /** One Gauss–Jordan step on row r and column s: `Q[r] /= Q[r][s]`, then
      `Q[i] -= Q[r] * Q[i][s]` for every other row i, the factor Q[i][s]
      being read before row i changes. */
  function Pivot(q: Matrix, r: nat, s: nat): (q': Matrix)
    requires r < |q| && s < |q[r]| && q[r][s] != 0.0 && IsMatrix(q, |q|, |q[r]|)
    ensures IsMatrix(q', |q|, |q[r]|)
  {
    seq(|q|, i requires 0 <= i < |q| =>
      if i == r then PivotRow(q, r, s) else Sub(q[i], Scale(q[i][s], PivotRow(q, r, s))))
  }

  /** Every entry of the pivot written out: row r divided by Q[r][s], and
      every other row less Q[i][s] times that. */
  lemma PivotEntries(q: Matrix, r: nat, s: nat)
    requires r < |q| && s < |q[r]| && q[r][s] != 0.0 && IsMatrix(q, |q|, |q[r]|)
    ensures forall i, k :: 0 <= i < |q| && 0 <= k < |q[r]| ==>
      Pivot(q, r, s)[i][k] == if i == r then q[r][k] / q[r][s] else q[i][k] - (q[r][k] / q[r][s]) * q[i][s]
  {
    forall i, k | 0 <= i < |q| && 0 <= k < |q[r]|
      ensures Pivot(q, r, s)[i][k] == if i == r then q[r][k] / q[r][s] else q[i][k] - (q[r][k] / q[r][s]) * q[i][s]
    {
      assert PivotRow(q, r, s)[k] == q[r][k] / q[r][s];
    }
  }

  /** Column j of q is the unit vector e_k. */
  predicate UnitColumn(q: Matrix, j: nat, k: nat) {
    forall i :: 0 <= i < |q| ==> j < |q[i]| && q[i][j] == (if i == k then 1.0 else 0.0)
  }

  /** Column basis[k] of q is e_{k+1} for every entry k of the basis. */
  predicate BasisColumns(q: Matrix, basis: seq<nat>) {
    forall k :: 0 <= k < |basis| ==> UnitColumn(q, basis[k], k + 1)
  }

  /** The pivot turns column s into e_r. */
  lemma PivotMakesUnit(q: Matrix, r: nat, s: nat)
    requires r < |q| && s < |q[r]| && q[r][s] != 0.0 && IsMatrix(q, |q|, |q[r]|)
    ensures UnitColumn(Pivot(q, r, s), s, r)
  {
    var q' := Pivot(q, r, s);
    var p := q[r][s];
    forall i | 0 <= i < |q| ensures q'[i][s] == (if i == r then 1.0 else 0.0) {
      assert PivotRow(q, r, s)[s] == p / p == 1.0;
      if i != r {
        assert q'[i][s] == q[i][s] - q[i][s] * 1.0;
      }
    }
  }

  /** A unit column e_k with k other than the pivot row survives the pivot. */
  lemma PivotKeepsUnit(q: Matrix, r: nat, s: nat, j: nat, k: nat)
    requires r < |q| && s < |q[r]| && q[r][s] != 0.0 && IsMatrix(q, |q|, |q[r]|)
    requires UnitColumn(q, j, k) && k != r
    ensures UnitColumn(Pivot(q, r, s), j, k)
  {
    var q' := Pivot(q, r, s);
    assert q[r][j] == 0.0;
    assert PivotRow(q, r, s)[j] == 0.0;
    forall i | 0 <= i < |q| ensures q'[i][j] == q[i][j] {
      if i != r {
        assert q'[i][j] == q[i][j] - q[i][s] * 0.0;
      }
    }
  }

  /** After a pivot on (r, s) and `basis[r - 1] = s`, every basis column is
      again the unit vector of its row. */
  lemma PivotKeepsBasis(q: Matrix, basis: seq<nat>, r: nat, s: nat)
    requires 1 <= r < |q| && s < |q[r]| && q[r][s] != 0.0 && IsMatrix(q, |q|, |q[r]|)
    requires r <= |basis| && BasisColumns(q, basis)
    ensures BasisColumns(Pivot(q, r, s), basis[r - 1 := s])
  {
    var basis' := basis[r - 1 := s];
    forall k | 0 <= k < |basis'| ensures UnitColumn(Pivot(q, r, s), basis'[k], k + 1) {
      if k == r - 1 {
        PivotMakesUnit(q, r, s);
      } else {
        PivotKeepsUnit(q, r, s, basis[k], k + 1);
      }
    }
  }

  /** The residuals of the pivoted rows, in terms of the old ones. */
  lemma EvalPivot(q: Matrix, r: nat, s: nat, z: Vector, i: nat)
    requires r < |q| && s < |q[r]| && q[r][s] != 0.0 && IsMatrix(q, |q|, |z| + 1)
    requires i < |q|
    ensures Eval(Pivot(q, r, s)[i], z) ==
      if i == r then Eval(q[r], z) / q[r][s]
      else Eval(q[i], z) - q[i][s] * (Eval(q[r], z) / q[r][s])
  {
    var e := [-1.0] + z;
    var pr := PivotRow(q, r, s);
    DotDivLeft(q[r], q[r][s], e);
    if i != r {
      DotSubLeft(q[i], Scale(q[i][s], pr), e);
      DotScaleLeft(q[i][s], pr, e);
    }
  }

  /** A pivot on a constraint row keeps the solution set of the constraints:
      both directions, since the pivot entry is not zero. */
  lemma PivotSystem(q: Matrix, r: nat, s: nat, z: Vector)
    requires 1 <= r < |q| && s < |q[r]| && q[r][s] != 0.0 && IsMatrix(q, |q|, |z| + 1)
    ensures System(Pivot(q, r, s), z) <==> System(q, z)
  {
    var q' := Pivot(q, r, s);
    var p := q[r][s];
    forall i | 0 <= i < |q|
      ensures Eval(q'[i], z) ==
        if i == r then Eval(q[r], z) / p else Eval(q[i], z) - q[i][s] * (Eval(q[r], z) / p)
    {
      EvalPivot(q, r, s, z, i);
    }
    if System(q, z) {
      assert Eval(q[r], z) == 0.0;
      forall i | 1 <= i < |q| ensures Eval(q'[i], z) == 0.0 {
      }
    }
    if System(q', z) {
      assert Eval(q'[r], z) == 0.0;
      assert Eval(q[r], z) == 0.0 by {
        assert Eval(q[r], z) == (Eval(q[r], z) / p) * p;
      }
      forall i | 1 <= i < |q| ensures Eval(q[i], z) == 0.0 {
        assert Eval(q'[i], z) == 0.0;
      }
    }
  }

  /** `Q[r] /= p`, in place. */
  method DivideRow(tab: array2<real>, r: nat, p: real)
    requires r < tab.Length0 && p != 0.0
    modifies tab
    ensures forall i, k :: 0 <= i < tab.Length0 && 0 <= k < tab.Length1 ==>
      tab[i, k] == if i == r then old(tab[r, k]) / p else old(tab[i, k])
  {
    var j := 0;
    while j < tab.Length1
      invariant 0 <= j <= tab.Length1
      invariant forall i, k :: 0 <= i < tab.Length0 && 0 <= k < tab.Length1 ==>
        tab[i, k] == if i == r && k < j then old(tab[r, k]) / p else old(tab[i, k])
    {
      tab[r, j] := tab[r, j] / p;
      j := j + 1;
    }
  }

  /** `Q[i] -= Q[r] * factor`, in place, for a row i other than r. */
  method SubtractRow(tab: array2<real>, i: nat, r: nat, factor: real)
    requires i < tab.Length0 && r < tab.Length0 && i != r
    modifies tab
    ensures forall i', k :: 0 <= i' < tab.Length0 && 0 <= k < tab.Length1 ==>
      tab[i', k] == if i' == i then old(tab[i, k]) - old(tab[r, k]) * factor else old(tab[i', k])
  {
    var j := 0;
    while j < tab.Length1
      invariant 0 <= j <= tab.Length1
      invariant forall i', k :: 0 <= i' < tab.Length0 && 0 <= k < tab.Length1 ==>
        tab[i', k] == if i' == i && k < j then old(tab[i, k]) - old(tab[r, k]) * factor else old(tab[i', k])
    {
      tab[i, j] := tab[i, j] - tab[r, j] * factor;
      j := j + 1;
    }
  }

  /** Clears column s of row i against row r once row r has been divided
      by q[r][s]: row i becomes row i of Pivot(q, r, s), and every other row
      stays as it was. */
  method EliminateRow(tab: array2<real>, i: nat, r: nat, s: nat, ghost q: Matrix)
    requires i < tab.Length0 && r < tab.Length0 && i != r && s < tab.Length1
    requires IsMatrix(q, tab.Length0, tab.Length1) && q[r][s] != 0.0
    requires forall k :: 0 <= k < tab.Length1 ==> tab[r, k] == q[r][k] / q[r][s] && tab[i, k] == q[i][k]
    modifies tab
    ensures forall i', k :: 0 <= i' < tab.Length0 && 0 <= k < tab.Length1 ==>
      tab[i', k] == if i' == i then Pivot(q, r, s)[i][k] else old(tab[i', k])
  {
    PivotEntries(q, r, s);
    SubtractRow(tab, i, r, tab[i, s]);
  }

  /** The pivot on (r, s), in place: row r is divided by its entry in
      column s, then every other row is cleared in that column. */
  method PivotInPlace(tab: array2<real>, r: nat, s: nat)
    requires r < tab.Length0 && s < tab.Length1 && tab[r, s] != 0.0
    modifies tab
    ensures Rows(tab) == Pivot(old(Rows(tab)), r, s)
  {
    ghost var q := Rows(tab);
    DivideRow(tab, r, tab[r, s]);
    var i := 0;
    while i < tab.Length0
      invariant 0 <= i <= tab.Length0
      invariant forall k :: 0 <= k < tab.Length1 ==> tab[r, k] == q[r][k] / q[r][s]
      invariant forall i', k :: 0 <= i' < tab.Length0 && i' != r && 0 <= k < tab.Length1 ==>
        tab[i', k] == if i' < i then Pivot(q, r, s)[i'][k] else q[i'][k]
    {
      if i != r {
        EliminateRow(tab, i, r, s, q);
      }
      i := i + 1;
    }
    PivotEntries(q, r, s);
    forall i | 0 <= i < tab.Length0 ensures Rows(tab)[i] == Pivot(q, r, s)[i] {
      assert forall k :: 0 <= k < tab.Length1 ==> Rows(tab)[i][k] == Pivot(q, r, s)[i][k];
    }
  }

  // ---------------------------------------------------------------------
  // enumerate1 and gauss_elimination

  /** `enumerate1(iterable)`: the pairs (1, e₀), (2, e₁), ... in order. */
  method Enumerate1<T>(items: seq<T>) returns (pairs: seq<(nat, T)>)
    ensures |pairs| == |items|
    ensures forall k :: 0 <= k < |items| ==> pairs[k] == (k + 1, items[k])
  {
    pairs := [];
    var i := 1;
    for t := 0 to |items|
      invariant i == t + 1 && |pairs| == t
      invariant forall k :: 0 <= k < t ==> pairs[k] == (k + 1, items[k])
    {
      pairs := pairs + [(i, items[t])];
      i := i + 1;
    }
  }

  /** `gauss_elimination(Q, basis)` over the first t basis entries: for each
      pair (i, j) of `enumerate1(basis)`, the pivot on row i and column j.
      None when one of these pivots is zero. */
  function Eliminate(q: Matrix, n: nat, basis: seq<nat>, t: nat): (r: Option<Matrix>)
    requires Tableau(q, |basis|, n) && BasisInRange(basis, n) && t <= |basis|
    ensures r.Some? ==> Tableau(r.value, |basis|, n)
  {
    if t == 0 then Some(q)
    else
      match Eliminate(q, n, basis, t - 1)
      case None => None
      case Some(q1) =>
        if q1[t][basis[t - 1]] == 0.0 then None else Some(Pivot(q1, t, basis[t - 1]))
  }

  /** After elimination over the first t entries, their columns are the unit
      vectors of their rows. */
  lemma {:induction false} EliminateBasisColumns(q: Matrix, n: nat, basis: seq<nat>, t: nat)
    requires Tableau(q, |basis|, n) && BasisInRange(basis, n) && t <= |basis|
    ensures Eliminate(q, n, basis, t).Some? ==> BasisColumns(Eliminate(q, n, basis, t).value, basis[..t])
  {
    if t > 0 && Eliminate(q, n, basis, t).Some? {
      var q1 := Eliminate(q, n, basis, t - 1).value;
      var prefix := basis[..t];
      assert prefix[..t - 1] == basis[..t - 1] && prefix[t - 1] == basis[t - 1];
      assert Eliminate(q, n, basis, t).value == Pivot(q1, t, prefix[t - 1]);
      EliminateBasisColumns(q, n, basis, t - 1);
      EliminationStepColumns(q1, prefix);
    }
  }

  /** One elimination step on row t and column basis[t - 1] keeps the
      earlier basis columns unit and makes that one unit as well. */
  lemma EliminationStepColumns(q1: Matrix, prefix: seq<nat>)
    requires |prefix| > 0 && |prefix| < |q1| && IsMatrix(q1, |q1|, |q1[0]|)
    requires prefix[|prefix| - 1] < |q1[0]| && q1[|prefix|][prefix[|prefix| - 1]] != 0.0
    requires BasisColumns(q1, prefix[..|prefix| - 1])
    ensures BasisColumns(Pivot(q1, |prefix|, prefix[|prefix| - 1]), prefix)
  {
    var t := |prefix|;
    var s := prefix[t - 1];
    forall k | 0 <= k < t ensures UnitColumn(Pivot(q1, t, s), prefix[k], k + 1) {
      if k == t - 1 {
        PivotMakesUnit(q1, t, s);
      } else {
        assert UnitColumn(q1, prefix[..t - 1][k], k + 1);
        PivotKeepsUnit(q1, t, s, prefix[k], k + 1);
      }
    }
  }

  /** Elimination keeps the solution set of the constraint rows. */
  lemma {:induction false} EliminateSystem(q: Matrix, n: nat, basis: seq<nat>, t: nat, z: Vector)
    requires Tableau(q, |basis|, n) && BasisInRange(basis, n) && t <= |basis| && |z| == n
    ensures Eliminate(q, n, basis, t).Some? ==>
      (System(Eliminate(q, n, basis, t).value, z) <==> System(q, z))
  {
    if t > 0 && Eliminate(q, n, basis, t).Some? {
      EliminateSystem(q, n, basis, t - 1, z);
      PivotSystem(Eliminate(q, n, basis, t - 1).value, t, basis[t - 1], z);
    }
  }

  /** `gauss_elimination(Q, basis)`, in place.  It stops with false at a
      zero pivot, where numpy would fill the tableau with inf/nan. */
  method GaussElimination(tab: array2<real>, n: nat, basis: seq<nat>) returns (ok: bool)
    requires tab.Length0 == |basis| + 1 && tab.Length1 == n + 1 && BasisInRange(basis, n)
    modifies tab
    ensures ok <==> Eliminate(old(Rows(tab)), n, basis, |basis|).Some?
    ensures ok ==> Rows(tab) == Eliminate(old(Rows(tab)), n, basis, |basis|).value
  {
    ghost var q := Rows(tab);
    var pairs := Enumerate1(basis);
    for t := 0 to |pairs|
      invariant Eliminate(q, n, basis, t) == Some(Rows(tab))
    {
      var (i, j) := pairs[t];
      assert i == t + 1 && j == basis[t];
      EliminateNext(q, n, basis, t);
      if tab[i, j] == 0.0 {
        EliminateNoneStays(q, n, basis, t + 1, |basis|);
        return false;
      }
      PivotInPlace(tab, i, j);
    }
    return true;
  }

  /** One more entry of elimination: the pivot on row t + 1 and column
      basis[t], or None when that pivot is zero. */
  lemma EliminateNext(q: Matrix, n: nat, basis: seq<nat>, t: nat)
    requires Tableau(q, |basis|, n) && BasisInRange(basis, n) && t < |basis|
    requires Eliminate(q, n, basis, t).Some?
    ensures var q1 := Eliminate(q, n, basis, t).value;
      Eliminate(q, n, basis, t + 1) == if q1[t + 1][basis[t]] == 0.0 then None else Some(Pivot(q1, t + 1, basis[t]))
  {
  }

  /** Once a pivot was zero, elimination over more entries fails too. */
  lemma {:induction false} EliminateNoneStays(q: Matrix, n: nat, basis: seq<nat>, t: nat, u: nat)
    requires Tableau(q, |basis|, n) && BasisInRange(basis, n) && t <= u <= |basis|
    requires Eliminate(q, n, basis, t).None?
    ensures Eliminate(q, n, basis, u).None?
    decreases u - t
  {
    if t < u {
      EliminateNoneStays(q, n, basis, t + 1, u);
    }
  }

  // ---------------------------------------------------------------------
  // Bland's rule

  /** `min(j for j in range(1, n + 1) if Q[0][j] < 0)`: the entering
      column, None when no reduced cost is negative. */
  method ChooseEntering(tab: array2<real>, n: nat) returns (s: Option<nat>)
    requires 1 <= tab.Length0 && tab.Length1 == n + 1
    ensures s.None? <==> Optimal(Rows(tab), n)
    ensures s.Some? ==> EnteringColumn(Rows(tab), n, s.value)
  {
    ghost var q := Rows(tab);
    assert forall k :: 0 <= k <= n ==> q[0][k] == tab[0, k];
    var j := 1;
    while j <= n
      invariant 1 <= j <= n + 1
      invariant forall k :: 1 <= k < j ==> q[0][k] >= 0.0
    {
      if tab[0, j] < 0.0 {
        return Some(j);
      }
      j := j + 1;
    }
    return None;
  }

  /** The key of row i: `(abs(Q[0][s] / Q[i][s]), basis[i - 1])`. */
  function Key(top: real, entry: real, basisEntry: int): (real, int)
    requires entry != 0.0
  {
    (Abs(top / entry), basisEntry)
  }

  /** Python's order on pairs: by the first component, ties by the second. */
  predicate KeyLess(k1: (real, int), k2: (real, int)) {
    k1.0 < k2.0 || (k1.0 == k2.0 && k1.1 < k2.1)
  }

  /** Row r has the least key among the rows with a positive entry in
      column s, and a strictly smaller key than every such row before it:
      the row Python's `min` returns, which keeps the first of equal keys. */
  predicate FirstLeastKey(q: Matrix, basis: seq<nat>, s: nat, r: nat)
    requires |q| == |basis| + 1 && (forall i :: 0 <= i < |q| ==> s < |q[i]|)
    requires 1 <= r < |q| && q[r][s] > 0.0
  {
    (forall i :: 1 <= i < |q| && q[i][s] > 0.0 ==>
      !KeyLess(Key(q[0][s], q[i][s], basis[i - 1]), Key(q[0][s], q[r][s], basis[r - 1]))) &&
    (forall i :: 1 <= i < r && q[i][s] > 0.0 ==>
      KeyLess(Key(q[0][s], q[r][s], basis[r - 1]), Key(q[0][s], q[i][s], basis[i - 1])))
  }

  /** `min(rs, key=...)` over the rows with `Q[i][s] > 0`: the first row of
      least key, None when no entry of column s is positive. */
  method ChooseLeaving(tab: array2<real>, basis: array<nat>, s: nat) returns (r: Option<nat>)
    requires tab.Length0 == basis.Length + 1 && s < tab.Length1
    ensures r.None? <==> forall i :: 1 <= i < tab.Length0 ==> Rows(tab)[i][s] <= 0.0
    ensures r.Some? ==> 1 <= r.value < tab.Length0 && Rows(tab)[r.value][s] > 0.0
    ensures r.Some? ==> FirstLeastKey(Rows(tab), basis[..], s, r.value)
  {
    r := None;
    var i := 1;
    while i < tab.Length0
      invariant 1 <= i <= tab.Length0
      invariant r.None? <==> forall k :: 1 <= k < i ==> tab[k, s] <= 0.0
      invariant r.Some? ==> 1 <= r.value < i && tab[r.value, s] > 0.0
      invariant r.Some? ==> forall k :: 1 <= k < i && tab[k, s] > 0.0 ==>
        !KeyLess(Key(tab[0, s], tab[k, s], basis[k - 1]), Key(tab[0, s], tab[r.value, s], basis[r.value - 1]))
      invariant r.Some? ==> forall k :: 1 <= k < r.value && tab[k, s] > 0.0 ==>
        KeyLess(Key(tab[0, s], tab[r.value, s], basis[r.value - 1]), Key(tab[0, s], tab[k, s], basis[k - 1]))
    {
      if tab[i, s] > 0.0 {
        if r.None? || KeyLess(Key(tab[0, s], tab[i, s], basis[i - 1]), Key(tab[0, s], tab[r.value, s], basis[r.value - 1])) {
          r := Some(i);
        }
      }
      i := i + 1;
    }
    ghost var q := Rows(tab);
    assert forall k :: 0 <= k < tab.Length0 ==> q[k][s] == tab[k, s];
  }

  /** The reduced costs of the tableau are all non-negative: Bland's rule
      finds no entering column. */
  predicate Optimal(q: Matrix, n: nat)
    requires |q| > 0 && |q[0]| == n + 1
  {
    forall j :: 1 <= j <= n ==> q[0][j] >= 0.0
  }

  /** Column s is the one Bland's rule enters: the least column whose
      reduced cost is negative. */
  predicate EnteringColumn(q: Matrix, n: nat, s: nat)
    requires |q| > 0 && |q[0]| == n + 1
  {
    1 <= s <= n && q[0][s] < 0.0 && forall j :: 1 <= j < s ==> q[0][j] >= 0.0
  }

  // ---------------------------------------------------------------------
  // The pivot loop

  /** What the pivot loop keeps: q is a tableau for Az = b whose basis
      columns are the unit vectors of their rows, whose constraint rows
      have exactly the solutions of Az = b, and whose objective row, at
      every such solution z, has the residual -cᵀz: Q[0][1..]·z - Q[0][0]
      == -cᵀz. */
  ghost predicate Represents(q: Matrix, basis: seq<nat>, c: Vector, a: Matrix, b: Vector, n: nat)
    requires |c| == n && |a| == |b| && forall i :: 0 <= i < |a| ==> |a[i]| == n
  {
    Tableau(q, |b|, n) && |basis| == |b| && BasisInRange(basis, n) && BasisColumns(q, basis) &&
    (forall z :: |z| == n && System(q, z) ==> Solves(a, b, z)) &&
    (forall z :: |z| == n && Solves(a, b, z) ==> System(q, z)) &&
    (forall z {:trigger System(q, z)} :: |z| == n && System(q, z) ==> Eval(q[0], z) == -Dot(c, z))
  }

  /** The objective row of the initial tableau, [0] + (-c), has the
      residual -cᵀz at every z. */
  lemma InitialObjective(c: Vector, a: Matrix, b: Vector, z: Vector)
    requires |a| == |b| && forall i :: 0 <= i < |a| ==> |a[i]| == |c|
    requires |z| == |c|
    ensures Eval(InitialTableau(c, a, b)[0], z) == -Dot(c, z)
  {
    var q := InitialTableau(c, a, b);
    EvalSplit(q[0], z);
    assert q[0][1..] == Scale(-1.0, c);
    DotScaleLeft(-1.0, c, z);
  }

  /** At a solution of the constraint rows, a pivot on a constraint row
      leaves the residual of the objective row as it was. */
  lemma PivotObjective(q: Matrix, r: nat, s: nat, z: Vector)
    requires 1 <= r < |q| && s < |q[r]| && q[r][s] != 0.0 && IsMatrix(q, |q|, |z| + 1)
    requires System(q, z)
    ensures Eval(Pivot(q, r, s)[0], z) == Eval(q[0], z)
  {
    EvalPivot(q, r, s, z, 0);
    assert Eval(q[r], z) == 0.0;
  }

  /** The same for elimination, pivot after pivot. */
  lemma {:induction false} EliminateObjective(q: Matrix, n: nat, basis: seq<nat>, t: nat, z: Vector)
    requires Tableau(q, |basis|, n) && BasisInRange(basis, n) && t <= |basis| && |z| == n
    requires System(q, z)
    ensures Eliminate(q, n, basis, t).Some? ==> Eval(Eliminate(q, n, basis, t).value[0], z) == Eval(q[0], z)
  {
    if t > 0 && Eliminate(q, n, basis, t).Some? {
      var q1 := Eliminate(q, n, basis, t - 1).value;
      EliminateObjective(q, n, basis, t - 1, z);
      EliminateSystem(q, n, basis, t - 1, z);
      PivotObjective(q1, t, basis[t - 1], z);
    }
  }

  /** The initial tableau after elimination of a basis represents
      max cᵀz subject to Az = b. */
  lemma EliminateRepresents(c: Vector, a: Matrix, b: Vector, basis: seq<nat>)
    requires |a| == |b| == |basis| && forall i :: 0 <= i < |a| ==> |a[i]| == |c|
    requires BasisInRange(basis, |c|)
    requires Eliminate(InitialTableau(c, a, b), |c|, basis, |basis|).Some?
    ensures Represents(Eliminate(InitialTableau(c, a, b), |c|, basis, |basis|).value, basis, c, a, b, |c|)
  {
    var q0 := InitialTableau(c, a, b);
    var q := Eliminate(q0, |c|, basis, |basis|).value;
    EliminateBasisColumns(q0, |c|, basis, |basis|);
    assert basis[..|basis|] == basis;
    forall z | |z| == |c|
      ensures System(q, z) <==> Solves(a, b, z)
      ensures System(q, z) ==> Eval(q[0], z) == -Dot(c, z)
    {
      EliminateSystem(q0, |c|, basis, |basis|, z);
      InitialTableauSystem(c, a, b, z);
      if System(q, z) {
        EliminateObjective(q0, |c|, basis, |basis|, z);
        InitialObjective(c, a, b, z);
      }
    }
  }

  /** A pivot with a non-zero pivot entry, followed by `basis[r - 1] = s`,
      keeps the representation. */
  lemma PivotRepresents(q: Matrix, basis: seq<nat>, c: Vector, a: Matrix, b: Vector, n: nat, r: nat, s: nat)
    requires |c| == n && |a| == |b| && forall i :: 0 <= i < |a| ==> |a[i]| == n
    requires Represents(q, basis, c, a, b, n)
    requires 1 <= r <= |b| && 1 <= s <= n && q[r][s] != 0.0
    ensures Represents(Pivot(q, r, s), basis[r - 1 := s], c, a, b, n)
  {
    var q' := Pivot(q, r, s);
    PivotKeepsBasis(q, basis, r, s);
    forall z | |z| == n
      ensures System(q', z) <==> Solves(a, b, z)
      ensures System(q', z) ==> Eval(q'[0], z) == -Dot(c, z)
    {
      PivotSystem(q, r, s, z);
      if System(q', z) {
        PivotObjective(q, r, s, z);
      }
    }
  }

  /** What one pass of the `while True` loop of `solve_canonical_impl`
      found: the tableau is optimal, or it pivoted on (r, s), or column s
      entered and no row can leave. */
  datatype Pass = AtOptimum | Pivoted(r: nat, s: nat) | Unbounded(s: nat)

  /** One pass of the pivot loop: choose s by Bland's rule; if there is
      none, the tableau is optimal; otherwise choose r by the least key and
      pivot on (r, s), or report that no entry of column s is positive. */
  method SimplexPass(tab: array2<real>, basis: array<nat>, ghost c: Vector, ghost a: Matrix, ghost b: Vector, n: nat)
    returns (pass: Pass)
    requires |c| == n && |a| == |b| && forall i :: 0 <= i < |a| ==> |a[i]| == n
    requires tab.Length0 == basis.Length + 1 && tab.Length1 == n + 1
    requires Represents(Rows(tab), basis[..], c, a, b, n)
    modifies tab, basis
    ensures Represents(Rows(tab), basis[..], c, a, b, n)
    ensures pass.AtOptimum? <==> Optimal(old(Rows(tab)), n)
    ensures !pass.AtOptimum? ==> EnteringColumn(old(Rows(tab)), n, pass.s)
    ensures pass.Unbounded? ==> forall i :: 1 <= i < tab.Length0 ==> old(Rows(tab))[i][pass.s] <= 0.0
    ensures pass.Unbounded? ==> exists d :: ImprovingRay(c, a, d)
    ensures pass.Pivoted? ==> (1 <= pass.r < tab.Length0 && 1 <= pass.s <= n &&
      old(Rows(tab))[pass.r][pass.s] > 0.0 && FirstLeastKey(old(Rows(tab)), old(basis[..]), pass.s, pass.r))
    ensures pass.Pivoted? ==> (1 <= pass.r < tab.Length0 && 1 <= pass.s <= n && old(Rows(tab))[pass.r][pass.s] != 0.0 &&
      Rows(tab) == Pivot(old(Rows(tab)), pass.r, pass.s) && basis[..] == old(basis[..])[pass.r - 1 := pass.s])
    ensures !pass.Pivoted? ==> Rows(tab) == old(Rows(tab)) && basis[..] == old(basis[..])
  {
    ghost var q, bs := Rows(tab), basis[..];
    var s := ChooseEntering(tab, n);
    if s.None? {
      return AtOptimum;
    }
    var r := ChooseLeaving(tab, basis, s.value);
    assert Rows(tab) == q && basis[..] == bs;
    if r.None? {
      UnboundedRay(q, basis[..], c, a, b, n, s.value);
      return Unbounded(s.value);
    }
    assert tab[r.value, s.value] == q[r.value][s.value];
    PivotBasis(tab, basis, c, a, b, n, r.value, s.value);
    return Pivoted(r.value, s.value);
  }

  /** The pivot on (r, s) followed by `basis[r - 1] = s`. */
  method PivotBasis(tab: array2<real>, basis: array<nat>, ghost c: Vector, ghost a: Matrix, ghost b: Vector, n: nat, r: nat, s: nat)
    requires |c| == n && |a| == |b| && forall i :: 0 <= i < |a| ==> |a[i]| == n
    requires tab.Length0 == basis.Length + 1 && tab.Length1 == n + 1
    requires Represents(Rows(tab), basis[..], c, a, b, n)
    requires 1 <= r <= |b| && 1 <= s <= n && tab[r, s] != 0.0
    modifies tab, basis
    ensures Rows(tab) == Pivot(old(Rows(tab)), r, s) && basis[..] == old(basis[..])[r - 1 := s]
    ensures Represents(Rows(tab), basis[..], c, a, b, n)
  {
    ghost var q, bs := Rows(tab), basis[..];
    assert q[r][s] == tab[r, s];
    PivotRepresents(q, bs, c, a, b, n, r, s);
    PivotInPlace(tab, r, s);
    basis[r - 1] := s;
    assert basis[..] == bs[r - 1 := s];
  }

  /** `solve_canonical_impl(basis, c, A, b)`: builds the tableau, eliminates
      the given basis and pivots by Bland's rule until no reduced cost is
      negative.  The basis list is changed in place.  The source loops with
      `while True`; here the loop gives up after fuel + 1 passes. */
  method SolveCanonicalImpl(basis: array<nat>, c: Vector, a: Matrix, b: Vector, fuel: nat)
    returns (res: Result<array2<real>, SimplexError>)
    requires basis.Length == |b| == |a| && forall i :: 0 <= i < |a| ==> |a[i]| == |c|
    requires BasisInRange(basis[..], |c|)
    modifies basis
    ensures BasisInRange(basis[..], |c|)
    ensures res.Failure? ==> res.error in {ZeroPivot, UnboundFunction, FuelExhausted}
    ensures res.Failure? && res.error == UnboundFunction ==> exists d :: ImprovingRay(c, a, d)
    ensures res.Success? ==> fresh(res.value)
    ensures res.Success? ==> res.value.Length0 == |b| + 1 && res.value.Length1 == |c| + 1
    ensures res.Success? ==> Represents(Rows(res.value), basis[..], c, a, b, |c|)
    ensures res.Success? ==> Optimal(Rows(res.value), |c|)
    ensures res.Success? ==> forall z {:trigger Solves(a, b, z)} :: |z| == |c| && NonNegative(z) && Solves(a, b, z) ==> Dot(c, z) <= res.value[0, 0]
  {
    var n := |c|;
    var tab := BuildTableau(c, a, b);
    var ok := GaussElimination(tab, n, basis[..]);
    if !ok {
      return Failure(ZeroPivot);
    }
    EliminateRepresents(c, a, b, basis[..]);
    var left := fuel;
    while true
      invariant fresh(tab) && tab.Length0 == basis.Length + 1 && tab.Length1 == n + 1
      invariant Represents(Rows(tab), basis[..], c, a, b, n)
      decreases left
    {
      var pass := SimplexPass(tab, basis, c, a, b, n);
      if pass.AtOptimum? {
        forall z | |z| == n && NonNegative(z) && Solves(a, b, z) ensures Dot(c, z) <= tab[0, 0] {
          OptimalBound(Rows(tab), basis[..], c, a, b, n, z);
        }
        return Success(tab);
      } else if pass.Unbounded? {
        return Failure(UnboundFunction);
      }
      if left == 0 {
        return Failure(FuelExhausted);
      }
      left := left - 1;
    }
  }

  // ---------------------------------------------------------------------
  // Reading the solution off the tableau

  /** The point `solve_canonical` fills: zeros, then `x[j - 1] = Q[i][0]`
      for the first t pairs (i, j) of `enumerate1(basis)`. */
  function Assigned(q: Matrix, n: nat, basis: seq<nat>, t: nat): (x: Vector)
    requires Tableau(q, |basis|, n) && BasisInRange(basis, n) && t <= |basis|
    ensures |x| == n
  {
    if t == 0 then Zero(n) else Assigned(q, n, basis, t - 1)[basis[t - 1] - 1 := q[t][0]]
  }

  /** Unit basis columns name distinct variables. */
  lemma BasisDistinct(q: Matrix, n: nat, basis: seq<nat>)
    requires Tableau(q, |basis|, n) && BasisColumns(q, basis)
    ensures forall k1, k2 :: 0 <= k1 < k2 < |basis| ==> basis[k1] != basis[k2]
  {
    forall k1, k2 | 0 <= k1 < k2 < |basis| ensures basis[k1] != basis[k2] {
      assert UnitColumn(q, basis[k1], k1 + 1) && UnitColumn(q, basis[k2], k2 + 1);
      assert q[k1 + 1][basis[k1]] == 1.0 && q[k1 + 1][basis[k2]] == 0.0;
    }
  }

  lemma {:induction false} AssignedUntouched(q: Matrix, n: nat, basis: seq<nat>, t: nat, j: nat)
    requires Tableau(q, |basis|, n) && BasisInRange(basis, n) && t <= |basis| && j < n
    requires forall k :: 0 <= k < t ==> basis[k] != j + 1
    ensures Assigned(q, n, basis, t)[j] == 0.0
  {
    if t > 0 {
      AssignedUntouched(q, n, basis, t - 1, j);
    }
  }

  lemma {:induction false} AssignedAt(q: Matrix, n: nat, basis: seq<nat>, t: nat, k: nat)
    requires Tableau(q, |basis|, n) && BasisInRange(basis, n) && t <= |basis| && k < t
    requires forall k1, k2 :: 0 <= k1 < k2 < |basis| ==> basis[k1] != basis[k2]
    ensures Assigned(q, n, basis, t)[basis[k] - 1] == q[k + 1][0]
  {
    if k < t - 1 {
      AssignedAt(q, n, basis, t - 1, k);
    }
  }

  /** Changing entry j of v changes u·v by u[j] times the change. */
  lemma {:induction false} DotUpdate(u: Vector, v: Vector, j: nat, y: real)
    requires |u| == |v| && j < |v|
    ensures Dot(u, v[j := y]) == Dot(u, v) + u[j] * (y - v[j])
  {
    if j == 0 {
      assert v[j := y][1..] == v[1..];
      assert u[0] * y == u[0] * v[0] + u[0] * (y - v[0]);
    } else {
      assert v[j := y][1..] == v[1..][j - 1 := y];
      DotUpdate(u[1..], v[1..], j - 1, y);
    }
  }

  /** Row i of a tableau with unit basis columns, applied to the point
      filled after t pairs: Q[i][0] once row i's pair is done, 0 before;
      0 for the objective row, which is zero in every basis column. */
  lemma {:induction false} AssignedDot(q: Matrix, n: nat, basis: seq<nat>, t: nat, i: nat)
    requires Tableau(q, |basis|, n) && BasisInRange(basis, n) && BasisColumns(q, basis)
    requires t <= |basis| && i <= |basis|
    ensures Dot(q[i][1..], Assigned(q, n, basis, t)) == if 1 <= i <= t then q[i][0] else 0.0
  {
    if t == 0 {
      DotZeroRight(q[i][1..], Zero(n));
    } else {
      var prev := Assigned(q, n, basis, t - 1);
      var j := basis[t - 1] - 1;
      AssignedDot(q, n, basis, t - 1, i);
      BasisDistinct(q, n, basis);
      AssignedUntouched(q, n, basis, t - 1, j);
      DotUpdate(q[i][1..], prev, j, q[t][0]);
      assert UnitColumn(q, basis[t - 1], t);
      assert q[i][1..][j] == q[i][basis[t - 1]] == if i == t then 1.0 else 0.0;
    }
  }

  /** The point read off a tableau whose basis columns are unit vectors:
      it takes Q[k + 1][0] at the k-th basis variable, is zero outside the
      basis, and solves the constraint rows. */
  lemma BasicSolution(q: Matrix, n: nat, basis: seq<nat>)
    requires Tableau(q, |basis|, n) && BasisInRange(basis, n) && BasisColumns(q, basis)
    ensures forall k :: 0 <= k < |basis| ==> Assigned(q, n, basis, |basis|)[basis[k] - 1] == q[k + 1][0]
    ensures forall j :: 0 <= j < n && j + 1 !in basis ==> Assigned(q, n, basis, |basis|)[j] == 0.0
    ensures System(q, Assigned(q, n, basis, |basis|))
  {
    var x := Assigned(q, n, basis, |basis|);
    BasisDistinct(q, n, basis);
    forall k | 0 <= k < |basis| ensures x[basis[k] - 1] == q[k + 1][0] {
      AssignedAt(q, n, basis, |basis|, k);
    }
    forall j | 0 <= j < n && j + 1 !in basis ensures x[j] == 0.0 {
      AssignedUntouched(q, n, basis, |basis|, j);
    }
    forall i | 1 <= i < |q| ensures Eval(q[i], x) == 0.0 {
      AssignedDot(q, n, basis, |basis|, i);
      EvalSplit(q[i], x);
    }
  }

  // ---------------------------------------------------------------------
  // What the final tableau says about the program

  /** Every entry of v is at least 0. */
  predicate NonNegative(v: Vector) {
    forall j :: 0 <= j < |v| ==> v[j] >= 0.0
  }

  lemma {:induction false} DotNonNegative(u: Vector, v: Vector)
    requires |u| == |v| && NonNegative(u) && NonNegative(v)
    ensures Dot(u, v) >= 0.0
  {
    if |u| > 0 {
      assert NonNegative(u[1..]) && NonNegative(v[1..]) by {
        assert forall j :: 0 <= j < |u| - 1 ==> u[1..][j] == u[j + 1] && v[1..][j] == v[j + 1];
      }
      DotNonNegative(u[1..], v[1..]);
      assert u[0] * v[0] >= 0.0;
    }
  }

  /** The objective value Q[0][0] of a represented tableau is the objective
      cᵀx at the point read off it. */
  lemma BasicValue(q: Matrix, basis: seq<nat>, c: Vector, a: Matrix, b: Vector, n: nat)
    requires |c| == n && |a| == |b| && forall i :: 0 <= i < |a| ==> |a[i]| == n
    requires Represents(q, basis, c, a, b, n)
    ensures Dot(c, Assigned(q, n, basis, |basis|)) == q[0][0]
  {
    var x := Assigned(q, n, basis, |basis|);
    BasicSolution(q, n, basis);
    AssignedDot(q, n, basis, |basis|, 0);
    EvalSplit(q[0], x);
  }

  /** When no reduced cost is negative, Q[0][0] bounds cᵀz from above over
      every z >= 0 with Az = b. */
  lemma OptimalBound(q: Matrix, basis: seq<nat>, c: Vector, a: Matrix, b: Vector, n: nat, z: Vector)
    requires |c| == n && |a| == |b| && forall i :: 0 <= i < |a| ==> |a[i]| == n
    requires Represents(q, basis, c, a, b, n) && Optimal(q, n)
    requires |z| == n && NonNegative(z) && Solves(a, b, z)
    ensures Dot(c, z) <= q[0][0]
  {
    EvalSplit(q[0], z);
    assert NonNegative(q[0][1..]) by {
      assert forall j :: 0 <= j < n ==> q[0][1..][j] == q[0][j + 1];
    }
    DotNonNegative(q[0][1..], z);
  }

  /** d is a direction along which the program is unbounded: d >= 0,
      Ad = 0 and cᵀd > 0, so z + t·d stays feasible for every t >= 0 while
      the objective grows by t·cᵀd. */
  predicate ImprovingRay(c: Vector, a: Matrix, d: Vector)
    requires forall i :: 0 <= i < |a| ==> |a[i]| == |c|
  {
    |d| == |c| && NonNegative(d) && (forall i :: 0 <= i < |a| ==> Dot(a[i], d) == 0.0) && Dot(c, d) > 0.0
  }

  /** Along an improving ray a feasible point stays feasible and its
      objective grows linearly. */
  lemma RayStaysFeasible(c: Vector, a: Matrix, b: Vector, z: Vector, d: Vector, t: real)
    requires |a| == |b| && forall i :: 0 <= i < |a| ==> |a[i]| == |c|
    requires ImprovingRay(c, a, d) && |z| == |c| && NonNegative(z) && Solves(a, b, z) && t >= 0.0
    ensures NonNegative(Add(z, Scale(t, d))) && Solves(a, b, Add(z, Scale(t, d)))
    ensures Dot(c, Add(z, Scale(t, d))) == Dot(c, z) + t * Dot(c, d)
  {
    RayNonNegative(z, d, t);
    RaySolves(a, b, z, d, t);
    DotAlongRay(c, z, d, t);
  }

  lemma RayNonNegative(z: Vector, d: Vector, t: real)
    requires |z| == |d| && NonNegative(z) && NonNegative(d) && t >= 0.0
    ensures NonNegative(Add(z, Scale(t, d)))
  {
    var y := Add(z, Scale(t, d));
    forall j | 0 <= j < |y| ensures y[j] >= 0.0 {
      assert y[j] == z[j] + t * d[j];
      assert t * d[j] >= 0.0;
    }
  }

  lemma RaySolves(a: Matrix, b: Vector, z: Vector, d: Vector, t: real)
    requires |a| == |b| && forall i :: 0 <= i < |a| ==> |a[i]| == |z|
    requires |d| == |z| && Solves(a, b, z) && forall i :: 0 <= i < |a| ==> Dot(a[i], d) == 0.0
    ensures Solves(a, b, Add(z, Scale(t, d)))
  {
    forall i | 0 <= i < |a| ensures Dot(a[i], Add(z, Scale(t, d))) == b[i] {
      DotAlongRay(a[i], z, d, t);
    }
  }

  lemma DotAlongRay(u: Vector, z: Vector, d: Vector, t: real)
    requires |u| == |z| == |d|
    ensures Dot(u, Add(z, Scale(t, d))) == Dot(u, z) + t * Dot(u, d)
  {
    DotAddRight(u, z, Scale(t, d));
    DotScaleRight(u, t, d);
  }

  lemma DotUnitRight(u: Vector, n: nat, k: nat)
    requires |u| == n && k < n
    ensures Dot(u, Unit(n, k)) == u[k]
  {
    assert Unit(n, k) == Zero(n)[k := 1.0];
    DotUpdate(u, Zero(n), k, 1.0);
    DotZeroRight(u, Zero(n));
  }

  /** The direction of the entering column s: 1 at x_s and -Q[k + 1][s] at
      the k-th basis variable, for the first t basis entries. */
  function Direction(q: Matrix, n: nat, basis: seq<nat>, s: nat, t: nat): (d: Vector)
    requires Tableau(q, |basis|, n) && BasisInRange(basis, n) && t <= |basis| && 1 <= s <= n
    ensures |d| == n
  {
    if t == 0 then Unit(n, s - 1) else Direction(q, n, basis, s, t - 1)[basis[t - 1] - 1 := -q[t][s]]
  }

  lemma {:induction false} DirectionUntouched(q: Matrix, n: nat, basis: seq<nat>, s: nat, t: nat, j: nat)
    requires Tableau(q, |basis|, n) && BasisInRange(basis, n) && t <= |basis| && 1 <= s <= n
    requires j < n && j != s - 1 && forall k :: 0 <= k < t ==> basis[k] != j + 1
    ensures Direction(q, n, basis, s, t)[j] == 0.0
  {
    if t > 0 {
      DirectionUntouched(q, n, basis, s, t - 1, j);
    }
  }

  lemma {:induction false} DirectionNonNegative(q: Matrix, n: nat, basis: seq<nat>, s: nat, t: nat)
    requires Tableau(q, |basis|, n) && BasisInRange(basis, n) && t <= |basis| && 1 <= s <= n
    requires forall i :: 1 <= i < |q| ==> q[i][s] <= 0.0
    ensures NonNegative(Direction(q, n, basis, s, t))
  {
    if t > 0 {
      DirectionNonNegative(q, n, basis, s, t - 1);
      assert -q[t][s] >= 0.0;
    }
  }

  /** Row i of the tableau applied to the direction after t basis entries:
      0 for the rows already handled, Q[i][s] for the others. */
  lemma {:induction false} DirectionDot(q: Matrix, n: nat, basis: seq<nat>, s: nat, t: nat, i: nat)
    requires Tableau(q, |basis|, n) && BasisInRange(basis, n) && BasisColumns(q, basis)
    requires 1 <= s <= n && forall k :: 0 <= k < |basis| ==> basis[k] != s
    requires t <= |basis| && i <= |basis|
    ensures Dot(q[i][1..], Direction(q, n, basis, s, t)) == if 1 <= i <= t then 0.0 else q[i][s]
  {
    if t == 0 {
      DotUnitRight(q[i][1..], n, s - 1);
    } else {
      var prev := Direction(q, n, basis, s, t - 1);
      var j := basis[t - 1] - 1;
      DirectionDot(q, n, basis, s, t - 1, i);
      BasisDistinct(q, n, basis);
      DirectionUntouched(q, n, basis, s, t - 1, j);
      DotUpdate(q[i][1..], prev, j, -q[t][s]);
      assert UnitColumn(q, basis[t - 1], t);
      assert q[i][1..][j] == q[i][basis[t - 1]] == if i == t then 1.0 else 0.0;
    }
  }

  /** Bland's column s with a negative reduced cost and no positive entry
      gives an improving ray: the program is unbounded whenever it is
      feasible. */
  lemma UnboundedRay(q: Matrix, basis: seq<nat>, c: Vector, a: Matrix, b: Vector, n: nat, s: nat)
    requires |c| == n && |a| == |b| && forall i :: 0 <= i < |a| ==> |a[i]| == n
    requires Represents(q, basis, c, a, b, n)
    requires 1 <= s <= n && q[0][s] < 0.0 && forall i :: 1 <= i < |q| ==> q[i][s] <= 0.0
    ensures ImprovingRay(c, a, Direction(q, n, basis, s, |basis|))
  {
    var d := Direction(q, n, basis, s, |basis|);
    var x := Assigned(q, n, basis, |basis|);
    var y := Add(x, d);
    forall k | 0 <= k < |basis| ensures basis[k] != s {
      assert UnitColumn(q, basis[k], k + 1);
    }
    DirectionNonNegative(q, n, basis, s, |basis|);
    BasicSolution(q, n, basis);
    forall i | 0 <= i < |q| ensures Eval(q[i], y) == Eval(q[i], x) + (if i == 0 then q[0][s] else 0.0) {
      DirectionDot(q, n, basis, s, |basis|, i);
      EvalSplit(q[i], y);
      EvalSplit(q[i], x);
      DotAddRight(q[i][1..], x, d);
    }
    assert System(q, y);
    forall i | 0 <= i < |a| ensures Dot(a[i], d) == 0.0 {
      DotAddRight(a[i], x, d);
    }
    DotAddRight(c, x, d);
  }

  // ---------------------------------------------------------------------
  // Phase 1: the auxiliary program

  /** `np.hstack((A, np.eye(m)))`: the rows of Ax + y. */
  function Augmented(a: Matrix, n: nat): (r: Matrix)
    requires forall i :: 0 <= i < |a| ==> |a[i]| == n
    ensures IsMatrix(r, |a|, n + |a|)
  {
    seq(|a|, i requires 0 <= i < |a| => a[i] + Unit(|a|, i))
  }

  function Sum(v: Vector): real {
    if |v| == 0 then 0.0 else v[0] + Sum(v[1..])
  }

  lemma {:induction false} DotConcat(u1: Vector, u2: Vector, v1: Vector, v2: Vector)
    requires |u1| == |v1| && |u2| == |v2|
    ensures Dot(u1 + u2, v1 + v2) == Dot(u1, v1) + Dot(u2, v2)
  {
    if |u1| > 0 {
      assert (u1 + u2)[1..] == u1[1..] + u2 && (v1 + v2)[1..] == v1[1..] + v2;
      DotConcat(u1[1..], u2, v1[1..], v2);
    } else {
      assert u1 + u2 == u2 && v1 + v2 == v2;
    }
  }

  lemma {:induction false} DotMinusOnes(y: Vector)
    ensures Dot(seq(|y|, _ => -1.0), y) == -Sum(y)
  {
    if |y| > 0 {
      assert seq(|y|, _ => -1.0)[1..] == seq(|y| - 1, _ => -1.0);
      DotMinusOnes(y[1..]);
    }
  }

  /** The objective `c_`: 0 on x and -1 on y, so that c_·(x, y) = -Σy. */
  lemma AuxObjective(n: nat, x: Vector, y: Vector)
    requires |x| == n
    ensures Dot(Zero(n) + seq(|y|, _ => -1.0), x + y) == -Sum(y)
  {
    DotConcat(Zero(n), seq(|y|, _ => -1.0), x, y);
    DotComm(Zero(n), x);
    DotZeroRight(x, Zero(n));
    DotMinusOnes(y);
  }

  /** The set-up of `solve_aux_program`: the objective -Σy, the rows of
      Ax + y = b with every row whose b entry is negative negated in place,
      and the starting basis [n + 1, ..., n + m] of the y variables. */
  method AuxProgram(a: Matrix, b: Vector, n: nat) returns (cAux: Vector, aAux: Matrix, bAux: Vector, basis: seq<nat>)
    requires |a| == |b| && forall i :: 0 <= i < |a| ==> |a[i]| == n
    ensures |cAux| == n + |b|
    ensures forall x, y {:trigger Dot(cAux, x + y)} :: |x| == n && |y| == |b| ==> Dot(cAux, x + y) == -Sum(y)
    ensures IsMatrix(aAux, |b|, n + |b|) && |bAux| == |b|
    ensures forall i :: 0 <= i < |b| ==> bAux[i] >= 0.0 && bAux[i] == Abs(b[i])
    ensures forall i :: 0 <= i < |b| ==>
      aAux[i] == if b[i] < 0.0 then Scale(-1.0, Augmented(a, n)[i]) else Augmented(a, n)[i]
    ensures forall z :: |z| == n + |b| && Solves(aAux, bAux, z) ==> Solves(Augmented(a, n), b, z)
    ensures forall z :: |z| == n + |b| && Solves(Augmented(a, n), b, z) ==> Solves(aAux, bAux, z)
    ensures |basis| == |b| && forall k :: 0 <= k < |b| ==> basis[k] == n + 1 + k
  {
    var m := |b|;
    cAux := Zero(n) + seq(m, _ => -1.0);
    aAux := Augmented(a, n);
    bAux := b;
    for i := 0 to m
      invariant |aAux| == m && |bAux| == m
      invariant forall k :: 0 <= k < m ==>
        bAux[k] == (if k < i && b[k] < 0.0 then -b[k] else b[k]) &&
        aAux[k] == if k < i && b[k] < 0.0 then Scale(-1.0, Augmented(a, n)[k]) else Augmented(a, n)[k]
    {
      if b[i] < 0.0 {
        bAux := bAux[i := bAux[i] * -1.0];
        aAux := aAux[i := Scale(-1.0, aAux[i])];
      }
    }
    basis := seq(m, k requires 0 <= k < m => n + 1 + k);
    forall x: Vector, y: Vector | |x| == n && |y| == m ensures Dot(cAux, x + y) == -Sum(y) {
      AuxObjective(n, x, y);
    }
    forall z: Vector | |z| == n + m ensures Solves(aAux, bAux, z) <==> Solves(Augmented(a, n), b, z) {
      forall i | 0 <= i < m ensures Dot(aAux[i], z) - bAux[i] == if b[i] < 0.0
        then -(Dot(Augmented(a, n)[i], z) - b[i]) else Dot(Augmented(a, n)[i], z) - b[i]
      {
        DotScaleLeft(-1.0, Augmented(a, n)[i], z);
      }
    }
  }

  /** A solution of Ax + y = b with y = 0 gives a solution of Ax = b. */
  lemma AugmentedSolves(a: Matrix, b: Vector, n: nat, z: Vector)
    requires |a| == |b| && forall i :: 0 <= i < |a| ==> |a[i]| == n
    requires |z| == n + |b| && Solves(Augmented(a, n), b, z)
    requires forall j :: n <= j < |z| ==> z[j] == 0.0
    ensures Solves(a, b, z[..n])
  {
    assert z == z[..n] + z[n..];
    forall i | 0 <= i < |a| ensures Dot(a[i], z[..n]) == b[i] {
      DotConcat(a[i], Unit(|a|, i), z[..n], z[n..]);
      DotZeroRight(Unit(|a|, i), z[n..]);
    }
  }

  /** A solution x of Ax = b, extended by y = 0, solves Ax + y = b. */
  lemma AugmentedFromSolves(a: Matrix, b: Vector, n: nat, x: Vector)
    requires |a| == |b| && forall i :: 0 <= i < |a| ==> |a[i]| == n
    requires |x| == n && Solves(a, b, x)
    ensures Solves(Augmented(a, n), b, x + Zero(|a|))
  {
    forall i | 0 <= i < |a| ensures Dot(Augmented(a, n)[i], x + Zero(|a|)) == b[i] {
      DotConcat(a[i], Unit(|a|, i), x, Zero(|a|));
      DotZeroRight(Unit(|a|, i), Zero(|a|));
    }
  }

  lemma {:induction false} SumNonNegative(v: Vector)
    requires NonNegative(v)
    ensures Sum(v) >= 0.0
  {
    if |v| > 0 {
      assert NonNegative(v[1..]) by {
        assert forall j :: 0 <= j < |v| - 1 ==> v[1..][j] == v[j + 1];
      }
      SumNonNegative(v[1..]);
    }
  }

  /** The objective of phase 1 is -Σy <= 0 on y >= 0: it has no improving
      ray, so phase 1 never reports an unbounded objective. */
  lemma AuxBounded(n: nat, m: nat, cAux: Vector, aAux: Matrix)
    requires |cAux| == n + m && forall i :: 0 <= i < |aAux| ==> |aAux[i]| == n + m
    requires forall x, y {:trigger Dot(cAux, x + y)} :: |x| == n && |y| == m ==> Dot(cAux, x + y) == -Sum(y)
    ensures !exists d :: ImprovingRay(cAux, aAux, d)
  {
    forall d | |d| == n + m && NonNegative(d) ensures Dot(cAux, d) <= 0.0 {
      assert d == d[..n] + d[n..];
      assert NonNegative(d[n..]) by {
        assert forall j :: 0 <= j < m ==> d[n..][j] == d[n + j];
      }
      SumNonNegative(d[n..]);
      assert Dot(cAux, d[..n] + d[n..]) == -Sum(d[n..]);
    }
  }

  /** A phase-1 optimum below 0 means that no x >= 0 solves Ax = b: such an
      x with y = 0 would be a feasible point of objective 0. */
  lemma Phase1Infeasible(a: Matrix, b: Vector, n: nat, q: Matrix, basis: seq<nat>, cAux: Vector, aAux: Matrix, bAux: Vector)
    requires |a| == |b| && forall i :: 0 <= i < |a| ==> |a[i]| == n
    requires |cAux| == n + |b| && IsMatrix(aAux, |b|, n + |b|) && |bAux| == |b|
    requires forall x, y {:trigger Dot(cAux, x + y)} :: |x| == n && |y| == |b| ==> Dot(cAux, x + y) == -Sum(y)
    requires forall z :: |z| == n + |b| && Solves(Augmented(a, n), b, z) ==> Solves(aAux, bAux, z)
    requires Represents(q, basis, cAux, aAux, bAux, n + |b|) && Optimal(q, n + |b|) && q[0][0] < 0.0
    ensures forall x :: |x| == n && NonNegative(x) ==> !Solves(a, b, x)
  {
    forall x | |x| == n && NonNegative(x) ensures !Solves(a, b, x) {
      if Solves(a, b, x) {
        var z := x + Zero(|b|);
        AuxFeasiblePoint(a, b, n, x, cAux, aAux, bAux);
        OptimalBound(q, basis, cAux, aAux, bAux, n + |b|, z);
      }
    }
  }

  /** A solution x >= 0 of Ax = b, extended by y = 0, is a feasible point
      of the auxiliary program with objective 0. */
  lemma AuxFeasiblePoint(a: Matrix, b: Vector, n: nat, x: Vector, cAux: Vector, aAux: Matrix, bAux: Vector)
    requires |a| == |b| && forall i :: 0 <= i < |a| ==> |a[i]| == n
    requires |cAux| == n + |b| && IsMatrix(aAux, |b|, n + |b|) && |bAux| == |b|
    requires forall x, y {:trigger Dot(cAux, x + y)} :: |x| == n && |y| == |b| ==> Dot(cAux, x + y) == -Sum(y)
    requires forall z :: |z| == n + |b| && Solves(Augmented(a, n), b, z) ==> Solves(aAux, bAux, z)
    requires |x| == n && NonNegative(x) && Solves(a, b, x)
    ensures NonNegative(x + Zero(|b|)) && Solves(aAux, bAux, x + Zero(|b|)) && Dot(cAux, x + Zero(|b|)) == 0.0
  {
    var z := x + Zero(|b|);
    AugmentedFromSolves(a, b, n, x);
    assert Solves(aAux, bAux, z);
    assert NonNegative(z) by {
      assert forall j :: 0 <= j < |z| ==> z[j] == if j < n then x[j] else 0.0;
    }
    SumZero(|b|);
    assert Dot(cAux, x + Zero(|b|)) == -Sum(Zero(|b|));
  }

  lemma {:induction false} SumZero(m: nat)
    ensures Sum(Zero(m)) == 0.0
  {
    if m > 0 {
      assert Zero(m)[1..] == Zero(m - 1);
      SumZero(m - 1);
    }
  }

  /** An optimal phase-1 tableau whose basis lies among the x variables
      reads off a solution of Ax = b. */
  lemma Phase1Feasible(a: Matrix, b: Vector, n: nat, q: Matrix, basis: seq<nat>, cAux: Vector, aAux: Matrix, bAux: Vector)
    requires |a| == |b| && forall i :: 0 <= i < |a| ==> |a[i]| == n
    requires |cAux| == n + |b| && IsMatrix(aAux, |b|, n + |b|) && |bAux| == |b|
    requires forall z :: |z| == n + |b| && Solves(aAux, bAux, z) ==> Solves(Augmented(a, n), b, z)
    requires Represents(q, basis, cAux, aAux, bAux, n + |b|)
    requires forall k :: 0 <= k < |basis| ==> basis[k] <= n
    ensures exists x {:trigger Solves(a, b, x)} :: |x| == n && Solves(a, b, x)
  {
    var z := BasicFeasiblePoint(q, basis, cAux, aAux, bAux, n + |b|);
    forall j | n <= j < n + |b| ensures z[j] == 0.0 {
      assert j + 1 !in basis;
    }
    AugmentedSolves(a, b, n, z);
  }

  /** Whether every basis entry is one of the x variables 1..n. */
  method NoArtificial(basis: seq<nat>, n: nat) returns (clean: bool)
    ensures clean <==> forall k :: 0 <= k < |basis| ==> basis[k] <= n
  {
    for k := 0 to |basis|
      invariant forall k' :: 0 <= k' < k ==> basis[k'] <= n
    {
      if basis[k] > n {
        return false;
      }
    }
    return true;
  }

  /** `solve_aux_program(A, b)` up to its consistency check: phase 1 from
      the basis of the y variables.  The source then drives the artificial
      variables out of the basis; that clean-up is not modelled, and a
      phase-1 basis that still holds one is reported as ArtificialInBasis. */
  method SolveAuxProgram(a: Matrix, b: Vector, n: nat, fuel: nat) returns (res: Result<seq<nat>, SimplexError>)
    requires |a| == |b| && forall i :: 0 <= i < |a| ==> |a[i]| == n
    ensures res.Success? ==> |res.value| == |b| && BasisInRange(res.value, n)
    ensures res.Success? ==> exists x {:trigger Solves(a, b, x)} :: |x| == n && Solves(a, b, x)
    ensures res.Failure? ==> res.error in {NoSolution, ArtificialInBasis, ZeroPivot, FuelExhausted}
    ensures res.Failure? && res.error == NoSolution ==> forall x :: |x| == n && NonNegative(x) ==> !Solves(a, b, x)
  {
    var m := |b|;
    var cAux, aAux, bAux, initialBasis := AuxProgram(a, b, n);
    var basis := new nat[m](k requires 0 <= k < m => initialBasis[k]);
    assert basis[..] == initialBasis;
    var impl := SolveCanonicalImpl(basis, cAux, aAux, bAux, fuel);
    if impl.Failure? {
      AuxBounded(n, m, cAux, aAux);
      return Failure(impl.error);
    }
    res := Phase1Outcome(impl.value, basis[..], a, b, n, cAux, aAux, bAux);
  }

  /** What `solve_aux_program` concludes from an optimal phase-1 tableau:
      an optimum below 0 means Ax = b has no solution x >= 0, and a basis
      among the x variables is a basis of Ax = b. */
  method Phase1Outcome(tab: array2<real>, basis: seq<nat>, ghost a: Matrix, ghost b: Vector, n: nat,
                       ghost cAux: Vector, ghost aAux: Matrix, ghost bAux: Vector)
    returns (res: Result<seq<nat>, SimplexError>)
    requires |a| == |b| && forall i :: 0 <= i < |a| ==> |a[i]| == n
    requires |cAux| == n + |b| && IsMatrix(aAux, |b|, n + |b|) && |bAux| == |b|
    requires forall x, y {:trigger Dot(cAux, x + y)} :: |x| == n && |y| == |b| ==> Dot(cAux, x + y) == -Sum(y)
    requires forall z :: |z| == n + |b| && Solves(aAux, bAux, z) ==> Solves(Augmented(a, n), b, z)
    requires forall z :: |z| == n + |b| && Solves(Augmented(a, n), b, z) ==> Solves(aAux, bAux, z)
    requires tab.Length0 == |b| + 1 && tab.Length1 == n + |b| + 1
    requires Represents(Rows(tab), basis, cAux, aAux, bAux, n + |b|) && Optimal(Rows(tab), n + |b|)
    ensures res.Success? ==> res.value == basis && BasisInRange(res.value, n)
    ensures res.Success? ==> exists x {:trigger Solves(a, b, x)} :: |x| == n && Solves(a, b, x)
    ensures res.Failure? ==> res.error in {NoSolution, ArtificialInBasis}
    ensures res.Failure? && res.error == NoSolution ==> forall x :: |x| == n && NonNegative(x) ==> !Solves(a, b, x)
    ensures res.Failure? && res.error == ArtificialInBasis ==> exists k :: 0 <= k < |basis| && basis[k] > n
  {
    ghost var q := Rows(tab);
    if tab[0, 0] < 0.0 {
      Phase1Infeasible(a, b, n, q, basis, cAux, aAux, bAux);
      return Failure(NoSolution);
    }
    var clean := NoArtificial(basis, n);
    if !clean {
      return Failure(ArtificialInBasis);
    }
    Phase1Feasible(a, b, n, q, basis, cAux, aAux, bAux);
    return Success(basis);
  }

  // ---------------------------------------------------------------------
  // The driver

  /** The point read off a representing tableau is a solution of Az = b that
      is zero at every variable outside the basis. */
  lemma BasicFeasiblePoint(q: Matrix, basis: seq<nat>, c: Vector, a: Matrix, b: Vector, n: nat) returns (z: Vector)
    requires |c| == n && |a| == |b| && forall i :: 0 <= i < |a| ==> |a[i]| == n
    requires Represents(q, basis, c, a, b, n)
    ensures |z| == n && Solves(a, b, z)
    ensures forall j :: 0 <= j < n && j + 1 !in basis ==> z[j] == 0.0
  {
    z := Assigned(q, n, basis, |basis|);
    BasicSolution(q, n, basis);
  }

  /** The point read off a tableau that represents Az = b solves it. */
  lemma RepresentsSolution(q: Matrix, basis: seq<nat>, c: Vector, a: Matrix, b: Vector, n: nat)
    requires |c| == n && |a| == |b| && forall i :: 0 <= i < |a| ==> |a[i]| == n
    requires Represents(q, basis, c, a, b, n)
    ensures Solves(a, b, Assigned(q, n, basis, |basis|))
  {
    BasicSolution(q, n, basis);
  }

  /** Row k + 1 of a tableau whose basis columns are unit columns holds 1
      in column basis[k]. */
  lemma BasisEntry(q: Matrix, basis: seq<nat>, k: nat)
    requires k < |basis| < |q| && BasisColumns(q, basis)
    ensures k + 1 < |q| && basis[k] < |q[k + 1]| && q[k + 1][basis[k]] == 1.0
  {
    assert UnitColumn(q, basis[k], k + 1);
  }

  /** `x[k] = v` on the array being filled. */
  method SetEntry(xs: array<real>, k: nat, v: real)
    requires k < xs.Length
    modifies xs
    ensures xs[..] == old(xs[..])[k := v]
  {
    xs[k] := v;
  }

  /** The loop at the end of `solve_canonical`: x starts as zeros and, for
      each pair (i, j) of `enumerate1(basis)`, Q[i][j] is 1 and
      `x[j - 1] = Q[i][0]`. */
  method ReadSolution(tab: array2<real>, basis: seq<nat>, n: nat) returns (x: seq<real>)
    requires Tableau(Rows(tab), |basis|, n) && BasisInRange(basis, n) && BasisColumns(Rows(tab), basis)
    ensures x == Assigned(Rows(tab), n, basis, |basis|)
  {
    ghost var q := Rows(tab);
    var xs := new real[n](_ => 0.0);
    var pairs := Enumerate1(basis);
    for t := 0 to |pairs|
      modifies xs
      invariant xs[..] == Assigned(q, n, basis, t)
    {
      var (i, j) := pairs[t];
      assert i == t + 1 && j == basis[t];
      BasisEntry(q, basis, t);
      assert tab[i, j] == 1.0;
      SetEntry(xs, j - 1, tab[i, 0]);
    }
    return xs[..];
  }

  /** `solve_canonical(c, A, b)`: phase 1 finds a basis, phase 2 optimises
      from it, and x is read off the final tableau.  The point returned
      solves Ax = b, and no z >= 0 with Az = b has a larger objective.
      NoSolution means that no x >= 0 solves Ax = b; UnboundFunction comes
      with an improving ray. */
  method SolveCanonical(c: Vector, a: Matrix, b: Vector, fuel: nat) returns (res: Result<seq<real>, SimplexError>)
    requires |a| == |b| && forall i :: 0 <= i < |a| ==> |a[i]| == |c|
    ensures res.Success? ==> |res.value| == |c| && Solves(a, b, res.value)
    ensures res.Success? ==> forall z :: |z| == |c| && NonNegative(z) && Solves(a, b, z) ==> Dot(c, z) <= Dot(c, res.value)
    ensures res.Failure? ==> res.error in {NoSolution, ArtificialInBasis, ZeroPivot, UnboundFunction, FuelExhausted}
    ensures res.Failure? && res.error == NoSolution ==> forall x :: |x| == |c| && NonNegative(x) ==> !Solves(a, b, x)
    ensures res.Failure? && res.error == UnboundFunction ==> exists d :: ImprovingRay(c, a, d)
  {
    var n := |c|;
    var aux := SolveAuxProgram(a, b, n, fuel);
    if aux.Failure? {
      return Failure(aux.error);
    }
    var basis := new nat[|b|](k requires 0 <= k < |b| => aux.value[k]);
    assert basis[..] == aux.value;
    var impl := SolveCanonicalImpl(basis, c, a, b, fuel);
    if impl.Failure? {
      return Failure(impl.error);
    }
    var tab := impl.value;
    var x := ReadSolution(tab, basis[..], n);
    RepresentsSolution(Rows(tab), basis[..], c, a, b, n);
    BasicValue(Rows(tab), basis[..], c, a, b, n);
    return Success(x);
  }

  /** The leaving-row key divides the objective entry Q[0][s], not the
      right-hand side Q[i][0], so the row it picks can make the right-hand
      side of another row negative.  In this tableau (basis [2, 3],
      entering column 1) the key prefers row 2 (0.5 against 1), and the
      pivot on (2, 1) turns the right-hand side of row 1 from 1 into -4;
      the ratio Q[i][0] / Q[i][s] would have picked row 1 (1 against 5). */
  lemma KeyIgnoresRightHandSide()
    ensures var q := [[0.0, -1.0, 0.0, 0.0], [1.0, 1.0, 1.0, 0.0], [10.0, 2.0, 0.0, 1.0]];
      BasisColumns(q, [2, 3]) &&
      KeyLess(Key(q[0][1], q[2][1], 3), Key(q[0][1], q[1][1], 2)) &&
      Pivot(q, 2, 1)[1][0] == -4.0
  {
    var q := [[0.0, -1.0, 0.0, 0.0], [1.0, 1.0, 1.0, 0.0], [10.0, 2.0, 0.0, 1.0]];
    assert PivotRow(q, 2, 1)[0] == 5.0;
    assert Pivot(q, 2, 1)[1][0] == 1.0 - 1.0 * 5.0;
  }

  /** Negating a row of [A | I] also negates its identity entry, and the
      elimination of the starting basis divides by that -1, so the phase-1
      tableau can start with a negative right-hand side.  For A = [1],
      b = [-2] (no x >= 0 solves x = -2) the set-up gives the row
      [-1, -1 | 2]; elimination on column 2 leaves its right-hand side at
      -2; Bland's rule enters column 1 on row 1, and that pivot ends phase 1
      with optimum 0 and basis [1], so `solve_aux_program` reports no
      error and the second phase returns x = [-2], the only solution of
      Ax = b. */
  lemma NegatedRowPassesPhase1()
    ensures var a, b := [[1.0]], [-2.0];
      var aAux := [Scale(-1.0, Augmented(a, 1)[0])];
      var q0 := InitialTableau(Zero(1) + [-1.0], aAux, [Abs(b[0])]);
      var q1 := [[2.0, -1.0, 0.0], [-2.0, 1.0, 1.0]];
      var q2 := [[0.0, 0.0, 1.0], [-2.0, 1.0, 1.0]];
      aAux == [[-1.0, -1.0]] &&
      Eliminate(q0, 2, [2], 1) == Some(q1) &&
      EnteringColumn(q1, 2, 1) && FirstLeastKey(q1, [2], 1, 1) &&
      Pivot(q1, 1, 1) == q2 && Optimal(q2, 2) && q2[0][0] == 0.0 &&
      (forall x :: |x| == 1 && NonNegative(x) ==> !Solves(a, b, x)) &&
      (forall x :: |x| == 1 && Solves(a, b, x) ==> x == [-2.0])
  {
    var a, b := [[1.0]], [-2.0];
    NegatedRowSetUp();
    var q0 := [[0.0, 0.0, 1.0], [2.0, -1.0, -1.0]];
    NegatedRowElimination(q0);
    assert Eliminate(q0, 2, [2], 0) == Some(q0);
    NegatedRowPivot();
    forall x | |x| == 1 && Solves(a, b, x) ensures x == [-2.0] {
      assert Dot(a[0], x) == x[0];
    }
  }

  /** The phase-1 set-up for A = [1], b = [-2]: the row [1, 1 | -2] of
      [A | I] is negated to [-1, -1 | 2]. */
  lemma NegatedRowSetUp()
    ensures [Scale(-1.0, Augmented([[1.0]], 1)[0])] == [[-1.0, -1.0]]
    ensures InitialTableau(Zero(1) + [-1.0], [[-1.0, -1.0]], [Abs(-2.0)]) ==
      [[0.0, 0.0, 1.0], [2.0, -1.0, -1.0]]
  {
    assert Unit(1, 0) == [1.0];
    assert Augmented([[1.0]], 1)[0] == [1.0, 1.0];
    assert Scale(-1.0, [1.0, 1.0]) == [-1.0, -1.0];
    var c := Zero(1) + [-1.0];
    assert c == [0.0, -1.0];
    assert Scale(-1.0, c) == [0.0, 1.0];
    var q0 := InitialTableau(c, [[-1.0, -1.0]], [Abs(-2.0)]);
    assert q0[0] == [0.0, 0.0, 1.0];
    assert q0[1] == [2.0, -1.0, -1.0];
  }

  /** Eliminating on column 2 divides the row by -1 and leaves its
      right-hand side at -2. */
  lemma NegatedRowElimination(q0: Matrix)
    requires q0 == [[0.0, 0.0, 1.0], [2.0, -1.0, -1.0]]
    ensures Pivot(q0, 1, 2) == [[2.0, -1.0, 0.0], [-2.0, 1.0, 1.0]]
  {
    var p := PivotRow(q0, 1, 2);
    assert p == [-2.0, 1.0, 1.0];
    assert Sub(q0[0], Scale(q0[0][2], p)) == [2.0, -1.0, 0.0];
  }

  /** Entering column 1 on row 1 zeroes every reduced cost. */
  lemma NegatedRowPivot()
    ensures Pivot([[2.0, -1.0, 0.0], [-2.0, 1.0, 1.0]], 1, 1) == [[0.0, 0.0, 1.0], [-2.0, 1.0, 1.0]]
  {
    var q1 := [[2.0, -1.0, 0.0], [-2.0, 1.0, 1.0]];
    var p := PivotRow(q1, 1, 1);
    assert p == [-2.0, 1.0, 1.0];
    assert Sub(q1[0], Scale(q1[0][1], p)) == [0.0, 0.0, 1.0];
  }
}
