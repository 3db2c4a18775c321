/** Bracket searches for the minimum of a unimodal f: R -> R on [a, b]:
    dichotomy, golden section and Fibonacci search, together with the
    Fibonacci table they share. Every search reports the final midpoint,
    the number of narrowing iterations and the number of calls of f it
    claims to have made. */
module OneDimensionalMethods {
  import opened LinearAlgebra

  /** The offset around the midpoint used by the dichotomy and by the
      final comparison of Fibonacci search (1e-8). */
  const SIGMA: real := 0.00000001

  /** The largest table index Fibonacci search looks at. */
  const FIBONACCI_MAX_STEPS: int := 52

  datatype SearchResult = SearchResult(x: real, iterations: nat, calls: nat)

  datatype Bracket = Bracket(a: real, b: real)

  function Midpoint(a: real, b: real): real {
    (a + b) / 2.0
  }

  /** The loop guard shared by dichotomy and golden section. */
  predicate Narrowing(eps: real, a: real, b: real, iterations: int, maxSteps: int) {
    Abs(b - a) > 2.0 * eps && iterations < maxSteps
  }

  // ---------------------------------------------------------------------
  // Dichotomy

  /** One dichotomy iteration: compare f just left and just right of the
      midpoint and keep the half (widened by SIGMA) that holds the smaller
      value. The new width is exactly half the old one plus SIGMA. */
  function DichotomyStep(f: real -> real, br: Bracket): (r: Bracket)
    ensures r.b - r.a == (br.b - br.a) / 2.0 + SIGMA
    ensures r.a == br.a || r.b == br.b
  {
    var x := Midpoint(br.a, br.b);
    if f(x - SIGMA) < f(x + SIGMA) then Bracket(br.a, x + SIGMA) else Bracket(x - SIGMA, br.b)
  }

  /** The bracket and iteration count on which the dichotomy loop, started
      from `br` after `iterations` iterations, stops. */
  function DichotomyLoop(f: real -> real, eps: real, br: Bracket, iterations: nat, maxSteps: int): (r: (Bracket, nat))
    decreases maxSteps - iterations
    ensures iterations <= r.1
    ensures r.1 == iterations || r.1 <= maxSteps
    ensures !Narrowing(eps, r.0.a, r.0.b, r.1, maxSteps)
  {
    if Narrowing(eps, br.a, br.b, iterations, maxSteps) then
      DichotomyLoop(f, eps, DichotomyStep(f, br), iterations + 1, maxSteps)
    else
      (br, iterations)
  }

  /** While the bracket is wider than 2·SIGMA, which the loop guard ensures
      when eps >= SIGMA, a dichotomy step keeps the new bracket inside the
      old one. */
  lemma DichotomyStepNested(f: real -> real, br: Bracket)
    requires br.b - br.a >= 2.0 * SIGMA
    ensures br.a <= DichotomyStep(f, br).a <= DichotomyStep(f, br).b <= br.b
  {
  }

  /** The bracket the dichotomy loop stops on lies inside the one it starts
      from, provided every step sees a bracket at least 2·SIGMA wide: the
      guard gives that when eps >= SIGMA, and a bracket that starts that
      wide stays that wide. */
  lemma {:induction false} DichotomyLoopNested(f: real -> real, eps: real, br: Bracket, iterations: nat, maxSteps: int)
    requires br.a <= br.b
    requires eps >= SIGMA || br.b - br.a >= 2.0 * SIGMA
    decreases maxSteps - iterations
    ensures var last := DichotomyLoop(f, eps, br, iterations, maxSteps).0;
      br.a <= last.a <= last.b <= br.b
  {
    if Narrowing(eps, br.a, br.b, iterations, maxSteps) {
      DichotomyStepNested(f, br);
      DichotomyLoopNested(f, eps, DichotomyStep(f, br), iterations + 1, maxSteps);
    }
  }

  /** How much wider than 2·SIGMA, the limit of repeated steps, a bracket is. */
  function Excess(br: Bracket): real {
    br.b - br.a - 2.0 * SIGMA
  }

  /** Each iteration halves the excess of the width over 2·SIGMA, so after
      k iterations it is the starting excess halved k times. */
  lemma {:induction false} DichotomyWidth(f: real -> real, eps: real, br: Bracket, iterations: nat, maxSteps: int)
    decreases maxSteps - iterations
    ensures var (last, k) := DichotomyLoop(f, eps, br, iterations, maxSteps);
      Excess(last) == Halved(Excess(br), k - iterations)
  {
    if Narrowing(eps, br.a, br.b, iterations, maxSteps) {
      DichotomyWidth(f, eps, DichotomyStep(f, br), iterations + 1, maxSteps);
    }
  }

  /** The same in closed form: (w_k − 2σ)·2^k = w_0 − 2σ, the halving the
      source's comment describes. */
  lemma DichotomyWidthClosedForm(f: real -> real, eps: real, a0: real, b0: real, maxSteps: int)
    ensures var (last, k) := DichotomyLoop(f, eps, Bracket(a0, b0), 0, maxSteps);
      Excess(last) * Pow2(k) == b0 - a0 - 2.0 * SIGMA
  {
    var (last, k) := DichotomyLoop(f, eps, Bracket(a0, b0), 0, maxSteps);
    var e := b0 - a0 - 2.0 * SIGMA;
    assert Excess(last) == Halved(e, k) by {
      DichotomyWidth(f, eps, Bracket(a0, b0), 0, maxSteps);
    }
    HalvedTimesPow2(e, k);
  }

  /** `dichotomy(eps, a, b, f, max_steps)`. The ghost `evaluations` counts
      the calls of f the loop makes. */
  method Dichotomy(eps: real, a0: real, b0: real, f: real -> real, maxSteps: int)
    returns (r: SearchResult, ghost evaluations: nat)
    ensures var (last, k) := DichotomyLoop(f, eps, Bracket(a0, b0), 0, maxSteps);
      r.x == Midpoint(last.a, last.b) && r.iterations == k
    ensures r.iterations == 0 || r.iterations <= maxSteps
    ensures r.calls == 2 * r.iterations == evaluations
  {
    var a, b := a0, b0;
    var iterations := 0;
    evaluations := 0;
    while Abs(b - a) > 2.0 * eps && iterations < maxSteps
      invariant evaluations == 2 * iterations
      invariant DichotomyLoop(f, eps, Bracket(a, b), iterations, maxSteps)
        == DichotomyLoop(f, eps, Bracket(a0, b0), 0, maxSteps)
      decreases maxSteps - iterations
    {
      ghost var br := Bracket(a, b);
      var x := (a + b) / 2.0;
      var x1 := x - SIGMA;
      var x2 := x + SIGMA;
      var f1 := f(x1);
      var f2 := f(x2);
      evaluations := evaluations + 2;
      if f1 < f2 {
        b := x2;
      } else {
        a := x1;
      }
      iterations := iterations + 1;
      assert Bracket(a, b) == DichotomyStep(f, br);
    }
    r := SearchResult((a + b) / 2.0, iterations, iterations * 2);
  }

  // ---------------------------------------------------------------------
  // State shared by golden section and Fibonacci search

  /** The bracket [a, b], the two interior points, which of f(x1), f(x2) is
      cached in `fOld`, and the iteration counter. */
  datatype SectionState = SectionState(a: real, b: real, x1: real, x2: real, knowF1: bool, fOld: real, iterations: nat)

  /** The cached value really is f at the interior point it stands for. */
  predicate CacheValid(f: real -> real, s: SectionState) {
    if s.knowF1 then s.fOld == f(s.x1) else s.fOld == f(s.x2)
  }

  /** The pair (f(x1), f(x2)) an iteration compares, one of them from the
      cache and the other computed afresh. */
  function Values(f: real -> real, s: SectionState): (real, real) {
    if s.knowF1 then (s.fOld, f(s.x2)) else (f(s.x1), s.fOld)
  }

  lemma ValuesFromValidCache(f: real -> real, s: SectionState)
    requires CacheValid(f, s)
    ensures Values(f, s) == (f(s.x1), f(s.x2))
  {
  }

  // ---------------------------------------------------------------------
  // Golden section

  /** PHI = (1 + √5) / 2 is irrational, so the model takes it as a
      parameter characterised by the equation it satisfies. */
  predicate IsGoldenRatio(phi: real) {
    phi > 1.0 && phi * phi == phi + 1.0
  }

  datatype GoldenOutcome = Narrowed(next: SectionState) | Tie

  /** One golden-section iteration: the counter goes up, then the side
      with the larger value is dropped and the surviving interior point is
      reused; equal values end the search. */
  function GoldenStep(f: real -> real, phi: real, s: SectionState): (r: GoldenOutcome)
    requires phi > 1.0
    ensures r.Tie? <==> Values(f, s).0 == Values(f, s).1
    ensures r.Narrowed? ==> r.next.iterations == s.iterations + 1
  {
    var (f1, f2) := Values(f, s);
    var k := s.iterations + 1;
    if f1 < f2 then
      var b := s.x2;
      Narrowed(SectionState(s.a, b, b - (b - s.a) / phi, s.x1, false, f1, k))
    else if f1 > f2 then
      var a := s.x1;
      Narrowed(SectionState(a, s.b, s.x2, a + (s.b - a) / phi, true, f2, k))
    else
      Tie
  }

  /** The state on which the golden-section loop stops. */
  function GoldenLoop(f: real -> real, phi: real, eps: real, s: SectionState, maxSteps: int): (r: SectionState)
    requires phi > 1.0
    decreases maxSteps - s.iterations
    ensures s.iterations <= r.iterations
    ensures r.iterations == s.iterations || r.iterations <= maxSteps
  {
    if !Narrowing(eps, s.a, s.b, s.iterations, maxSteps) then s
    else match GoldenStep(f, phi, s)
      case Tie => s.(iterations := s.iterations + 1)
      case Narrowed(next) => GoldenLoop(f, phi, eps, next, maxSteps)
  }

  /** The set-up before the loop: interior points at the golden ratio and
      f(x1) evaluated once. */
  function GoldenStart(f: real -> real, phi: real, a: real, b: real): (r: SectionState)
    requires phi > 1.0
    ensures CacheValid(f, r) && r.iterations == 0
  {
    var x1 := b - (b - a) / phi;
    SectionState(a, b, x1, a + (b - a) / phi, true, f(x1), 0)
  }

  /** The interior points divide [a, b] in the golden ratio. */
  predicate GoldenPoints(phi: real, s: SectionState)
    requires phi > 1.0
  {
    s.x1 == s.b - (s.b - s.a) / phi && s.x2 == s.a + (s.b - s.a) / phi
  }

  /** w − w/φ = w/φ², the identity that lets one interior point be reused. */
  lemma GoldenIdentity(phi: real, w: real)
    requires IsGoldenRatio(phi)
    ensures w - w / phi == w / phi / phi
  {
    assert (phi - 1.0) * phi == 1.0;
    assert 1.0 - 1.0 / phi == 1.0 / phi / phi by {
      assert 1.0 / phi == phi - 1.0;
    }
    assert w - w / phi == w * (1.0 - 1.0 / phi);
    assert w / phi / phi == w * (1.0 / phi / phi);
  }

  /** A golden-section step keeps the cache right, keeps both interior
      points at the golden ratio of the new bracket, and divides the width
      by φ. */
  lemma GoldenStepInvariant(f: real -> real, phi: real, s: SectionState)
    requires IsGoldenRatio(phi)
    requires CacheValid(f, s) && GoldenPoints(phi, s)
    ensures GoldenStep(f, phi, s).Narrowed? ==>
      var t := GoldenStep(f, phi, s).next;
      CacheValid(f, t) && GoldenPoints(phi, t) && t.b - t.a == (s.b - s.a) / phi
  {
    GoldenIdentity(phi, s.b - s.a);
  }

  /** The loop state keeps both invariants until the search stops. */
  lemma {:induction false} GoldenLoopInvariant(f: real -> real, phi: real, eps: real, s: SectionState, maxSteps: int)
    requires IsGoldenRatio(phi)
    requires CacheValid(f, s) && GoldenPoints(phi, s)
    decreases maxSteps - s.iterations
    ensures CacheValid(f, GoldenLoop(f, phi, eps, s, maxSteps))
    ensures GoldenPoints(phi, GoldenLoop(f, phi, eps, s, maxSteps))
  {
    if Narrowing(eps, s.a, s.b, s.iterations, maxSteps) {
      GoldenStepInvariant(f, phi, s);
      match GoldenStep(f, phi, s)
      case Tie =>
      case Narrowed(next) => GoldenLoopInvariant(f, phi, eps, next, maxSteps);
    }
  }

  /** A width divided by φ > 1 is no wider and no less than zero. */
  lemma ShrinkByRatio(phi: real, w: real)
    requires phi > 1.0 && w >= 0.0
    ensures 0.0 <= w / phi <= w
  {
    assert w / phi * phi == w;
    MultiplyMonotone(w / phi, 1.0, phi);
  }

  /** The bracket the golden-section loop stops on lies inside the one it
      starts from: each step keeps one end and moves the other to an
      interior point. */
  lemma {:induction false} GoldenLoopNested(f: real -> real, phi: real, eps: real, s: SectionState, maxSteps: int)
    requires IsGoldenRatio(phi)
    requires CacheValid(f, s) && GoldenPoints(phi, s) && s.a <= s.b
    decreases maxSteps - s.iterations
    ensures var last := GoldenLoop(f, phi, eps, s, maxSteps);
      s.a <= last.a <= last.b <= s.b
  {
    if Narrowing(eps, s.a, s.b, s.iterations, maxSteps) {
      GoldenStepInvariant(f, phi, s);
      ShrinkByRatio(phi, s.b - s.a);
      match GoldenStep(f, phi, s)
      case Tie =>
      case Narrowed(next) => GoldenLoopNested(f, phi, eps, next, maxSteps);
    }
  }

  /** Equal values at the two interior points stop the search in the
      iteration that sees them, with the bracket unchanged. */
  lemma GoldenTieStops(f: real -> real, phi: real, eps: real, s: SectionState, maxSteps: int)
    requires phi > 1.0
    requires Narrowing(eps, s.a, s.b, s.iterations, maxSteps)
    requires CacheValid(f, s) && f(s.x1) == f(s.x2)
    ensures GoldenLoop(f, phi, eps, s, maxSteps) == s.(iterations := s.iterations + 1)
  {
  }

  /** `golden_section(eps, a, b, f, max_steps)`; `phi` stands for PHI. */
  method GoldenSection(eps: real, a0: real, b0: real, f: real -> real, maxSteps: int, phi: real)
    returns (r: SearchResult, ghost evaluations: nat)
    requires IsGoldenRatio(phi)
    ensures var last := GoldenLoop(f, phi, eps, GoldenStart(f, phi, a0, b0), maxSteps);
      r.x == Midpoint(last.a, last.b) && r.iterations == last.iterations
    ensures r.iterations == 0 || r.iterations <= maxSteps
    ensures r.calls == r.iterations + 1 == evaluations
  {
    var a, b := a0, b0;
    var x1 := b - (b - a) / phi;
    var x2 := a + (b - a) / phi;
    var iterations := 0;
    var knowF1 := true;
    var fOld := f(x1);
    evaluations := 1;
    ghost var start := SectionState(a, b, x1, x2, knowF1, fOld, iterations);
    assert start == GoldenStart(f, phi, a0, b0);
    while Abs(b - a) > 2.0 * eps && iterations < maxSteps
      invariant evaluations == iterations + 1
      invariant GoldenLoop(f, phi, eps, SectionState(a, b, x1, x2, knowF1, fOld, iterations), maxSteps)
        == GoldenLoop(f, phi, eps, start, maxSteps)
      decreases maxSteps - iterations
    {
      ghost var s := SectionState(a, b, x1, x2, knowF1, fOld, iterations);
      iterations := iterations + 1;
      var f1, f2;
      if knowF1 {
        f1 := fOld;
        f2 := f(x2);
      } else {
        f1 := f(x1);
        f2 := fOld;
      }
      evaluations := evaluations + 1;
      if f1 < f2 {
        b := x2;
        x2 := x1;
        x1 := b - (b - a) / phi;
        knowF1 := false;
        fOld := f1;
      } else if f1 > f2 {
        a := x1;
        x1 := x2;
        x2 := a + (b - a) / phi;
        knowF1 := true;
        fOld := f2;
      } else {
        assert GoldenLoop(f, phi, eps, s, maxSteps) == s.(iterations := iterations);
        break;
      }
    }
    r := SearchResult((a + b) / 2.0, iterations, iterations + 1);
  }

  // ---------------------------------------------------------------------
  // Fibonacci table

  /** The Fibonacci numbers with F(0) = F(1) = 1, as the table stores them. */
  function Fib(i: nat): (r: nat)
    ensures r >= 1
  {
    if i < 2 then 1 else Fib(i - 1) + Fib(i - 2)
  }

  /** A table that starts 1, 1 and then follows the Fibonacci recurrence. */
  predicate IsFibonacciTable(t: seq<nat>) {
    |t| >= 2 && t[0] == 1 && t[1] == 1 &&
    forall i :: 2 <= i < |t| ==> t[i] == t[i - 1] + t[i - 2]
  }

  predicate NonDecreasing(t: seq<nat>) {
    forall i, j :: 0 <= i <= j < |t| ==> t[i] <= t[j]
  }

  /** A Fibonacci table holds exactly the Fibonacci numbers. */
  lemma {:induction false} FibonacciTableEntries(t: seq<nat>, i: nat)
    requires IsFibonacciTable(t) && i < |t|
    ensures t[i] == Fib(i)
  {
    if i >= 2 {
      FibonacciTableEntries(t, i - 1);
      FibonacciTableEntries(t, i - 2);
    }
  }

  /** Its entries are positive and never decrease, which is what the binary
      search and the divisions of Fibonacci search rely on. */
  lemma FibonacciTableShape(t: seq<nat>)
    requires IsFibonacciTable(t)
    ensures forall i :: 0 <= i < |t| ==> t[i] > 0
    ensures NonDecreasing(t)
  {
    forall i | 0 <= i < |t|
      ensures t[i] > 0
    {
      FibonacciTableEntries(t, i);
    }
    forall i, j | 0 <= i <= j < |t|
      ensures t[i] <= t[j]
    {
      FibonacciTableStep(t, i, j);
    }
  }

  lemma {:induction false} FibonacciTableStep(t: seq<nat>, i: nat, j: nat)
    requires IsFibonacciTable(t) && i <= j < |t|
    decreases j - i
    ensures t[i] <= t[j]
  {
    if i < j {
      FibonacciTableStep(t, i, j - 1);
      if j >= 2 {
        FibonacciTableEntries(t, j - 2);
      }
    }
  }

  /** Between two snapshots of the table, entries above n and entries
      that were already computed (non-zero) keep their values. */
  predicate KeepsComputed(before: seq<nat>, after: seq<nat>, n: nat) {
    |before| == |after| &&
    forall i :: 0 <= i < |after| && (n < i || before[i] != 0) ==> after[i] == before[i]
  }

  /** Every entry filled in between two snapshots is the sum of its two
      (computed) predecessors. */
  predicate FilledByRecurrence(before: seq<nat>, after: seq<nat>) {
    |before| == |after| &&
    forall i {:trigger before[i]} :: 0 <= i < |after| && before[i] == 0 && after[i] != 0 ==>
      2 <= i && after[i - 1] > 0 && after[i - 2] > 0 && after[i] == after[i - 1] + after[i - 2]
  }

  lemma KeepsComputedTrans(s0: seq<nat>, s1: seq<nat>, s2: seq<nat>, n: nat, m: nat)
    requires KeepsComputed(s0, s1, n) && KeepsComputed(s1, s2, m) && m <= n
    ensures KeepsComputed(s0, s2, n)
  {
    forall i | 0 <= i < |s2| && (n < i || s0[i] != 0)
      ensures s2[i] == s0[i]
    {
    }
  }

  lemma FilledByRecurrenceTrans(s0: seq<nat>, s1: seq<nat>, s2: seq<nat>, m: nat)
    requires FilledByRecurrence(s0, s1) && FilledByRecurrence(s1, s2) && KeepsComputed(s1, s2, m)
    ensures FilledByRecurrence(s0, s2)
  {
    forall i | 0 <= i < |s2| && s0[i] == 0 && s2[i] != 0
      ensures 2 <= i && s2[i - 1] > 0 && s2[i - 2] > 0 && s2[i] == s2[i - 1] + s2[i - 2]
    {
      if s1[i] == 0 {
      } else {
        assert s2[i] == s1[i] && s2[i - 1] == s1[i - 1] && s2[i - 2] == s1[i - 2];
      }
    }
  }

  /** Entries 2..n are all still to be computed. */
  predicate Blank(t: seq<nat>, n: nat) {
    forall i :: 2 <= i <= n && i < |t| ==> t[i] == 0
  }

  /** Entries 0..n are all computed. */
  predicate Computed(t: seq<nat>, n: nat) {
    forall i :: 0 <= i <= n && i < |t| ==> t[i] > 0
  }

  /** The bookkeeping of one call that fills entry n: entries n−1 and n−2
      were computed by the two recursive calls, giving s1 and then s2, and
      n is then stored. */
  lemma ComputeFibonacciStep(s0: seq<nat>, s1: seq<nat>, s2: seq<nat>, s3: seq<nat>, n: nat, p: nat, q: nat)
    requires 2 <= n < |s0| && s0[n] == 0
    requires KeepsComputed(s0, s1, n - 1) && FilledByRecurrence(s0, s1)
    requires KeepsComputed(s1, s2, n - 2) && FilledByRecurrence(s1, s2)
    requires s1[n - 1] == p > 0 && s2[n - 2] == q > 0
    requires Blank(s0, n - 1) ==> Computed(s1, n - 1)
    requires |s3| == |s2| && s3[n] == p + q
    requires forall i :: 0 <= i < |s3| && i != n ==> s3[i] == s2[i]
    ensures KeepsComputed(s0, s3, n)
    ensures FilledByRecurrence(s0, s3)
    ensures Blank(s0, n) ==> Computed(s3, n)
  {
    KeepsComputedTrans(s0, s1, s2, n - 1, n - 2);
    FilledByRecurrenceTrans(s0, s1, s2, n - 2);
    assert s2[n - 1] == p;
    assert KeepsComputed(s2, s3, n);
    assert FilledByRecurrence(s2, s3);
    FilledByRecurrenceTrans(s0, s2, s3, n);
    KeepsComputedTrans(s0, s2, s3, n, n);
  }

  /** `compute_fibonacci(n, fibonacci)`: memoised, in place. A zero entry
      means "not yet computed". */
  method ComputeFibonacci(n: nat, fib: array<nat>) returns (v: nat)
    requires n < fib.Length
    requires fib[0] > 0 && (n >= 1 ==> fib[1] > 0)
    modifies fib
    decreases n
    ensures v == fib[n] && v > 0
    ensures KeepsComputed(old(fib[..]), fib[..], n)
    ensures FilledByRecurrence(old(fib[..]), fib[..])
    ensures Blank(old(fib[..]), n) ==> Computed(fib[..], n)
  {
    if fib[n] != 0 {
      return fib[n];
    }
    ghost var s0 := fib[..];
    var p := ComputeFibonacci(n - 1, fib);
    ghost var s1 := fib[..];
    var q := ComputeFibonacci(n - 2, fib);
    ghost var s2 := fib[..];
    fib[n] := p + q;
    ComputeFibonacciStep(s0, s1, s2, fib[..], n, p, q);
    return fib[n];
  }

  /** The step budget after the cap applied by Fibonacci search. */
  function Capped(maxSteps: int): int {
    if maxSteps > FIBONACCI_MAX_STEPS then FIBONACCI_MAX_STEPS else maxSteps
  }

  /** `pre_calc_for_fibonacci_method(max_steps)`. */
  /** A table that starts 1, 1 followed by blanks, once every entry up to
      its last is computed by the recurrence, is the Fibonacci table. */
  lemma FilledTableIsFibonacci(before: seq<nat>, after: seq<nat>)
    requires |before| >= 2 && before[0] == 1 && before[1] == 1 && Blank(before, |before| - 1)
    requires KeepsComputed(before, after, |before| - 1) && FilledByRecurrence(before, after)
    requires Computed(after, |before| - 1)
    ensures IsFibonacciTable(after)
  {
    forall i | 2 <= i < |after| ensures after[i] == after[i - 1] + after[i - 2] {
      assert before[i] == 0 && after[i] != 0;
    }
  }

  method PreCalcForFibonacciMethod(maxSteps: int) returns (table: seq<nat>)
    requires maxSteps >= 1
    ensures |table| == Capped(maxSteps) + 1
    ensures IsFibonacciTable(table)
  {
    var steps := if maxSteps > FIBONACCI_MAX_STEPS then FIBONACCI_MAX_STEPS else maxSteps;
    var fib := new nat[steps + 1](i => 0);
    fib[0] := 1;
    fib[1] := 1;
    ghost var before := fib[..];
    var top := ComputeFibonacci(steps, fib);
    table := fib[..];
    FilledTableIsFibonacci(before, table);
  }

  // ---------------------------------------------------------------------
  // find_n

  /** The test the binary search applies to index i. */
  predicate Fits(lenAb: real, eps: real, fib: seq<nat>, i: nat)
    requires i < |fib|
  {
    2.0 * lenAb < eps * (fib[i] as real)
  }

  /** The index the binary search on (left, right] returns: `right` for a
      range of at most one index, and otherwise an index of the range. */
  function FindNSearch(lenAb: real, eps: real, fib: seq<nat>, left: nat, right: int): (r: int)
    requires right <= |fib|
    decreases right - left
    ensures right - left <= 1 ==> r == right
    ensures right - left > 1 ==> left < r <= right
  {
    if right - left > 1 then
      var m := (left + right) / 2;
      if Fits(lenAb, eps, fib, m) then FindNSearch(lenAb, eps, fib, left, m)
      else FindNSearch(lenAb, eps, fib, m, right)
    else
      right
  }

  /** Inside a range of more than one index the search stops on an index
      that fits (or on `right`) whose predecessor does not fit (or is
      `left`). */
  lemma {:induction false} FindNSearchBoundary(lenAb: real, eps: real, fib: seq<nat>, left: nat, right: int)
    requires right <= |fib| && right - left > 1
    decreases right - left
    ensures var r := FindNSearch(lenAb, eps, fib, left, right);
      (r == right || Fits(lenAb, eps, fib, r)) && (r - 1 == left || !Fits(lenAb, eps, fib, r - 1))
  {
    var m := (left + right) / 2;
    if Fits(lenAb, eps, fib, m) {
      if m - left > 1 {
        FindNSearchBoundary(lenAb, eps, fib, left, m);
      }
    } else {
      if right - m > 1 {
        FindNSearchBoundary(lenAb, eps, fib, m, right);
      }
    }
  }

  /** For a non-decreasing table and eps >= 0 the test is monotone, so the
      binary search finds the least index in [1, max_steps] that fits, or
      max_steps when none does. */
  lemma FindNIsLeast(lenAb: real, eps: real, fib: seq<nat>, maxSteps: int)
    requires 1 <= maxSteps <= |fib|
    requires eps >= 0.0 && NonDecreasing(fib)
    ensures var n := FindNSearch(lenAb, eps, fib, 0, maxSteps);
      1 <= n <= maxSteps && (n == maxSteps || Fits(lenAb, eps, fib, n)) &&
      forall i :: 1 <= i < n ==> !Fits(lenAb, eps, fib, i)
  {
    var n := FindNSearch(lenAb, eps, fib, 0, maxSteps);
    if maxSteps > 1 {
      FindNSearchBoundary(lenAb, eps, fib, 0, maxSteps);
      if n > 1 {
        assert !Fits(lenAb, eps, fib, n - 1);
        forall i | 1 <= i < n
          ensures !Fits(lenAb, eps, fib, i)
        {
          FitsMonotone(lenAb, eps, fib, i, n - 1);
        }
      }
    }
  }

  /** With eps >= 0, an index fits whenever a smaller table entry fits. */
  lemma FitsMonotone(lenAb: real, eps: real, fib: seq<nat>, i: nat, j: nat)
    requires i < |fib| && j < |fib| && fib[i] <= fib[j] && eps >= 0.0
    ensures Fits(lenAb, eps, fib, i) ==> Fits(lenAb, eps, fib, j)
  {
    MultiplyMonotone(eps, fib[i] as real, fib[j] as real);
  }

  lemma MultiplyMonotone(c: real, x: real, y: real)
    requires c >= 0.0 && x <= y
    ensures c * x <= c * y
  {
  }

  /** `find_n(len_ab, eps, fibonacci, max_steps)`. */
  method FindN(lenAb: real, eps: real, fib: seq<nat>, maxSteps: int) returns (n: int)
    requires maxSteps <= |fib|
    ensures n == FindNSearch(lenAb, eps, fib, 0, maxSteps)
    ensures maxSteps >= 1 ==> 1 <= n <= maxSteps
  {
    var left: nat := 0;
    var right := maxSteps;
    while right - left > 1
      invariant right <= maxSteps
      invariant FindNSearch(lenAb, eps, fib, left, right) == FindNSearch(lenAb, eps, fib, 0, maxSteps)
      decreases right - left
    {
      var m := (left + right) / 2;
      if Fits(lenAb, eps, fib, m) {
        right := m;
      } else {
        left := m;
      }
    }
    n := right;
  }

  // ---------------------------------------------------------------------
  // Fibonacci search

  /** Python's reading of index i of a list of length len: a negative
      index counts from the end. */
  function PyIndex(i: int, len: nat): (r: nat)
    requires -(len as int) <= i < len
    ensures r < len
    ensures i >= 0 ==> r == i
  {
    if i < 0 then len + i else i
  }

  /** fib[i] / fib[j] as a real. */
  function Ratio(fib: seq<nat>, i: nat, j: nat): real
    requires i < |fib| && j < |fib| && fib[j] > 0
  {
    (fib[i] as real) / (fib[j] as real)
  }

  predicate PositiveTable(fib: seq<nat>) {
    forall i :: 0 <= i < |fib| ==> fib[i] > 0
  }

  /** The set-up: interior points at fib[n-2]/fib[n] and fib[n-1]/fib[n] of
      |b − a| from a, f(x1) evaluated once, the counter at 1. For n = 1 the
      index n − 2 is −1, which Python reads as the last entry. */
  function FibonacciStart(f: real -> real, fib: seq<nat>, n: nat, a: real, b: real): (r: SectionState)
    requires 1 <= n < |fib| && PositiveTable(fib)
    ensures CacheValid(f, r) && r.iterations == 1
  {
    var x1 := a + Ratio(fib, PyIndex(n - 2, |fib|), n) * Abs(b - a);
    SectionState(a, b, x1, a + Ratio(fib, n - 1, n) * Abs(b - a), true, f(x1), 1)
  }

  /** One Fibonacci-search iteration at counter k: drop the side with the
      larger value, reuse the surviving point and place the new one by the
      ratio fib[n-k-2]/fib[n-k] or fib[n-k-1]/fib[n-k]. A tie drops the
      left side. */
  function FibonacciStep(f: real -> real, fib: seq<nat>, n: nat, s: SectionState): (r: SectionState)
    requires n < |fib| && PositiveTable(fib)
    requires 1 <= s.iterations < n - 2
    ensures r.iterations == s.iterations + 1
    ensures CacheValid(f, s) ==> CacheValid(f, r)
  {
    var (f1, f2) := Values(f, s);
    var k := s.iterations;
    if f1 < f2 then
      var b := s.x2;
      SectionState(s.a, b, s.a + Ratio(fib, n - k - 2, n - k) * (b - s.a), s.x1, false, f1, k + 1)
    else
      var a := s.x1;
      SectionState(a, s.b, s.x2, a + Ratio(fib, n - k - 1, n - k) * (s.b - a), true, f2, k + 1)
  }

  /** The state on which the loop `while iterations < n - 2` stops: it runs
      until the counter reaches n − 2, and not at all if it is already
      there. */
  function FibonacciLoop(f: real -> real, fib: seq<nat>, n: nat, s: SectionState): (r: SectionState)
    requires n < |fib| && PositiveTable(fib) && 1 <= s.iterations
    decreases n - s.iterations
    ensures r.iterations == if s.iterations < n - 2 then n - 2 else s.iterations
    ensures CacheValid(f, s) ==> CacheValid(f, r)
  {
    if s.iterations < n - 2 then FibonacciLoop(f, fib, n, FibonacciStep(f, fib, n, s)) else s
  }

  /** The final comparison of f at x1 and x1 + SIGMA, which may move b. */
  function FibonacciFinish(f: real -> real, s: SectionState): (r: Bracket)
    ensures r.a == s.a
    ensures r.b == s.b || r.b == s.x1 + SIGMA
  {
    var x2 := s.x1 + SIGMA;
    if f(s.x1) < f(x2) then Bracket(s.a, x2) else Bracket(s.a, s.b)
  }

  /** Both ends and both interior points lie at or right of lo. */
  predicate AtLeast(lo: real, s: SectionState) {
    s.a >= lo && s.b >= lo && s.x1 >= lo && s.x2 >= lo
  }

  /** fib[i] / fib[j] lies in [0, 1] when fib[i] <= fib[j]. */
  lemma RatioUnit(fib: seq<nat>, i: nat, j: nat)
    requires i < |fib| && j < |fib| && fib[j] > 0 && fib[i] <= fib[j]
    ensures 0.0 <= Ratio(fib, i, j) <= 1.0
  {
    var p, q := fib[i] as real, fib[j] as real;
    assert p / q * q == p;
  }

  /** A point placed the fraction r in [0, 1] of the way from u to v lies
      between them, so at or right of any lo both are at or right of. */
  lemma BetweenAtLeast(lo: real, u: real, v: real, r: real)
    requires u >= lo && v >= lo && 0.0 <= r <= 1.0
    ensures u + r * (v - u) >= lo
  {
    if v < u {
      MultiplyMonotone(u - v, r, 1.0);
      calc {
        u + r * (v - u);
        u - (u - v) * r;
      >= u - (u - v) * 1.0;
        v;
      >= lo;
      }
    } else {
      MultiplyMonotone(r, 0.0, v - u);
      calc {
        u + r * (v - u);
      >= u + r * 0.0;
        u;
      >= lo;
      }
    }
  }

  /** The set-up places both interior points right of a. */
  lemma FibonacciStartAtLeast(f: real -> real, fib: seq<nat>, n: nat, a: real, b: real)
    requires 1 <= n < |fib| && PositiveTable(fib)
    requires b >= a
    ensures AtLeast(a, FibonacciStart(f, fib, n, a, b))
  {
    var i := PyIndex(n - 2, |fib|);
    assert Ratio(fib, i, n) >= 0.0 && Ratio(fib, n - 1, n) >= 0.0;
  }

  /** A Fibonacci step keeps every point at or right of lo: the kept points
      were, and the new one lies between two that were. */
  lemma FibonacciStepAtLeast(f: real -> real, fib: seq<nat>, n: nat, s: SectionState, lo: real)
    requires n < |fib| && PositiveTable(fib) && NonDecreasing(fib)
    requires 1 <= s.iterations < n - 2
    requires AtLeast(lo, s)
    ensures AtLeast(lo, FibonacciStep(f, fib, n, s))
  {
    var k := s.iterations;
    RatioUnit(fib, n - k - 2, n - k);
    RatioUnit(fib, n - k - 1, n - k);
    BetweenAtLeast(lo, s.a, s.x2, Ratio(fib, n - k - 2, n - k));
    BetweenAtLeast(lo, s.x1, s.b, Ratio(fib, n - k - 1, n - k));
  }

  /** The loop keeps every point at or right of lo. */
  lemma {:induction false} FibonacciLoopAtLeast(f: real -> real, fib: seq<nat>, n: nat, s: SectionState, lo: real)
    requires n < |fib| && PositiveTable(fib) && NonDecreasing(fib) && 1 <= s.iterations
    requires AtLeast(lo, s)
    decreases n - s.iterations
    ensures AtLeast(lo, FibonacciLoop(f, fib, n, s))
  {
    if s.iterations < n - 2 {
      FibonacciStepAtLeast(f, fib, n, s, lo);
      FibonacciLoopAtLeast(f, fib, n, FibonacciStep(f, fib, n, s), lo);
    }
  }

  /** Fibonacci search over [a, b] with a <= b reports a point at or right
      of a. Its right end is not bounded by b: for n = 1 the first interior
      point is placed by the last table entry, and the final comparison may
      move b to x1 + SIGMA. */
  lemma FibonacciResultAtLeast(f: real -> real, fib: seq<nat>, n: nat, a: real, b: real)
    requires 1 <= n < |fib| && PositiveTable(fib) && NonDecreasing(fib)
    requires a <= b
    ensures var br := FibonacciFinish(f, FibonacciLoop(f, fib, n, FibonacciStart(f, fib, n, a, b)));
      a <= br.a && a <= Midpoint(br.a, br.b)
  {
    FibonacciStartAtLeast(f, fib, n, a, b);
    FibonacciLoopAtLeast(f, fib, n, FibonacciStart(f, fib, n, a, b), a);
  }

  /** The n chosen by `find_n` for a search over [a, b]. */
  function FibonacciN(eps: real, a: real, b: real, fib: seq<nat>, maxSteps: int): int
    requires Capped(maxSteps) <= |fib|
  {
    FindNSearch(Abs(b - a), eps, fib, 0, Capped(maxSteps))
  }

  /** The narrowing loop of `fibonacci_method`, from the set-up state to
      the state on which `while iterations < n - 2` stops; f is called once
      per iteration. */
  method FibonacciNarrowing(f: real -> real, fib: seq<nat>, n: nat, start: SectionState)
    returns (last: SectionState, ghost evaluations: nat)
    requires n < |fib| && PositiveTable(fib) && 1 <= start.iterations
    ensures last == FibonacciLoop(f, fib, n, start)
    ensures evaluations == last.iterations - start.iterations
  {
    var a, b, x1, x2 := start.a, start.b, start.x1, start.x2;
    var knowF1, fOld, iterations := start.knowF1, start.fOld, start.iterations;
    evaluations := 0;
    while iterations < n - 2
      invariant start.iterations <= iterations && evaluations == iterations - start.iterations
      invariant FibonacciLoop(f, fib, n, SectionState(a, b, x1, x2, knowF1, fOld, iterations))
        == FibonacciLoop(f, fib, n, start)
      decreases n - iterations
    {
      ghost var s := SectionState(a, b, x1, x2, knowF1, fOld, iterations);
      var f1, f2;
      if knowF1 {
        f1 := fOld;
        f2 := f(x2);
      } else {
        f1 := f(x1);
        f2 := fOld;
      }
      evaluations := evaluations + 1;
      if f1 < f2 {
        b := x2;
        x2 := x1;
        knowF1 := false;
        fOld := f1;
        x1 := a + Ratio(fib, n - iterations - 2, n - iterations) * (b - a);
      } else {
        a := x1;
        x1 := x2;
        knowF1 := true;
        fOld := f2;
        x2 := a + Ratio(fib, n - iterations - 1, n - iterations) * (b - a);
      }
      iterations := iterations + 1;
      ghost var t := FibonacciStep(f, fib, n, s);
      assert a == t.a;
      assert b == t.b;
      assert x1 == t.x1;
      assert x2 == t.x2;
      assert fOld == t.fOld;
      assert SectionState(a, b, x1, x2, knowF1, fOld, iterations) == t;
    }
    last := SectionState(a, b, x1, x2, knowF1, fOld, iterations);
  }

  /** The set-up of `fibonacci_method` before its loop: the two interior
      points, one call of f and the counter at 1. */
  method FibonacciSetUp(f: real -> real, fib: seq<nat>, n: nat, a: real, b: real) returns (s: SectionState)
    requires 1 <= n < |fib| && PositiveTable(fib)
    ensures s == FibonacciStart(f, fib, n, a, b)
  {
    var x1 := a + Ratio(fib, PyIndex(n - 2, |fib|), n) * Abs(b - a);
    var x2 := a + Ratio(fib, n - 1, n) * Abs(b - a);
    var fOld := f(x1);
    s := SectionState(a, b, x1, x2, true, fOld, 1);
  }

  /** `fibonacci_method(eps, a, b, f, max_steps, fibonacci)`. It performs
      max(1, n − 2) iterations and reports one call more than that, while
      the ghost `evaluations` shows that f is called once before the loop,
      once per further iteration and twice in the final comparison. */
  method FibonacciMethod(eps: real, a0: real, b0: real, f: real -> real, maxSteps: int, fib: seq<nat>)
    returns (r: SearchResult, ghost evaluations: nat)
    requires maxSteps >= 1 && Capped(maxSteps) < |fib| && PositiveTable(fib)
    ensures var n := FibonacciN(eps, a0, b0, fib, maxSteps);
      1 <= n <= Capped(maxSteps) &&
      var last := FibonacciLoop(f, fib, n, FibonacciStart(f, fib, n, a0, b0));
      var br := FibonacciFinish(f, last);
      r.x == Midpoint(br.a, br.b) && r.iterations == last.iterations &&
      r.iterations == if n > 3 then n - 2 else 1
    ensures r.calls == r.iterations + 1
    ensures evaluations == r.iterations + 2
  {
    var steps := maxSteps;
    if steps > FIBONACCI_MAX_STEPS {
      steps := FIBONACCI_MAX_STEPS;
    }
    assert steps == Capped(maxSteps);
    var n := FindN(Abs(b0 - a0), eps, fib, steps);
    assert n == FibonacciN(eps, a0, b0, fib, maxSteps);
    var start := FibonacciSetUp(f, fib, n, a0, b0);
    var last, loopEvaluations := FibonacciNarrowing(f, fib, n, start);
    assert last.iterations == if n > 3 then n - 2 else 1;
    var a, b, x1, iterations := last.a, last.b, last.x1, last.iterations;
    var x2 := x1 + SIGMA;
    var g1 := f(x1);
    var g2 := f(x2);
    evaluations := 1 + loopEvaluations + 2;
    if g1 < g2 {
      b := x2;
    }
    assert Bracket(a, b) == FibonacciFinish(f, last);
    r := SearchResult((a + b) / 2.0, iterations, iterations + 1);
  }
}
