/** The shared test harness of src/test/solver.rs: the right-hand side is built
    from a known solution `x` chunk by chunk with the sparse mat-vec kernels,
    handed to a backend, and the result compared with `x`.

    A backend is seen through its two-parameter interfaces: a one-shot
    `Solver::solve(n, a_i, a_p, a_x, b, trans)` and a `FactorSolver` with
    `factor(n, a_i, a_p, a_x)` and `solve(&f, b, trans)`. */
module SolverTest {
  import opened Dense
  import opened Csc
  import opened Outcomes
  import opened Ints
  import opened Wrappers

  /** What a solve leaves behind: how it ended and the contents of `b`. */
  datatype Solved = Solved(out: Outcome<()>, b: seq<real>)

  /** `Solver<I, S>::solve`. */
  type OneShot = (nat, seq<int>, seq<int>, seq<real>, seq<real>, bool) -> Solved

  /** `FactorSolver<I, S, F>`: factor once, solve any number of times. */
  datatype FactorSolver<!F> = FactorSolver(
    factor: (nat, seq<int>, seq<int>, seq<real>) -> Outcome<F>,
    solve: (F, seq<real>, bool) -> Solved)

  /** `b` is a `&mut [S]`: a solve writes its entries but cannot change how
      many there are. */
  ghost predicate InPlaceSolver(solver: OneShot) {
    forall n, a_i, a_p, a_x, b, trans :: |solver(n, a_i, a_p, a_x, b, trans).b| == |b|
  }

  ghost predicate InPlaceFactorSolver<F(!new)>(solver: FactorSolver<F>) {
    forall f, b, trans :: |solver.solve(f, b, trans).b| == |b|
  }

  /** A native call the factor harness makes, with what it passes. */
  datatype Call = FactorCall | SolveCall(b: seq<real>, trans: bool)

  function RAbs(x: real): real { if x < 0.0 then -x else x }

  /** A·v, or Aᵗ·v when `trans`. */
  function Apply(a: Matrix, v: seq<real>, trans: bool): (y: seq<real>)
    requires WellFormed(a) && |v| == a.n
    ensures |y| == a.n
  {
    if trans then TransposeProduct(a, v) else Product(a, v)
  }

  /** `f` applied to every full chunk of length n of `x`, in order, as
      `chunks_exact(n)` yields them; a trailing partial chunk contributes
      nothing. */
  function Chunked(f: seq<real> -> seq<real>, n: nat, x: seq<real>): seq<real>
    requires n > 0
    decreases |x|
  {
    if |x| < n then [] else f(x[..n]) + Chunked(f, n, x[n..])
  }

  /** `f` maps chunks of length n to blocks of length n. */
  ghost predicate KeepsLength(f: seq<real> -> seq<real>, n: nat) {
    forall v :: |v| == n ==> |f(v)| == n
  }

  /** The block the harness computes from one chunk: A·v, or Aᵗ·v when
      `trans`. */
  function Block(a: Matrix, trans: bool): (f: seq<real> -> seq<real>)
    requires WellFormed(a)
    ensures KeepsLength(f, a.n)
    ensures forall v :: |v| == a.n ==> f(v) == Apply(a, v, trans)
  {
    v => if |v| == a.n then Apply(a, v, trans) else v
  }

  /** The right-hand side for the solution `x`: one block A·x_k (Aᵗ·x_k) per
      full chunk x_k of length n of `x`. */
  function Rhs(a: Matrix, x: seq<real>, trans: bool): seq<real>
    requires WellFormed(a) && a.n > 0
  {
    Chunked(Block(a, trans), a.n, x)
  }

  /** The length of a chunked map: the remainder of `x` after the last full
      chunk is dropped, and nothing else is. */
  lemma {:induction false} ChunkedLength(f: seq<real> -> seq<real>, n: nat, x: seq<real>)
    requires n > 0 && KeepsLength(f, n)
    ensures |Chunked(f, n, x)| <= |x| < |Chunked(f, n, x)| + n
    ensures |Chunked(f, n, x)| % n == 0
    decreases |x|
  {
    if |x| >= n {
      ChunkedLength(f, n, x[n..]);
      assert |f(x[..n])| == n;
      ModShift(|Chunked(f, n, x[n..])|, n);
    }
  }

  /** Block `lo / n` of a chunked map is `f` of chunk `lo / n`, for every
      offset `lo` that is a multiple `k·n` of n. */
  lemma {:induction false} ChunkedBlock(f: seq<real> -> seq<real>, n: nat, x: seq<real>, k: nat, lo: nat)
    requires n > 0 && KeepsLength(f, n) && lo == k * n && lo + n <= |x|
    ensures lo + n <= |Chunked(f, n, x)|
    ensures Chunked(f, n, x)[lo..lo + n] == f(x[lo..lo + n])
    decreases k
  {
    var head := f(x[..n]);
    var rest := Chunked(f, n, x[n..]);
    assert |head| == n;
    assert Chunked(f, n, x) == head + rest;
    if k > 0 {
      var plo := lo - n;
      assert plo == (k - 1) * n by { MulSucc(k - 1, n); }
      ChunkedBlock(f, n, x[n..], k - 1, plo);
      var block := rest[plo..plo + n];
      assert block == f(x[n..][plo..plo + n]);
      SliceOfDrop(x, n, plo, n);
      assert x[n..][plo..plo + n] == x[lo..lo + n];
      SliceOfAppend(head, rest, plo, n);
      assert (head + rest)[lo..lo + n] == block;
    } else {
      assert (head + rest)[..n] == head;
      assert lo == 0;
    }
  }

  /** The length of the right-hand side: a whole number of blocks, one per
      full chunk of `x`. */
  lemma RhsLength(a: Matrix, x: seq<real>, trans: bool)
    requires WellFormed(a) && a.n > 0
    ensures |Rhs(a, x, trans)| <= |x| < |Rhs(a, x, trans)| + a.n
    ensures |Rhs(a, x, trans)| % a.n == 0
  {
    ChunkedLength(Block(a, trans), a.n, x);
  }

  /** Block k of the right-hand side, the one at offset lo == k·n, is A·x_k
      (Aᵗ·x_k when `trans`), where x_k is the k-th chunk of length n of `x`. */
  lemma RhsBlock(a: Matrix, x: seq<real>, trans: bool, k: nat, lo: nat)
    requires WellFormed(a) && a.n > 0 && lo == k * a.n && lo + a.n <= |x|
    ensures lo + a.n <= |Rhs(a, x, trans)|
    ensures Rhs(a, x, trans)[lo..lo + a.n] == Apply(a, x[lo..lo + a.n], trans)
  {
    ChunkedBlock(Block(a, trans), a.n, x, k, lo);
    BlockIsApply(a, x[lo..lo + a.n], trans);
  }

  /** The harness block of one chunk is its mat-vec product. */
  lemma BlockIsApply(a: Matrix, v: seq<real>, trans: bool)
    requires WellFormed(a) && |v| == a.n
    ensures Block(a, trans)(v) == Apply(a, v, trans)
  {
  }

  /** The right-hand side one chunk at a time: empty once less than a chunk
      is left, and otherwise the first block followed by the rest. */
  lemma RhsStep(a: Matrix, x: seq<real>, trans: bool)
    requires WellFormed(a) && a.n > 0
    ensures |x| < a.n ==> Rhs(a, x, trans) == []
    ensures |x| >= a.n ==> Rhs(a, x, trans) == Apply(a, x[..a.n], trans) + Rhs(a, x[a.n..], trans)
  {
    var f := Block(a, trans);
    if |x| >= a.n {
      assert f(x[..a.n]) == Apply(a, x[..a.n], trans);
    }
  }

  /** A slice of a suffix is a slice of the whole, shifted. */
  lemma SliceOfDrop(x: seq<real>, d: nat, p: nat, m: nat)
    requires d + p + m <= |x|
    ensures x[d..][p..p + m] == x[d + p..d + p + m]
  {
  }

  /** Past the first part, a slice of a concatenation is a slice of the
      second part. */
  lemma SliceOfAppend(h: seq<real>, t: seq<real>, p: nat, m: nat)
    requires p + m <= |t|
    ensures (h + t)[|h| + p..|h| + p + m] == t[p..p + m]
  {
  }

  /** (k + 1)·n == k·n + n. */
  lemma MulSucc(k: int, n: int)
    ensures (k + 1) * n == k * n + n
  {
  }

  /** `k` copies of `s`, as the loop `for _ in 0..k { v.extend(s) }` leaves them. */
  function Repeat(s: seq<real>, k: nat): (r: seq<real>)
    decreases k
  {
    if k == 0 then [] else Repeat(s, k - 1) + s
  }

  /** Entry q of `k` copies of `s` is entry `q mod |s|` of `s`. */
  lemma {:induction false} RepeatIndex(s: seq<real>, k: nat)
    ensures |Repeat(s, k)| == k * |s|
    ensures forall q :: 0 <= q < |Repeat(s, k)| ==> Repeat(s, k)[q] == s[q % |s|]
    decreases k
  {
    if k > 0 {
      RepeatIndex(s, k - 1);
      var prev := Repeat(s, k - 1);
      assert |prev| == (k - 1) * |s|;
      assert k * |s| == (k - 1) * |s| + |s|;
      forall q | 0 <= q < |Repeat(s, k)|
        ensures Repeat(s, k)[q] == s[q % |s|]
      {
        if q >= |prev| {
          ModCopies(q - |prev|, |s|, k - 1);
        }
      }
    }
  }

  /** (i + j·m) mod m == i for i < m. */
  lemma {:induction false} ModCopies(i: nat, m: nat, j: nat)
    requires i < m
    ensures (j * m + i) % m == i
    decreases j
  {
    if j > 0 {
      assert j * m + i == m + ((j - 1) * m + i);
      ModCopies(i, m, j - 1);
      ModShift((j - 1) * m + i, m);
    }
  }

  /** Copies can be peeled from the front as well as from the back. */
  lemma {:induction false} RepeatFront(s: seq<real>, k: nat)
    requires k > 0
    ensures Repeat(s, k) == s + Repeat(s, k - 1)
    decreases k
  {
    if k > 1 {
      RepeatFront(s, k - 1);
    }
  }

  /** The test ramp `1 + i/n` for i in 0..n. */
  function Ramp(n: nat): (r: seq<real>)
    ensures |r| == n
  {
    seq(n, i requires 0 <= i < n => 1.0 + (i as real) / (n as real))
  }

  /** `b0`: `nrhs` consecutive copies of the ramp. */
  method BuildRamps(n: nat, nrhs: nat) returns (b0: seq<real>)
    ensures |b0| == nrhs * n
    ensures forall q :: 0 <= q < |b0| ==> b0[q] == 1.0 + ((q % n) as real) / (n as real)
  {
    b0 := [];
    var k := 0;
    while k < nrhs
      invariant 0 <= k <= nrhs
      invariant b0 == Repeat(Ramp(n), k)
    {
      b0 := b0 + Ramp(n);
      k := k + 1;
    }
    RepeatIndex(Ramp(n), nrhs);
  }

  /** With `x` made of copies of one vector v, every block of the right-hand
      side is the same A·v (Aᵗ·v). */
  lemma {:induction false} RhsOfCopies(a: Matrix, v: seq<real>, k: nat, trans: bool)
    requires WellFormed(a) && a.n > 0 && |v| == a.n
    ensures Rhs(a, Repeat(v, k), trans) == Repeat(Apply(a, v, trans), k)
    decreases k
  {
    if k == 0 {
      RhsStep(a, [], trans);
    } else {
      RepeatFront(v, k);
      RepeatFront(Apply(a, v, trans), k);
      var x := Repeat(v, k);
      RepeatIndex(v, k);
      assert k * a.n >= a.n by { MulAtLeast(a.n, k); }
      assert x[..a.n] == v;
      assert x[a.n..] == Repeat(v, k - 1);
      RhsStep(a, x, trans);
      RhsOfCopies(a, v, k - 1, trans);
    }
  }

  /** The right-hand side the harness builds, with the mat-vec kernels: CSC
      reading for A·x_k, and the same arrays read as CSR for Aᵗ·x_k. */
  method BuildRhs(a: Matrix, x: seq<real>, trans: bool) returns (b: seq<real>)
    requires WellFormed(a) && a.n > 0
    ensures b == Rhs(a, x, trans)
  {
    b := [];
    var rest := x;
    while |rest| >= a.n
      invariant Rhs(a, x, trans) == b + Rhs(a, rest, trans)
      decreases |rest|
    {
      var block := BuildBlock(a, rest[..a.n], trans);
      RhsGrows(a, b, rest, trans);
      b := b + block;
      rest := rest[a.n..];
    }
    RhsStep(a, rest, trans);
  }

  /** Moving the first block of what is left onto what is built keeps the
      whole right-hand side the same. */
  lemma RhsGrows(a: Matrix, b: seq<real>, rest: seq<real>, trans: bool)
    requires WellFormed(a) && a.n > 0 && |rest| >= a.n
    ensures b + Rhs(a, rest, trans) == (b + Apply(a, rest[..a.n], trans)) + Rhs(a, rest[a.n..], trans)
  {
    RhsStep(a, rest, trans);
  }

  /** One block of the right-hand side, from a zero `y`: `csc_matvec` gives
      A·v, `csr_matvec` on the same arrays gives Aᵗ·v. */
  method BuildBlock(a: Matrix, v: seq<real>, trans: bool) returns (block: seq<real>)
    requires WellFormed(a) && |v| == a.n
    ensures block == Apply(a, v, trans)
  {
    if trans {
      block := CsrMatVec(a, v, Zeros(a.n));
    } else {
      block := CscMatVec(a, v, Zeros(a.n));
    }
  }

  /** `test_solver`: build the right-hand side from `x`, hand it to the
      one-shot solve, return what it leaves in `b`.  `chunks_exact(0)` panics,
      so an order-0 matrix panics before the solver is reached. */
  method TestSolver(solver: OneShot, n: nat, a_i: seq<int>, a_p: seq<int>, a_x: seq<real>,
                    x: seq<real>, trans: bool) returns (r: Outcome<seq<real>>)
    requires WellFormed(Matrix(n, a_p, a_i, a_x)) && InPlaceSolver(solver)
    ensures n == 0 ==> r.Panic?
    ensures n > 0 ==>
              var s := solver(n, a_i, a_p, a_x, Rhs(Matrix(n, a_p, a_i, a_x), x, trans), trans);
              && (r.Done? <==> s.out.Done?)
              && (r.Done? ==> r.value == s.b)
              && (r.Fail? <==> s.out.Fail?)
              && (s.out.Fail? ==> r == Fail(s.out.error))
              && (s.out.Panic? ==> r.Panic?)
    // what comes back has as many entries as the right-hand side
    ensures n > 0 && r.Done? ==> |r.value| == |Rhs(Matrix(n, a_p, a_i, a_x), x, trans)|
  {
    if n == 0 {
      return Panic;
    }
    var b := BuildRhs(Matrix(n, a_p, a_i, a_x), x, trans);
    var s := solver(n, a_i, a_p, a_x, b, trans);
    match s.out
    case Done(_) => r := Done(s.b);
    case Fail(e) => r := Fail(e);
    case Panic => r := Panic;
  }

  /** `test_factor_solver`: build the right-hand side, factor once, then
      solve that right-hand side with the factorization and the same `trans`;
      the native calls are returned in order. */
  method TestFactorSolver<F(!new)>(solver: FactorSolver<F>, n: nat, a_i: seq<int>, a_p: seq<int>,
                             a_x: seq<real>, x: seq<real>, trans: bool)
    returns (r: Outcome<seq<real>>, calls: seq<Call>)
    requires WellFormed(Matrix(n, a_p, a_i, a_x)) && InPlaceFactorSolver(solver)
    ensures n == 0 ==> r.Panic? && calls == []
    ensures n > 0 ==>
              var b := Rhs(Matrix(n, a_p, a_i, a_x), x, trans);
              match solver.factor(n, a_i, a_p, a_x)
              case Done(f) =>
                && calls == [FactorCall, SolveCall(b, trans)]
                && var s := solver.solve(f, b, trans);
                   (r.Done? <==> s.out.Done?) && (r.Done? ==> r.value == s.b) &&
                   (s.out.Fail? ==> r == Fail(s.out.error)) && (s.out.Panic? ==> r.Panic?)
              case Fail(e) => calls == [FactorCall] && r == Fail(e)
              case Panic => calls == [FactorCall] && r.Panic?
    ensures n > 0 && r.Done? ==> |r.value| == |Rhs(Matrix(n, a_p, a_i, a_x), x, trans)|
  {
    if n == 0 {
      return Panic, [];
    }
    var b := BuildRhs(Matrix(n, a_p, a_i, a_x), x, trans);
    calls := [FactorCall];
    match solver.factor(n, a_i, a_p, a_x)
    case Fail(e) => r := Fail(e);
    case Panic => r := Panic;
    case Done(f) =>
      calls := calls + [SolveCall(b, trans)];
      var s := solver.solve(f, b, trans);
      match s.out
      case Done(_) => r := Done(s.b);
      case Fail(e) => r := Fail(e);
      case Panic => r := Panic;
  }

  /** `assert_abs_diff_eq!` on entries 0..n: each within `eps` of `b0`. */
  predicate FirstBlockClose(b: seq<real>, b0: seq<real>, n: nat, eps: real)
    requires n <= |b| && n <= |b0|
  {
    forall i :: 0 <= i < n ==> RAbs(b[i] - b0[i]) <= eps
  }

  /** Only the first n entries are compared: whatever the solver leaves in
      the later right-hand sides never affects the verdict. */
  lemma LaterBlocksUnchecked(b: seq<real>, b0: seq<real>, n: nat, eps: real, tail: seq<real>)
    requires n <= |b| && n <= |b0|
    ensures FirstBlockClose(b, b0, n, eps) == FirstBlockClose(b[..n] + tail, b0, n, eps)
  {
    assert forall i :: 0 <= i < n ==> (b[..n] + tail)[i] == b[i];
  }

  /** The verdict on one matrix of the bbus loop: the harness must return,
      both `b` and `b0` must have n entries (with `nrhs == 0`, `b0[0]` is out
      of bounds), and the first n entries must be close. */
  function BbusVerdict(h: Outcome<seq<real>>, b0: seq<real>, n: nat, eps: real): (r: Outcome<()>)
    ensures r.Done? <==> h.Done? && (n <= |h.value| && n <= |b0| && FirstBlockClose(h.value, b0, n, eps))
    ensures r.Fail? <==> h.Fail?
    ensures r.Fail? ==> r.error == h.error
  {
    match h
    case Fail(e) => Fail(e)
    case Panic => Panic
    case Done(b) =>
      if n <= |b| && n <= |b0| && FirstBlockClose(b, b0, n, eps) then Done(()) else Panic
  }

  /** Whether one bbus matrix passes: the one-shot solver, on the right-hand
      side built from `nrhs` ramps, returns and its first block is within
      `eps` of the ramp. */
  predicate OneShotPasses(solver: OneShot, a: Matrix, nrhs: nat, eps: real)
    requires WellFormed(a)
  {
    && a.n > 0
    && var s := solver(a.n, a.rowIdx, a.colPtr, a.values, Rhs(a, Repeat(Ramp(a.n), nrhs), false), false);
       && s.out.Done?
       && nrhs > 0
       && a.n <= |s.b|
       && FirstBlockClose(s.b, Ramp(a.n), a.n, eps)
  }

  /** The `Err` one bbus matrix hands back through `?`, if any: the one-shot
      solver's own error on the ramp right-hand side. */
  function OneShotError(solver: OneShot, a: Matrix, nrhs: nat): Option<Error>
    requires WellFormed(a)
  {
    if a.n == 0 then None
    else
      match solver(a.n, a.rowIdx, a.colPtr, a.values, Rhs(a, Repeat(Ramp(a.n), nrhs), false), false).out
      case Fail(e) => Some(e)
      case _ => None
  }

  /** Matrix k is the first of `mats` that does not pass. */
  predicate FirstFailing(solver: OneShot, mats: seq<Matrix>, nrhs: nat, eps: real, k: nat)
    requires forall j :: 0 <= j < |mats| ==> WellFormed(mats[j])
    requires k < |mats|
  {
    && (forall j :: 0 <= j < k ==> OneShotPasses(solver, mats[j], nrhs, eps))
    && !OneShotPasses(solver, mats[k], nrhs, eps)
  }

  /** For an in-place solver the `b[i]` reads of the comparison never go out
      of bounds: with at least one right-hand side, the verdict is exactly
      that the solve returns and its first block is within `eps` of the
      ramp. */
  lemma InPlaceFirstBlockPresent(solver: OneShot, a: Matrix, nrhs: nat, eps: real)
    requires WellFormed(a) && InPlaceSolver(solver)
    ensures a.n > 0 && nrhs > 0 ==>
              var s := solver(a.n, a.rowIdx, a.colPtr, a.values, Rhs(a, Repeat(Ramp(a.n), nrhs), false), false);
              a.n <= |s.b| &&
              (OneShotPasses(solver, a, nrhs, eps) <==> s.out.Done? && FirstBlockClose(s.b, Ramp(a.n), a.n, eps))
  {
    if a.n > 0 && nrhs > 0 {
      RhsHoldsFirstBlock(a, nrhs);
    }
  }

  /** The same for the factor harness. */
  lemma InPlaceFactorFirstBlockPresent<F(!new)>(solver: FactorSolver<F>, a: Matrix, nrhs: nat, eps: real)
    requires WellFormed(a) && InPlaceFactorSolver(solver)
    ensures a.n > 0 && nrhs > 0 && solver.factor(a.n, a.rowIdx, a.colPtr, a.values).Done? ==>
              var s := solver.solve(solver.factor(a.n, a.rowIdx, a.colPtr, a.values).value,
                                    Rhs(a, Repeat(Ramp(a.n), nrhs), false), false);
              a.n <= |s.b| &&
              (FactorPasses(solver, a, nrhs, eps) <==> s.out.Done? && FirstBlockClose(s.b, Ramp(a.n), a.n, eps))
  {
    if a.n > 0 && nrhs > 0 {
      RhsHoldsFirstBlock(a, nrhs);
    }
  }

  /** The right-hand side built from `nrhs > 0` ramps holds at least one
      block. */
  lemma RhsHoldsFirstBlock(a: Matrix, nrhs: nat)
    requires WellFormed(a) && a.n > 0 && nrhs > 0
    ensures a.n <= |Rhs(a, Repeat(Ramp(a.n), nrhs), false)|
  {
    var x := Repeat(Ramp(a.n), nrhs);
    RampPrefix(a.n, nrhs);
    RhsLength(a, x, false);
    PositiveMultiple(|Rhs(a, x, false)|, a.n);
  }

  lemma PositiveMultiple(m: nat, n: nat)
    requires n > 0 && m > 0 && m % n == 0
    ensures n <= m
  {
  }

  /** `test_solver_bbus`: for each matrix (read as CSC, `trans == false`),
      build `b0`, run `test_solver`, compare the first block; the first
      failing matrix ends the run, `?` passing an `Err` on and a failed
      comparison or index panicking. */
  method TestSolverBbus(solver: OneShot, mats: seq<Matrix>, nrhs: nat, eps: real)
    returns (r: Outcome<()>)
    requires forall k :: 0 <= k < |mats| ==> WellFormed(mats[k])
    requires InPlaceSolver(solver)
    ensures r.Done? <==> forall k :: 0 <= k < |mats| ==> OneShotPasses(solver, mats[k], nrhs, eps)
    ensures r.Fail? ==>
              exists k :: 0 <= k < |mats| && mats[k].n > 0 &&
                solver(mats[k].n, mats[k].rowIdx, mats[k].colPtr, mats[k].values,
                       Rhs(mats[k], Repeat(Ramp(mats[k].n), nrhs), false), false).out == Fail(r.error)
    // the first failing matrix decides: its solver error is returned, a
    // failed comparison (or a solver panic) panics
    ensures !r.Done? ==>
              exists k :: 0 <= k < |mats| && FirstFailing(solver, mats, nrhs, eps, k) &&
                (r.Fail? <==> OneShotError(solver, mats[k], nrhs).Some?) &&
                (r.Fail? ==> OneShotError(solver, mats[k], nrhs) == Some(r.error))
  {
    var k := 0;
    while k < |mats|
      invariant 0 <= k <= |mats|
      invariant forall j :: 0 <= j < k ==> OneShotPasses(solver, mats[j], nrhs, eps)
    {
      var v := SolverBbusStep(solver, mats[k], nrhs, eps);
      if !v.Done? {
        FirstFailureDecides(solver, mats, nrhs, eps, k, v);
        return v;
      }
      k := k + 1;
    }
    return Done(());
  }

  /** A step's verdict on the first failing matrix is the verdict of the
      whole run. */
  lemma FirstFailureDecides(solver: OneShot, mats: seq<Matrix>, nrhs: nat, eps: real, k: nat,
                            v: Outcome<()>)
    requires forall j :: 0 <= j < |mats| ==> WellFormed(mats[j])
    requires k < |mats|
    requires forall j :: 0 <= j < k ==> OneShotPasses(solver, mats[j], nrhs, eps)
    requires !v.Done? && (v.Done? <==> OneShotPasses(solver, mats[k], nrhs, eps))
    requires v.Fail? ==> OneShotError(solver, mats[k], nrhs) == Some(v.error)
    requires v.Fail? <==> OneShotError(solver, mats[k], nrhs).Some?
    ensures exists i :: 0 <= i < |mats| && FirstFailing(solver, mats, nrhs, eps, i) &&
              (v.Fail? <==> OneShotError(solver, mats[i], nrhs).Some?) &&
              (v.Fail? ==> OneShotError(solver, mats[i], nrhs) == Some(v.error))
  {
    assert FirstFailing(solver, mats, nrhs, eps, k);
  }

  /** One matrix of `test_solver_bbus`: build `b0`, run `test_solver`,
      compare the first block. */
  method SolverBbusStep(solver: OneShot, a: Matrix, nrhs: nat, eps: real) returns (v: Outcome<()>)
    requires WellFormed(a) && InPlaceSolver(solver)
    ensures v.Done? <==> OneShotPasses(solver, a, nrhs, eps)
    ensures v.Fail? ==>
              a.n > 0 &&
              solver(a.n, a.rowIdx, a.colPtr, a.values, Rhs(a, Repeat(Ramp(a.n), nrhs), false), false).out
                == Fail(v.error)
    // a solver error is returned as it is, never turned into a panic
    ensures v.Fail? <==> OneShotError(solver, a, nrhs).Some?
    ensures v.Fail? ==> OneShotError(solver, a, nrhs) == Some(v.error)
  {
    var b0 := BuildRamps(a.n, nrhs);
    assert b0 == Repeat(Ramp(a.n), nrhs) by { RepeatMatches(a.n, nrhs, b0); }
    var h := TestSolver(solver, a.n, a.rowIdx, a.colPtr, a.values, b0, false);
    assert Matrix(a.n, a.colPtr, a.rowIdx, a.values) == a;
    ghost var o := if a.n > 0 then solver(a.n, a.rowIdx, a.colPtr, a.values, Rhs(a, b0, false), false).out else Panic;
    assert h.Fail? <==> o.Fail?;
    assert OneShotError(solver, a, nrhs) == (if o.Fail? then Some(o.error) else None);
    v := BbusVerdict(h, b0, a.n, eps);
    RampPrefix(a.n, nrhs);
  }

  /** Whether one bbus matrix passes the factor harness: factoring succeeds,
      solving the ramp right-hand side with that factorization returns, and
      the first block is within `eps` of the ramp. */
  predicate FactorPasses<F>(solver: FactorSolver<F>, a: Matrix, nrhs: nat, eps: real)
    requires WellFormed(a)
  {
    && a.n > 0
    && solver.factor(a.n, a.rowIdx, a.colPtr, a.values).Done?
    && var s := solver.solve(solver.factor(a.n, a.rowIdx, a.colPtr, a.values).value,
                             Rhs(a, Repeat(Ramp(a.n), nrhs), false), false);
       && s.out.Done?
       && nrhs > 0
       && a.n <= |s.b|
       && FirstBlockClose(s.b, Ramp(a.n), a.n, eps)
  }

  /** The `Err` one matrix of the factor harness hands back through `?`, if
      any: the factor error, or after a successful factor the solve error. */
  function FactorError<F>(solver: FactorSolver<F>, a: Matrix, nrhs: nat): Option<Error>
    requires WellFormed(a)
  {
    if a.n == 0 then None
    else
      match solver.factor(a.n, a.rowIdx, a.colPtr, a.values)
      case Fail(e) => Some(e)
      case Panic => None
      case Done(f) =>
        match solver.solve(f, Rhs(a, Repeat(Ramp(a.n), nrhs), false), false).out
        case Fail(e) => Some(e)
        case _ => None
  }

  /** Matrix k is the first of `mats` that does not pass the factor harness. */
  predicate FactorFirstFailing<F>(solver: FactorSolver<F>, mats: seq<Matrix>, nrhs: nat, eps: real, k: nat)
    requires forall j :: 0 <= j < |mats| ==> WellFormed(mats[j])
    requires k < |mats|
  {
    && (forall j :: 0 <= j < k ==> FactorPasses(solver, mats[j], nrhs, eps))
    && !FactorPasses(solver, mats[k], nrhs, eps)
  }

  /** `test_factor_solver_bbus`: as `test_solver_bbus`, through
      `test_factor_solver`. */
  method TestFactorSolverBbus<F(!new)>(solver: FactorSolver<F>, mats: seq<Matrix>, nrhs: nat, eps: real)
    returns (r: Outcome<()>)
    requires forall k :: 0 <= k < |mats| ==> WellFormed(mats[k])
    requires InPlaceFactorSolver(solver)
    ensures r.Done? <==> forall k :: 0 <= k < |mats| ==> FactorPasses(solver, mats[k], nrhs, eps)
    ensures r.Fail? ==>
              exists k :: 0 <= k < |mats| && mats[k].n > 0 &&
                var f := solver.factor(mats[k].n, mats[k].rowIdx, mats[k].colPtr, mats[k].values);
                f == Fail(r.error) ||
                (f.Done? && solver.solve(f.value, Rhs(mats[k], Repeat(Ramp(mats[k].n), nrhs), false),
                                         false).out == Fail(r.error))
    // the first failing matrix decides: its factor or solve error is
    // returned, a failed comparison (or a panic) panics
    ensures !r.Done? ==>
              exists k :: 0 <= k < |mats| && FactorFirstFailing(solver, mats, nrhs, eps, k) &&
                (r.Fail? <==> FactorError(solver, mats[k], nrhs).Some?) &&
                (r.Fail? ==> FactorError(solver, mats[k], nrhs) == Some(r.error))
  {
    var k := 0;
    while k < |mats|
      invariant 0 <= k <= |mats|
      invariant forall j :: 0 <= j < k ==> FactorPasses(solver, mats[j], nrhs, eps)
    {
      var v := FactorBbusStep(solver, mats[k], nrhs, eps);
      if !v.Done? {
        FactorFirstFailureDecides(solver, mats, nrhs, eps, k, v);
        return v;
      }
      k := k + 1;
    }
    return Done(());
  }

  /** The same for the factor harness. */
  lemma FactorFirstFailureDecides<F>(solver: FactorSolver<F>, mats: seq<Matrix>, nrhs: nat, eps: real,
                                     k: nat, v: Outcome<()>)
    requires forall j :: 0 <= j < |mats| ==> WellFormed(mats[j])
    requires k < |mats|
    requires forall j :: 0 <= j < k ==> FactorPasses(solver, mats[j], nrhs, eps)
    requires !v.Done? && (v.Done? <==> FactorPasses(solver, mats[k], nrhs, eps))
    requires v.Fail? ==> FactorError(solver, mats[k], nrhs) == Some(v.error)
    requires v.Fail? <==> FactorError(solver, mats[k], nrhs).Some?
    ensures exists i :: 0 <= i < |mats| && FactorFirstFailing(solver, mats, nrhs, eps, i) &&
              (v.Fail? <==> FactorError(solver, mats[i], nrhs).Some?) &&
              (v.Fail? ==> FactorError(solver, mats[i], nrhs) == Some(v.error))
  {
    assert FactorFirstFailing(solver, mats, nrhs, eps, k);
  }

  /** One matrix of `test_factor_solver_bbus`: build `b0`, run
      `test_factor_solver`, compare the first block. */
  method FactorBbusStep<F(!new)>(solver: FactorSolver<F>, a: Matrix, nrhs: nat, eps: real) returns (v: Outcome<()>)
    requires WellFormed(a) && InPlaceFactorSolver(solver)
    ensures v.Done? <==> FactorPasses(solver, a, nrhs, eps)
    ensures v.Fail? ==>
              a.n > 0 &&
              var f := solver.factor(a.n, a.rowIdx, a.colPtr, a.values);
              f == Fail(v.error) ||
              (f.Done? && solver.solve(f.value, Rhs(a, Repeat(Ramp(a.n), nrhs), false), false).out
                            == Fail(v.error))
    // a factor or solve error is returned as it is, never turned into a panic
    ensures v.Fail? <==> FactorError(solver, a, nrhs).Some?
    ensures v.Fail? ==> FactorError(solver, a, nrhs) == Some(v.error)
  {
    var b0 := BuildRamps(a.n, nrhs);
    assert b0 == Repeat(Ramp(a.n), nrhs) by { RepeatMatches(a.n, nrhs, b0); }
    var h, _ := TestFactorSolver(solver, a.n, a.rowIdx, a.colPtr, a.values, b0, false);
    assert Matrix(a.n, a.colPtr, a.rowIdx, a.values) == a;
    v := BbusVerdict(h, b0, a.n, eps);
    RampPrefix(a.n, nrhs);
  }

  /** A solver that returns the exact solution, all `nrhs` ramps, passes
      the bbus check for every tolerance. */
  lemma ExactSolverPasses(solver: OneShot, a: Matrix, nrhs: nat, eps: real)
    requires WellFormed(a) && a.n > 0 && nrhs > 0 && eps >= 0.0
    requires var s := solver(a.n, a.rowIdx, a.colPtr, a.values, Rhs(a, Repeat(Ramp(a.n), nrhs), false), false);
             s.out.Done? && s.b == Repeat(Ramp(a.n), nrhs)
    ensures OneShotPasses(solver, a, nrhs, eps)
  {
    RampPrefix(a.n, nrhs);
    var b := Repeat(Ramp(a.n), nrhs);
    assert forall i :: 0 <= i < a.n ==> b[i] == b[..a.n][i];
  }

  /** What `BuildRamps` returns is the `Repeat` of the ramp. */
  lemma RepeatMatches(n: nat, nrhs: nat, b0: seq<real>)
    requires |b0| == nrhs * n
    requires forall q :: 0 <= q < |b0| ==> b0[q] == 1.0 + ((q % n) as real) / (n as real)
    ensures b0 == Repeat(Ramp(n), nrhs)
  {
    RepeatIndex(Ramp(n), nrhs);
    forall q | 0 <= q < |b0|
      ensures b0[q] == Repeat(Ramp(n), nrhs)[q]
    {
      assert n > 0;
      assert 0 <= q % n < n;
    }
  }

  /** With at least one copy, the first n entries of `b0` are the ramp. */
  lemma RampPrefix(n: nat, nrhs: nat)
    ensures nrhs > 0 ==> n <= |Repeat(Ramp(n), nrhs)| && Repeat(Ramp(n), nrhs)[..n] == Ramp(n)
    ensures nrhs == 0 ==> Repeat(Ramp(n), nrhs) == []
  {
    if nrhs > 0 {
      RepeatFront(Ramp(n), nrhs);
    }
  }
}
