/** The RLU adapter of src/rlu.rs over the pure-Rust `rlu` and `amd` crates.
    The AMD ordering, the LU decomposition and the four triangular solves
    are parameters; what is modelled is the order in which the adapter calls
    them, what it hands each, how it maps an AMD failure, and the
    permutation scatter and gather around the triangular solves. */
module Rlu {
  import opened Wrappers
  import opened Outcomes
  import opened Permutations

  /** A call into the `amd` or `rlu` crate, with what the adapter passes. */
  datatype Call =
    | AmdOrder(n: int)
    | LuSolve(perm: seq<int>, trans: bool)
    | LuDecomposition(perm: seq<int>)
    | LSolve | USolve | LtSolve | UtSolve

  /** What `rlu::lu_decomposition` returns: L, U and the row permutation. */
  datatype Lu<M> = Lu(l: M, u: M, rp: seq<Option<nat>>)

  /** The stored factorization `(cp, L, U, rp)`. */
  datatype Factors<M> = Factors(cp: seq<int>, l: M, u: M, rp: seq<Option<nat>>)

  /** The crates' entry points.  `amdOrder(n, a_p, a_i)` is `amd::order` with
      the solver's control (its inverse permutation and info are unused);
      `solve` is the one-shot `rlu::solve`, returning the new `b`. */
  datatype Lib<!M> = Lib(
    amdOrder: (int, seq<int>, seq<int>) -> Result<seq<int>, int>,
    solve: (nat, seq<int>, seq<int>, seq<real>, seq<int>, seq<real>, bool) -> seq<real>,
    luDecomposition: (nat, seq<int>, seq<int>, seq<real>, seq<int>) -> Lu<M>,
    lsolve: (M, seq<real>) -> seq<real>,
    usolve: (M, seq<real>) -> seq<real>,
    ltsolve: (M, seq<real>) -> seq<real>,
    utsolve: (M, seq<real>) -> seq<real>)

  /** Routines that write a `&mut [S]` cannot change its length. */
  ghost predicate Sound<M(!new)>(lib: Lib<M>) {
    && (forall n, a_i, a_p, a_x, p, b, t :: |lib.solve(n, a_i, a_p, a_x, p, b, t)| == |b|)
    && InPlace(lib.lsolve) && InPlace(lib.usolve)
    && InPlace(lib.ltsolve) && InPlace(lib.utsolve)
  }

  /** `Solver::solve`: order with AMD (an error becomes "amd status"), then
      the one-shot `rlu::solve` with `Some(&p)` and `trans`; always `Ok`
      after that. */
  function Solve<M>(lib: Lib<M>, n: nat, a_i: seq<int>, a_p: seq<int>, a_x: seq<real>,
                    b: seq<real>, trans: bool): (r: Run<Call>)
    ensures r.out != Panic
    ensures |r.calls| >= 1 && r.calls[0] == AmdOrder(n)
    ensures r.out.Fail? <==> lib.amdOrder(n, a_p, a_i).Err?
    ensures r.out.Fail? ==>
              r.out.error == AmdStatus(lib.amdOrder(n, a_p, a_i).error) &&
              r.b == b && |r.calls| == 1
    ensures r.out.Done? ==>
              var p := lib.amdOrder(n, a_p, a_i).value;
              r.calls == [AmdOrder(n), LuSolve(p, trans)] &&
              r.b == lib.solve(n, a_i, a_p, a_x, p, b, trans)
  {
    match lib.amdOrder(n, a_p, a_i)
    case Err(st) => Run(Fail(AmdStatus(st)), b, [AmdOrder(n)])
    case Ok(p) => Run(Done(()), lib.solve(n, a_i, a_p, a_x, p, b, trans), [AmdOrder(n), LuSolve(p, trans)])
  }

  /** `FactorSolver::factor`: `I::from(n).unwrap()` panics when n exceeds
      `iMax`, the largest value of the index type; an AMD failure is returned
      before any decomposition; otherwise the factorization keeps the AMD
      permutation as `cp`. */
  function Factor<M>(lib: Lib<M>, iMax: nat, n: nat, a_i: seq<int>, a_p: seq<int>, a_x: seq<real>)
    : (r: Made<Factors<M>, Call>)
    ensures n > iMax <==> r.out.Panic?
    ensures r.out.Panic? ==> r.calls == []
    ensures n <= iMax ==> |r.calls| >= 1 && r.calls[0] == AmdOrder(n)
    ensures r.out.Fail? <==> n <= iMax && lib.amdOrder(n, a_p, a_i).Err?
    ensures r.out.Fail? ==>
              r.out.error == AmdStatus(lib.amdOrder(n, a_p, a_i).error) && r.calls == [AmdOrder(n)]
    ensures r.out.Done? ==>
              var cp := lib.amdOrder(n, a_p, a_i).value;
              var lu := lib.luDecomposition(n, a_i, a_p, a_x, cp);
              r.calls == [AmdOrder(n), LuDecomposition(cp)] &&
              r.out.value == Factors(cp, lu.l, lu.u, lu.rp)
  {
    if n > iMax then Made(Panic, [])
    else
      match lib.amdOrder(n, a_p, a_i)
      case Err(st) => Made(Fail(AmdStatus(st)), [AmdOrder(n)])
      case Ok(cp) =>
        var lu := lib.luDecomposition(n, a_i, a_p, a_x, cp);
        Made(Done(Factors(cp, lu.l, lu.u, lu.rp)), [AmdOrder(n), LuDecomposition(cp)])
  }

  /** The scatter `x[rp[i].unwrap()] = b[i]` for i in 0..n runs without
      panicking: every `rp[i]` exists, is `Some`, and is a valid index. */
  predicate ScatterOk(rp: seq<Option<nat>>, n: nat) {
    n <= |rp| && forall i :: 0 <= i < n ==> rp[i].Some? && rp[i].value < n
  }

  /** The gather `b[cp[i]] = x[i]` for i in 0..n runs without panicking. */
  predicate GatherOk(cp: seq<int>, n: nat) {
    n <= |cp| && InRange(cp[..n], n)
  }

  /** The scatter destinations, with -1 for a `None` (which panics). */
  function Targets(rp: seq<Option<nat>>): (t: seq<int>)
    ensures |t| == |rp|
    ensures forall i :: 0 <= i < |rp| && rp[i].Some? ==> t[i] == rp[i].value
  {
    seq(|rp|, i requires 0 <= i < |rp| => if rp[i].Some? then rp[i].value as int else -1)
  }

  /** The triangular solves on `x`: L then U, or Lᵗ then Uᵗ when `trans`. */
  function Triangular<M>(lib: Lib<M>, f: Factors<M>, x: seq<real>, trans: bool): seq<real> {
    if trans then lib.utsolve(f.u, lib.ltsolve(f.l, x)) else lib.usolve(f.u, lib.lsolve(f.l, x))
  }

  /** `FactorSolver::solve`: n is `b.len()`; `x` starts as n zeros and
      receives b through the row permutation; the two triangular solves run
      in the order `trans` selects; b receives x through the column
      permutation; the result is always `Ok` when nothing panics. */
  method FactorSolve<M(!new)>(lib: Lib<M>, f: Factors<M>, b: seq<real>, trans: bool) returns (r: Run<Call>)
    requires Sound(lib)
    ensures !r.out.Fail?
    ensures r.out.Done? <==> ScatterOk(f.rp, |b|) && GatherOk(f.cp, |b|)
    ensures !ScatterOk(f.rp, |b|) ==> r.calls == [] && r.b == b
    ensures ScatterOk(f.rp, |b|) ==> r.calls == (if trans then [LtSolve, UtSolve] else [LSolve, USolve])
    ensures r.out.Done? ==>
              var n := |b|;
              var x := Triangular(lib, f, Assign(Zeros(n), Targets(f.rp), b, n), trans);
              |x| == n && r.b == Assign(b, f.cp, x, n)
    // a bijective row permutation puts every b[i] at x[rp[i]], and every
    // entry of x is written
    ensures r.out.Done? && IsPermutation(Targets(f.rp)[..|b|], |b|) ==>
              var n := |b|;
              var xs := Assign(Zeros(n), Targets(f.rp), b, n);
              (forall i :: 0 <= i < n ==> xs[f.rp[i].value] == b[i]) &&
              (forall v :: 0 <= v < n ==> xs[v] == b[Preimage(Targets(f.rp)[..n], n, v)])
    // a bijective column permutation overwrites every entry of b exactly
    // once, entry cp[i] with x[i]
    ensures r.out.Done? && IsPermutation(f.cp[..|b|], |b|) ==>
              var n := |b|;
              var x := Triangular(lib, f, Assign(Zeros(n), Targets(f.rp), b, n), trans);
              (forall i :: 0 <= i < n ==> r.b[f.cp[i]] == x[i]) &&
              (forall v :: 0 <= v < n ==> r.b[v] == x[Preimage(f.cp[..n], n, v)])
  {
    var n := |b|;
    var dst := Targets(f.rp);
    var x := Zeros(n);
    var i := 0;
    while i < n
      invariant 0 <= i <= n
      invariant i <= |f.rp| && forall j :: 0 <= j < i ==> f.rp[j].Some? && f.rp[j].value < n
      invariant InRange(dst[..i], n)
      invariant x == Assign(Zeros(n), dst, b, i)
    {
      if i >= |f.rp| || f.rp[i].None? || f.rp[i].value >= n {
        return Run(Panic, b, []);
      }
      x := x[f.rp[i].value := b[i]];
      i := i + 1;
      assert dst[..i] == dst[..i - 1] + [dst[i - 1]];
    }
    assert dst[..n] == dst[..i];
    var xs := x;
    var calls: seq<Call>;
    if !trans {
      x := lib.lsolve(f.l, x);
      x := lib.usolve(f.u, x);
      calls := [LSolve, USolve];
    } else {
      x := lib.ltsolve(f.l, x);
      x := lib.utsolve(f.u, x);
      calls := [LtSolve, UtSolve];
    }
    var out := b;
    i := 0;
    while i < n
      invariant 0 <= i <= n && |x| == n
      invariant i <= |f.cp| && InRange(f.cp[..i], n)
      invariant out == Assign(b, f.cp, x, i)
    {
      if i >= |f.cp| || f.cp[i] < 0 || f.cp[i] >= n {
        assert !GatherOk(f.cp, n) by {
          if i < |f.cp| && n <= |f.cp| {
            assert f.cp[..n][i] == f.cp[i];
          }
        }
        return Run(Panic, out, calls);
      }
      out := out[f.cp[i] := x[i]];
      i := i + 1;
      assert f.cp[..i] == f.cp[..i - 1] + [f.cp[i - 1]];
    }
    assert f.cp[..n] == f.cp[..i];
    if IsPermutation(dst[..n], n) {
      AssignPermutation(Zeros(n), dst, b, n);
    }
    if IsPermutation(f.cp[..n], n) {
      AssignPermutation(b, f.cp, x, n);
    }
    return Run(Done(()), out, calls);
  }

  /** The one-shot solve and `factor` agree on the ordering: for an n the
      index type holds, both succeed or both fail with the same AMD status
      after the same AMD call, and the permutation the one-shot solve hands
      to `rlu::solve` is the `cp` the factorization keeps. */
  lemma OneShotAgreesWithFactor<M>(lib: Lib<M>, iMax: nat, n: nat, a_i: seq<int>, a_p: seq<int>,
                                   a_x: seq<real>, b: seq<real>, trans: bool)
    requires n <= iMax
    ensures var one := Solve(lib, n, a_i, a_p, a_x, b, trans);
            var f := Factor(lib, iMax, n, a_i, a_p, a_x);
            && (one.out.Done? <==> f.out.Done?)
            && (one.out.Fail? ==> f.out == Fail(one.out.error) && f.calls == one.calls)
            && (f.out.Done? ==> one.calls[1] == LuSolve(f.out.value.cp, trans) &&
                                f.calls[1] == LuDecomposition(f.out.value.cp))
  {
  }

  /** `factor` followed by the factor solver's `solve`, as the factor-solver
      test drives them: the solve scatters and gathers through the factors
      `factor` built, so b receives the triangular solution through the AMD
      permutation, entry `cp[i]` getting `x[i]` when it is a bijection. */
  method FactorThenSolve<M(!new)>(lib: Lib<M>, iMax: nat, n: nat, a_i: seq<int>, a_p: seq<int>,
                                  a_x: seq<real>, b: seq<real>, trans: bool)
    returns (f: Made<Factors<M>, Call>, r: Run<Call>)
    requires Sound(lib)
    ensures f.out.Panic? <==> n > iMax
    // a failed or panicking factorization is passed on and b is untouched
    ensures f.out.Fail? ==> r == Run(Fail(f.out.error), b, [])
    ensures f.out.Panic? ==> r == Run(Panic, b, [])
    ensures f.out.Done? ==>
              && n <= iMax && lib.amdOrder(n, a_p, a_i).Ok?
              && f.out.value.cp == lib.amdOrder(n, a_p, a_i).value
    // the solve completes exactly when the scatter and the gather stay in range
    ensures f.out.Done? ==>
              (r.out.Done? <==> ScatterOk(f.out.value.rp, |b|) &&
                                GatherOk(lib.amdOrder(n, a_p, a_i).value, |b|))
    ensures f.out.Done? && r.out.Done? ==>
              var cp := lib.amdOrder(n, a_p, a_i).value;
              var x := Triangular(lib, f.out.value, Assign(Zeros(|b|), Targets(f.out.value.rp), b, |b|), trans);
              |x| == |b| && r.b == Assign(b, cp, x, |b|) &&
              (IsPermutation(cp[..|b|], |b|) ==> forall i :: 0 <= i < |b| ==> r.b[cp[i]] == x[i])
  {
    f := Factor(lib, iMax, n, a_i, a_p, a_x);
    match f.out
    case Fail(e) => return f, Run(Fail(e), b, []);
    case Panic => return f, Run(Panic, b, []);
    case Done(_) =>
    r := FactorSolve(lib, f.out.value, b, trans);
  }
}
