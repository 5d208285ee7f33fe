/** The CSparse adapter of src/csparse.rs: the index arrays are converted to
    i32, a `cs_di_sparse` descriptor is filled in, and the native
    `cs_di_lusol` solves in place.  The native routine and the allocation
    are parameters. */
module CSparse {
  import opened Ints
  import opened Outcomes

  /** The solver's options: the fill-reducing ordering (0 natural, 1 Chol,
      2 LU, 3 QR) and the partial pivoting tolerance. */
  datatype CSparse = CSparse(order: int, tol: real)

  /** `cs_di_sparse` in compressed-column form. */
  datatype Sparse = Sparse(nzmax: int, m: int, n: int, p: seq<int>, i: seq<int>, x: seq<real>, nz: int)

  /** Whether the allocation of the descriptor succeeds, and
      `cs_di_lusol(order, A, b, tol)` (status and the new `b`). */
  datatype Lib = Lib(
    allocOk: bool,
    lusol: (int, Sparse, seq<real>, real) -> (int, seq<real>))

  /** The one native call, with what it is handed. */
  datatype Call = LuSol(order: int, a: Sparse, tol: real)

  /** `CSparse::default()`: LU ordering on AᵗA, tolerance 1. */
  function Default(): (s: CSparse)
    ensures s.order == 2 && s.tol == 1.0
  {
    CSparse(2, 1.0)
  }

  /** `Solver::solve` of CSparse; `trans` is not used. */
  function Solve(lib: Lib, s: CSparse, n: nat, a_i: seq<int>, a_p: seq<int>, a_x: seq<real>,
                 b: seq<real>, trans: bool): (r: Run<Call>)
    // index arrays that do not fit i32 panic before anything native happens
    ensures ToI32All(a_i).None? || ToI32All(a_p).None? ==> r == Run(Panic, b, [])
    // a failed allocation is reported before any solve
    ensures ToI32All(a_i).Some? && ToI32All(a_p).Some? && !lib.allocOk ==>
              r == Run(Fail(AllocSparse), b, [])
    // otherwise exactly one lusol call, on a square compressed-column
    // descriptor of the converted arrays with at least one slot
    ensures ToI32All(a_i).Some? && ToI32All(a_p).Some? && lib.allocOk ==>
              |r.calls| == 1 && r.calls[0].order == s.order && r.calls[0].tol == s.tol &&
              var a := r.calls[0].a;
              && a.m == a.n == WrapI32(n)
              && a.nz == -1
              && a.nzmax >= 1
              && a.nzmax == (if WrapI32(|a_x|) >= 1 then WrapI32(|a_x|) else 1)
              && a.p == a_p && a.i == a_i && a.x == a_x
              && (r.out.Done? <==> lib.lusol(s.order, a, b, s.tol).0 == 1)
              && (!r.out.Done? ==> r.out == Fail(CsLusol))
              && r.b == lib.lusol(s.order, a, b, s.tol).1
  {
    match (ToI32All(a_i), ToI32All(a_p))
    case (None, _) => Run(Panic, b, [])
    case (_, None) => Run(Panic, b, [])
    case (Some(ai), Some(ap)) =>
      var nzmax := WrapI32(|a_x|);
      if !lib.allocOk then Run(Fail(AllocSparse), b, [])
      else
        var a := Sparse(if nzmax >= 1 then nzmax else 1, WrapI32(n), WrapI32(n), ap, ai, a_x, -1);
        var (rv, b') := lib.lusol(s.order, a, b, s.tol);
        Run(if rv != 1 then Fail(CsLusol) else Done(()), b', [LuSol(s.order, a, s.tol)])
  }

  /** The untransposed system is solved whatever `trans` says. */
  lemma TransIgnored(lib: Lib, s: CSparse, n: nat, a_i: seq<int>, a_p: seq<int>, a_x: seq<real>,
                     b: seq<real>)
    ensures Solve(lib, s, n, a_i, a_p, a_x, b, true) == Solve(lib, s, n, a_i, a_p, a_x, b, false)
  {
  }

  /** With fewer than 2^31 entries, `nzmax` is the entry count, or 1 for an
      empty matrix. */
  lemma NzmaxIsEntryCount(lib: Lib, s: CSparse, n: nat, a_i: seq<int>, a_p: seq<int>,
                          a_x: seq<real>, b: seq<real>, trans: bool)
    requires |a_x| <= I32_MAX
    requires ToI32All(a_i).Some? && ToI32All(a_p).Some? && lib.allocOk
    ensures var a := Solve(lib, s, n, a_i, a_p, a_x, b, trans).calls[0].a;
            a.nzmax == if |a_x| == 0 then 1 else |a_x|
  {
  }
}
