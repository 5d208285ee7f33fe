/** The RSparse adapter of src/rsparse.rs: a `Sprs` matrix is filled in from
    the CSC arrays and the pure-Rust `rsparse::lusol` solves a copy of `b`,
    which is then copied back.  `lusol` is a parameter. */
module RSparse {
  import opened Ints
  import opened Outcomes

  /** The solver's options: the ordering (-1 natural, 0 Cholesky, 1 LU,
      2 QR, an `i8`) and the partial pivoting tolerance. */
  datatype RSparse = RSparse(order: int, tol: real)

  /** The fields of `rsparse::data::Sprs` the adapter sets; column pointers
      are `isize`. */
  datatype Sprs = Sprs(nzmax: nat, m: nat, n: nat, p: seq<int>, i: seq<int>, x: seq<real>)

  /** The one call into the crate, with what it is handed. */
  datatype Call = LuSol(a: Sprs, order: int, tol: real)

  /** `rsparse::lusol(&a, &mut b, order, tol)`, returning the vector it
      leaves. */
  type LuSol = (Sprs, seq<real>, int, real) -> seq<real>

  /** `RSparse::default()`: LU ordering, tolerance 1. */
  function Default(): (s: RSparse)
    ensures s.order == 1 && s.tol == 1.0
  {
    RSparse(1, 1.0)
  }

  /** The matrix handed to `lusol`. */
  function Matrix(n: nat, a_i: seq<int>, a_p: seq<int>, a_x: seq<real>): (a: Sprs)
    ensures a.m == a.n == n
    ensures a.nzmax >= 1 && a.nzmax >= |a_x| && (|a_x| > 0 ==> a.nzmax == |a_x|)
    ensures |a.p| == |a_p| && forall k :: 0 <= k < |a_p| ==> a.p[k] == WrapI64(a_p[k])
    ensures a.i == a_i && a.x == a_x
  {
    Sprs(if |a_x| >= 1 then |a_x| else 1, n, n, WrapI64All(a_p), a_i, a_x)
  }

  /** `Solver::solve` of RSparse; `trans` is not used.  The copy-back
      `clone_from_slice` panics if `lusol` changed the vector's length;
      otherwise the whole of `b` is replaced and the result is `Ok`. */
  function Solve(lusol: LuSol, s: RSparse, n: nat, a_i: seq<int>, a_p: seq<int>, a_x: seq<real>,
                 b: seq<real>, trans: bool): (r: Run<Call>)
    ensures r.calls == [LuSol(Matrix(n, a_i, a_p, a_x), s.order, s.tol)]
    ensures !r.out.Fail?
    ensures r.out.Done? <==> |lusol(Matrix(n, a_i, a_p, a_x), b, s.order, s.tol)| == |b|
    ensures r.out.Done? ==> r.b == lusol(Matrix(n, a_i, a_p, a_x), b, s.order, s.tol)
  {
    var a := Matrix(n, a_i, a_p, a_x);
    var bv := lusol(a, b, s.order, s.tol);
    var calls := [LuSol(a, s.order, s.tol)];
    if |bv| != |b| then Run(Panic, b, calls) else Run(Done(()), bv, calls)
  }

  /** The untransposed system is solved whatever `trans` says. */
  lemma TransIgnored(lusol: LuSol, s: RSparse, n: nat, a_i: seq<int>, a_p: seq<int>,
                     a_x: seq<real>, b: seq<real>)
    ensures Solve(lusol, s, n, a_i, a_p, a_x, b, true) == Solve(lusol, s, n, a_i, a_p, a_x, b, false)
  {
  }

  /** Column pointers below 2^63 are copied unchanged. */
  lemma PointersCopied(n: nat, a_i: seq<int>, a_p: seq<int>, a_x: seq<real>)
    requires forall k :: 0 <= k < |a_p| ==> 0 <= a_p[k] <= I64_MAX
    ensures Matrix(n, a_i, a_p, a_x).p == a_p
  {
    WidenIsLossless(a_p);
  }
}
