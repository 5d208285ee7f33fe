/** The BasicLU adapter of src/basiclu.rs: the `usize` index arrays are cast
    to `i64`, and the `basiclu` object is initialized, factorized with the
    column begin array `a_p` and end array `a_p[1..]`, and solved.  The
    object's routines are parameters. */
module BasicLu {
  import opened Ints
  import opened Outcomes

  /** A call on the `basiclu::Object`, with what it is handed. */
  datatype Call =
    | Initialize(n: nat)
    | Factorize(begin: seq<int>, end: seq<int>, i: seq<int>, x: seq<real>)
    | SolveCall(rhs: seq<real>, trans: bool)

  /** `initialize(n)`, `factorize(begin, end, i, x)` and
      `solve(rhs, lhs, trans)`, the last returning the new `lhs`. */
  datatype Lib<!O> = Lib(
    initialize: nat -> O,
    factorize: (O, seq<int>, seq<int>, seq<int>, seq<real>) -> O,
    solve: (O, seq<real>, seq<real>, bool) -> seq<real>)

  /** `Solver::solve` of BasicLU.  `&a_p[1..]` panics on an empty `a_p`,
      after the object was initialized; there is no error path. */
  function Solve<O>(lib: Lib<O>, n: nat, a_i: seq<int>, a_p: seq<int>, a_x: seq<real>,
                    b: seq<real>, trans: bool): (r: Run<Call>)
    ensures !r.out.Fail?
    ensures r.out.Panic? <==> |a_p| == 0
    ensures r.out.Panic? ==> r.calls == [Initialize(n)] && r.b == b
    ensures r.out.Done? ==>
              && |r.calls| == 3
              && r.calls[0] == Initialize(n)
              && r.calls[1].Factorize?
              && r.calls[1].i == WrapI64All(a_i)
              && r.calls[1].x == a_x
              // column j runs from begin[j] to end[j] = begin[j + 1]
              && |r.calls[1].begin| == |a_p| && |r.calls[1].end| == |a_p| - 1
              && (forall j :: 0 <= j < |a_p| ==> r.calls[1].begin[j] == WrapI64(a_p[j]))
              && (forall j :: 0 <= j < |a_p| - 1 ==> r.calls[1].end[j] == r.calls[1].begin[j + 1])
              // the solve reads a snapshot of the original b, trans as given
              && r.calls[2] == SolveCall(b, trans)
    // b is overwritten by the solve on the object initialized with n and factorized as above
    ensures r.out.Done? ==>
              var o := lib.factorize(lib.initialize(n), r.calls[1].begin, r.calls[1].end, r.calls[1].i, a_x);
              r.b == lib.solve(o, b, b, trans)
  {
    var ai := WrapI64All(a_i);
    var ap := WrapI64All(a_p);
    if |ap| == 0 then Run(Panic, b, [Initialize(n)])
    else
      var o := lib.initialize(n);
      var o' := lib.factorize(o, ap, ap[1..], ai, a_x);
      var b' := lib.solve(o', b, b, trans);
      Run(Done(()), b', [Initialize(n), Factorize(ap, ap[1..], ai, a_x), SolveCall(b, trans)])
  }

  /** For indices below 2^63 the widening is lossless: the factorization
      sees the original row indices and column pointers. */
  lemma WideningLossless<O>(lib: Lib<O>, n: nat, a_i: seq<int>, a_p: seq<int>, a_x: seq<real>,
                            b: seq<real>, trans: bool)
    requires forall k :: 0 <= k < |a_i| ==> 0 <= a_i[k] <= I64_MAX
    requires forall k :: 0 <= k < |a_p| ==> 0 <= a_p[k] <= I64_MAX
    requires |a_p| > 0
    ensures var c := Solve(lib, n, a_i, a_p, a_x, b, trans).calls[1];
            c.i == a_i && c.begin == a_p && c.end == a_p[1..]
  {
    WidenIsLossless(a_i);
    WidenIsLossless(a_p);
  }
}
