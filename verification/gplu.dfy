/** The GPLU adapter of src/gplu.rs over the `amd` and `gplu` crates: order
    with AMD, factor with that column permutation, solve.  The three crate
    routines are parameters. */
module Gplu {
  import opened Wrappers
  import opened Outcomes

  /** A crate call, with what the adapter passes. */
  datatype Call = AmdOrder(n: int) | GpFactor(perm: seq<int>) | GpSolve(trans: bool)

  /** What `gplu::solve` leaves: its result, the crate error's text on
      `Err`, and `b`. */
  datatype Written = Written(result: Result<(), string>, b: seq<real>)

  /** `amd::order` (with the solver's control), `gplu::factor` (with the
      solver's options; an `Err` carries the crate error's text) and
      `gplu::solve`. */
  datatype Lib<!U> = Lib(
    amdOrder: (int, seq<int>, seq<int>) -> Result<seq<int>, int>,
    factor: (int, seq<int>, seq<int>, seq<real>, seq<int>) -> Result<U, string>,
    solve: (U, seq<real>, bool) -> Written)

  /** `gplu::solve`'s result as the adapter reports it. */
  function Finish(w: Written): Outcome<()> {
    match w.result
    case Ok(_) => Done(())
    case Err(e) => Fail(SolveFailed(e))
  }

  /** `FactorSolver::factor`: `I::from(n).unwrap()` (a panic when n exceeds
      `iMax`, the largest value of the index type), AMD ordering (an error
      becomes "amd status"), then factorization with `Some(&p)` (an error
      becomes "factor error"). */
  function Factor<U>(lib: Lib<U>, iMax: nat, n: nat, a_i: seq<int>, a_p: seq<int>,
                             a_x: seq<real>): (r: Made<U, Call>)
    ensures r.out.Panic? <==> n > iMax
    ensures r.out.Panic? ==> r.calls == []
    ensures n <= iMax ==> |r.calls| >= 1 && r.calls[0] == AmdOrder(n)
    // an AMD failure is reported before any factorization
    ensures n <= iMax && lib.amdOrder(n, a_p, a_i).Err? ==>
              r.out == Fail(AmdStatus(lib.amdOrder(n, a_p, a_i).error)) && r.calls == [AmdOrder(n)]
    // the factorization receives exactly AMD's permutation
    ensures n <= iMax && lib.amdOrder(n, a_p, a_i).Ok? ==>
              var p := lib.amdOrder(n, a_p, a_i).value;
              && r.calls == [AmdOrder(n), GpFactor(p)]
              && (r.out.Done? <==> lib.factor(n, a_i, a_p, a_x, p).Ok?)
              && (r.out.Done? ==> r.out.value == lib.factor(n, a_i, a_p, a_x, p).value)
              // the crate's error text is kept in the message
              && (!r.out.Done? ==> r.out == Fail(FactorFailed(lib.factor(n, a_i, a_p, a_x, p).error)))
  {
    if n > iMax then Made(Panic, [])
    else
      match lib.amdOrder(n, a_p, a_i)
      case Err(st) => Made(Fail(AmdStatus(st)), [AmdOrder(n)])
      case Ok(p) =>
        match lib.factor(n, a_i, a_p, a_x, p)
        case Err(e) => Made(Fail(FactorFailed(e)), [AmdOrder(n), GpFactor(p)])
        case Ok(lu) => Made(Done(lu), [AmdOrder(n), GpFactor(p)])
  }

  /** `FactorSolver::solve`: `gplu::solve` with `trans` unchanged; its error
      becomes "solve error". */
  function FactorSolve<U>(lib: Lib<U>, f: U, b: seq<real>, trans: bool): (r: Run<Call>)
    ensures r.calls == [GpSolve(trans)]
    ensures r.b == lib.solve(f, b, trans).b
    ensures r.out.Done? <==> lib.solve(f, b, trans).result.Ok?
    ensures !r.out.Done? ==> r.out == Fail(SolveFailed(lib.solve(f, b, trans).result.error))
  {
    var w := lib.solve(f, b, trans);
    Run(Finish(w), w.b, [GpSolve(trans)])
  }

  /** `Solver::solve`: order, factor, solve, the first error returned. */
  function Solve<U>(lib: Lib<U>, iMax: nat, n: nat, a_i: seq<int>, a_p: seq<int>,
                    a_x: seq<real>, b: seq<real>, trans: bool): (r: Run<Call>)
    // nothing after a failed stage runs, and b is untouched until the solve
    ensures r.out.Panic? <==> n > iMax
    ensures r.out.Fail? && GpSolve(trans) !in r.calls ==> r.b == b
    // an AMD failure stops before the factorization, a factorization failure
    // before the solve
    ensures n <= iMax && lib.amdOrder(n, a_p, a_i).Err? ==>
              r == Run(Fail(AmdStatus(lib.amdOrder(n, a_p, a_i).error)), b, [AmdOrder(n)])
    ensures n <= iMax && lib.amdOrder(n, a_p, a_i).Ok? &&
            lib.factor(n, a_i, a_p, a_x, lib.amdOrder(n, a_p, a_i).value).Err? ==>
              var p := lib.amdOrder(n, a_p, a_i).value;
              r == Run(Fail(FactorFailed(lib.factor(n, a_i, a_p, a_x, p).error)), b, [AmdOrder(n), GpFactor(p)])
    // the solve sees the factorization of AMD's permutation and trans as given
    ensures r.out.Done? ==>
              var p := lib.amdOrder(n, a_p, a_i).value;
              var lu := lib.factor(n, a_i, a_p, a_x, p).value;
              r.calls == [AmdOrder(n), GpFactor(p), GpSolve(trans)] &&
              r.b == lib.solve(lu, b, trans).b
    // once factored, the solve's result decides, and its error keeps the crate's text
    ensures n <= iMax && lib.amdOrder(n, a_p, a_i).Ok? &&
            lib.factor(n, a_i, a_p, a_x, lib.amdOrder(n, a_p, a_i).value).Ok? ==>
              var w := lib.solve(lib.factor(n, a_i, a_p, a_x, lib.amdOrder(n, a_p, a_i).value).value, b, trans);
              && (r.out.Done? <==> w.result.Ok?)
              && (w.result.Err? ==> r.out == Fail(SolveFailed(w.result.error)))
              && r.b == w.b
  {
    if n > iMax then Run(Panic, b, [])
    else
      match lib.amdOrder(n, a_p, a_i)
      case Err(st) => Run(Fail(AmdStatus(st)), b, [AmdOrder(n)])
      case Ok(p) =>
        match lib.factor(n, a_i, a_p, a_x, p)
        case Err(e) => Run(Fail(FactorFailed(e)), b, [AmdOrder(n), GpFactor(p)])
        case Ok(lu) =>
          var w := lib.solve(lu, b, trans);
          Run(Finish(w), w.b, [AmdOrder(n), GpFactor(p), GpSolve(trans)])
  }

  /** The one-shot solve is exactly `factor` followed by the factor solver's
      `solve` on the same b and `trans`: same outcome, same b, and the same
      calls in the same order. */
  lemma OneShotIsFactorThenSolve<U>(lib: Lib<U>, iMax: nat, n: nat, a_i: seq<int>, a_p: seq<int>,
                                    a_x: seq<real>, b: seq<real>, trans: bool)
    ensures var one := Solve(lib, iMax, n, a_i, a_p, a_x, b, trans);
            var f := Factor(lib, iMax, n, a_i, a_p, a_x);
            match f.out
            case Done(lu) =>
              var s := FactorSolve(lib, lu, b, trans);
              one == Run(s.out, s.b, f.calls + s.calls)
            case Fail(e) => one == Run(Fail(e), b, f.calls)
            case Panic => one == Run(Panic, b, f.calls)
  {
  }
}
