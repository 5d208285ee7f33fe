/** The generic solver interface of src/traits.rs, `Solver<I, S, P, F, E>`:
    `permute` (overridable, by default "no permutation"), the two required
    operations `factor` and `factor_solve`, and the default one-shot `solve`
    that composes them and stops at the first error.

    A backend is a record of its operations.  `permuteOverride == None` means
    the backend keeps the default `permute` body.  `factor_solve` receives
    `b: &mut [S]`; it is modelled as returning the new contents of `b`
    together with its `Result`. */
module Traits {
  import opened Wrappers

  /** What `factor_solve` leaves behind: the slice and the result. */
  datatype Step<S, E> = Step(b: seq<S>, result: Result<(), E>)

  datatype Solver<!I, !S, !P, !F, E> = Solver(
    permuteOverride: Option<(I, seq<I>, seq<I>) -> Result<Option<P>, E>>,
    factor: (I, seq<I>, seq<I>, seq<S>, Option<P>) -> Result<F, E>,
    factorSolve: (F, seq<S>, bool) -> Step<S, E>)

  /** A stage of the default `solve`, with what it was handed. */
  datatype Stage<P> =
    | PermuteStage
    | FactorStage(perm: Option<P>)
    | FactorSolveStage(trans: bool)

  /** End of the default `solve`: the slice, the result and the stages run. */
  datatype Run<S, P, E> = Run(b: seq<S>, result: Result<(), E>, stages: seq<Stage<P>>)

  /** `Solver::permute`: the override if there is one, the default otherwise. */
  function Permute<I, S, P, F, E>(s: Solver<I, S, P, F, E>, n: I, a_i: seq<I>, a_p: seq<I>)
    : (r: Result<Option<P>, E>)
    ensures s.permuteOverride.None? ==> r.Ok? && r.value.None?
  {
    match s.permuteOverride
    case None => Ok(None)
    case Some(f) => f(n, a_i, a_p)
  }

  /** The default `Solver::solve`: permute, then factor with that permutation,
      then `factor_solve` on `b`; the `?` operator returns the first error. */
  function Solve<I, S, P, F, E>(
    s: Solver<I, S, P, F, E>, n: I, a_i: seq<I>, a_p: seq<I>, a_x: seq<S>,
    b: seq<S>, trans: bool): (r: Run<S, P, E>)
    // the stages run are a non-empty prefix of permute, factor, factor_solve
    ensures 1 <= |r.stages| <= 3 && r.stages[0] == PermuteStage
    // a failing permute is the result, and nothing after it runs
    ensures |r.stages| == 1 <==> Permute(s, n, a_i, a_p).Err?
    ensures |r.stages| == 1 ==> r.result == Err(Permute(s, n, a_i, a_p).error)
    // factor receives exactly what permute returned
    ensures |r.stages| >= 2 ==> r.stages[1] == FactorStage(Permute(s, n, a_i, a_p).value)
    // a failing factor is the result, and factor_solve does not run
    ensures |r.stages| == 2 <==>
              Permute(s, n, a_i, a_p).Ok? &&
              s.factor(n, a_i, a_p, a_x, Permute(s, n, a_i, a_p).value).Err?
    ensures |r.stages| == 2 ==>
              r.result == Err(s.factor(n, a_i, a_p, a_x, Permute(s, n, a_i, a_p).value).error)
    // otherwise the result is exactly factor_solve's, with trans unchanged
    ensures |r.stages| == 3 ==>
              r.stages[2] == FactorSolveStage(trans) &&
              Step(r.b, r.result) ==
              s.factorSolve(s.factor(n, a_i, a_p, a_x, Permute(s, n, a_i, a_p).value).value, b, trans)
    // only factor_solve receives b, so an early failure leaves it untouched
    ensures |r.stages| < 3 ==> r.b == b && r.result.Err?
  {
    match Permute(s, n, a_i, a_p)
    case Err(e) => Run(b, Err(e), [PermuteStage])
    case Ok(p) =>
      match s.factor(n, a_i, a_p, a_x, p)
      case Err(e) => Run(b, Err(e), [PermuteStage, FactorStage(p)])
      case Ok(f) =>
        var step := s.factorSolve(f, b, trans);
        Run(step.b, step.result, [PermuteStage, FactorStage(p), FactorSolveStage(trans)])
  }

  /** The factor half of the pipeline on its own, as a caller that reuses the
      factorization would run it: permute, then factor. */
  function FactorOnce<I, S, P, F, E>(
    s: Solver<I, S, P, F, E>, n: I, a_i: seq<I>, a_p: seq<I>, a_x: seq<S>): Result<F, E>
  {
    match Permute(s, n, a_i, a_p)
    case Err(e) => Err(e)
    case Ok(p) => s.factor(n, a_i, a_p, a_x, p)
  }

  /** Factor reuse: the one-shot `solve` gives exactly what factoring once and
      then calling `factor_solve` on `b` gives. */
  lemma SolveIsFactorThenFactorSolve<I, S, P, F, E>(
    s: Solver<I, S, P, F, E>, n: I, a_i: seq<I>, a_p: seq<I>, a_x: seq<S>,
    b: seq<S>, trans: bool)
    ensures var r := Solve(s, n, a_i, a_p, a_x, b, trans);
            match FactorOnce(s, n, a_i, a_p, a_x)
            case Err(e) => r.result == Err(e) && r.b == b
            case Ok(f) => Step(r.b, r.result) == s.factorSolve(f, b, trans)
  {
  }

  /** With the default `permute`, the factorization is asked for with no
      permutation, and a successful solve ran all three stages. */
  lemma DefaultSolveFactorsUnpermuted<I, S, P, F, E>(
    s: Solver<I, S, P, F, E>, n: I, a_i: seq<I>, a_p: seq<I>, a_x: seq<S>,
    b: seq<S>, trans: bool)
    requires s.permuteOverride.None?
    ensures var r := Solve(s, n, a_i, a_p, a_x, b, trans);
            |r.stages| >= 2 && r.stages[1] == FactorStage(None) &&
            (r.result.Ok? ==> |r.stages| == 3)
  {
  }
}
