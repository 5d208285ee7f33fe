/** How a backend adapter call ends.  The Rust adapters return
    `anyhow::Result<()>`, whose error is a formatted message; `Error` names
    each message the adapters can produce.  A call can also panic (an
    `unwrap()` on `None`, a division by zero, an out-of-bounds index), which
    is not an `Err` and is kept apart as `Panic`. */
module Outcomes {

  datatype Error =
    | AmdStatus(status: int)      // "amd status: {st}" (amd crate, amd::order)
    | FactorFailed(msg: string)   // "factor error: {err}" (gplu::factor)
    | SolveFailed(msg: string)    // "solve error: {err}" (gplu::solve)
    | AllocCommon                 // "error allocating common" (KLU)
    | KluDefaults                 // "error calling klu_defaults"
    | KluAnalyze                  // "error calling klu_analyze"
    | KluFactor                   // "error calling klu_factor"
    | KluSolve                    // "error calling klu_solve"
    | AmdError(code: int)         // "amd error: {rv}" (LUFact)
    | Dgstrf(code: int)           // "dgstrf error: {rv}"
    | Dgstrs(code: int)           // "dgstrs error: {rv}"
    | AllocSparse                 // "error allocating cs_di_sparse"
    | CsLusol                     // "error calling cs_di_lusol"

  datatype Outcome<+T> = Done(value: T) | Fail(error: Error) | Panic

  /** End of a call that solves in place: how it ended, what `b` holds at that
      point, and the native calls it made, in order. */
  datatype Run<C> = Run(out: Outcome<()>, b: seq<real>, calls: seq<C>)

  /** End of a call that produces a factorization, with its native calls. */
  datatype Made<F, C> = Made(out: Outcome<F>, calls: seq<C>)

  /** A length-preserving in-place routine: the Rust slice it writes cannot
      change length. */
  ghost predicate InPlace<X(!new)>(f: (X, seq<real>) -> seq<real>) {
    forall u, v :: |f(u, v)| == |v|
  }

  function Zeros(n: nat): (r: seq<real>)
    ensures |r| == n && forall k :: 0 <= k < n ==> r[k] == 0.0
  {
    seq(n, _ => 0.0)
  }
}
