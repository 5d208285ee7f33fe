/** The LUFact adapter of src/lufact.rs: native AMD (through the bindings,
    not the `order` wrapper of src/amd.rs) unless the GP options already
    carry a column permutation, then the `lufact` crate's `dgstrf` and
    `dgstrs`.  The crate routines and the native AMD are parameters. */
module LuFact {
  import opened Ints
  import opened Outcomes
  import opened Wrappers
  import Amd

  /** The GP options; only the stored column permutation matters here, the
      other fields travel inside the `dgstrf`/`dgstrs` parameters. */
  datatype Gp = Gp(colPerm: Option<seq<int>>)

  /** The solver: AMD control vector and GP options. */
  datatype LuFact = LuFact(control: seq<real>, gp: Gp)

  /** The `lufact::CSC` descriptor handed to `dgstrf`. */
  datatype Desc = Desc(m: int, n: int, nnz: int, base: int, colptr: seq<int>, rowind: seq<int>)

  /** A native call, with what the adapter passes. */
  datatype Call =
    | OrderCall(n: int)
    | FactorCall(gp: Gp, m: int, n: int, desc: Desc)
    | SolveCall(gp: Gp, trans: char, n: int, nrhs: int)

  /** The native AMD routines, `dgstrf` (an `Err(rv)` or the factors) and
      `dgstrs` (status and the new `b`). */
  datatype Lib<!U> = Lib(
    amd: Amd.Lib,
    dgstrf: (Gp, int, int, seq<real>, Desc) -> Result<U, int>,
    dgstrs: (Gp, char, int, int, U, seq<real>) -> (int, seq<real>))

  /** `LUFact::default()`: a control vector of length AMD_CONTROL filled by
      `amd_defaults`, and the default GP options `gp0`. */
  function Default(amd: Amd.Lib, gp0: Gp): (s: LuFact)
    requires Amd.Sound(amd)
    ensures |s.control| == Amd.CONTROL
    ensures s.control == Amd.Defaults(amd)
    ensures s.gp == gp0
  {
    LuFact(amd.defaults(Zeros(Amd.CONTROL)), gp0)
  }

  /** The column permutation the factorization runs with, or the AMD status
      that stops the solve: a stored permutation is used as it is, otherwise
      AMD orders the pattern and only AMD_OK is accepted. */
  function ColumnOrder<U>(lib: Lib<U>, s: LuFact, n: nat, ap: seq<int>, ai: seq<int>)
    : (r: Result<Gp, int>)
    ensures s.gp.colPerm.Some? ==> r == Ok(s.gp)
    ensures s.gp.colPerm.None? ==>
              var o := lib.amd.order(WrapI32(n), ap, ai, Zeroed(n), s.control, Zeros(Amd.INFO));
              (r.Err? <==> o.rv != Amd.OK) &&
              (r.Err? ==> r.error == o.rv) &&
              (r.Ok? ==> r.value == Gp(Some(o.p)))
  {
    if s.gp.colPerm.Some? then Ok(s.gp)
    else
      var o := lib.amd.order(WrapI32(n), ap, ai, Zeroed(n), s.control, Zeros(Amd.INFO));
      if o.rv != Amd.OK then Err(o.rv) else Ok(Gp(Some(o.p)))
  }

  /** `Solver::solve` of LUFact.  The index arrays are converted with
      `to_i32().unwrap()` (a panic when one does not fit); the order is
      settled on a clone of the GP options; the descriptor is square with
      `n as i32`, `nnz = a_x.len() as i32` and base 0; a `dgstrf` error ends
      the solve; `b.len() / n` panics for n == 0; `dgstrs` gets 'T' or 'N'
      and `(b.len() / n) as i32` right-hand sides, and a nonzero status is an
      error. */
  function Solve<U>(lib: Lib<U>, s: LuFact, n: nat, a_i: seq<int>, a_p: seq<int>,
                    a_x: seq<real>, b: seq<real>, trans: bool): (r: Run<Call>)
    ensures ToI32All(a_i).None? || ToI32All(a_p).None? ==> r == Run(Panic, b, [])
    // a stored permutation means no AMD call, and the factorization uses it
    ensures ToI32All(a_i).Some? && ToI32All(a_p).Some? && s.gp.colPerm.Some? ==>
              |r.calls| >= 1 && r.calls[0].FactorCall? && r.calls[0].gp == s.gp
    // without one AMD is asked on every call: nothing is cached in the solver
    ensures ToI32All(a_i).Some? && ToI32All(a_p).Some? && s.gp.colPerm.None? ==>
              |r.calls| >= 1 && r.calls[0] == OrderCall(WrapI32(n))
    // any AMD status but AMD_OK ends the solve before the factorization
    ensures ToI32All(a_i).Some? && ToI32All(a_p).Some? && s.gp.colPerm.None? &&
            lib.amd.order(WrapI32(n), a_p, a_i, Zeroed(n), s.control, Zeros(Amd.INFO)).rv != Amd.OK ==>
              r == Run(Fail(AmdError(lib.amd.order(WrapI32(n), a_p, a_i, Zeroed(n), s.control,
                                                   Zeros(Amd.INFO)).rv)),
                       b, [OrderCall(WrapI32(n))])
    // the factorization sees a square descriptor of the converted arrays
    ensures forall k :: 0 <= k < |r.calls| && r.calls[k].FactorCall? ==>
              var c := r.calls[k];
              c.m == c.n == WrapI32(n) &&
              c.desc == Desc(WrapI32(n), WrapI32(n), WrapI32(|a_x|), 0, a_p, a_i)
    // a dgstrf error is returned and dgstrs is not called
    ensures r.out.Fail? && r.out.error.Dgstrf? ==>
              r.b == b && |r.calls| >= 1 && r.calls[|r.calls| - 1].FactorCall?
    // dgstrs runs last, with the transpose flag and b.len() / n right-hand sides
    ensures forall k :: 0 <= k < |r.calls| && r.calls[k].SolveCall? ==>
              n > 0 && k == |r.calls| - 1 &&
              r.calls[k].trans == (if trans then 'T' else 'N') &&
              r.calls[k].n == WrapI32(n) && r.calls[k].nrhs == WrapI32(|b| / n)
    ensures r.out.Done? ==> |r.calls| >= 2 && r.calls[|r.calls| - 1].SolveCall?
    ensures r.out.Fail? && r.out.error.Dgstrs? ==> r.out.error.code != 0
    // the factorization and the solve run with AMD's permutation when AMD ran
    ensures ToI32All(a_i).Some? && ToI32All(a_p).Some? && s.gp.colPerm.None? ==>
              var o := lib.amd.order(WrapI32(n), a_p, a_i, Zeroed(n), s.control, Zeros(Amd.INFO));
              forall k :: 0 <= k < |r.calls| && !r.calls[k].OrderCall? ==> r.calls[k].gp == Gp(Some(o.p))
    // past the ordering: dgstrf's error, a panic for n == 0, or dgstrs's status and its b
    ensures ToI32All(a_i).Some? && ToI32All(a_p).Some? && ColumnOrder(lib, s, n, a_p, a_i).Ok? ==>
              var gp := ColumnOrder(lib, s, n, a_p, a_i).value;
              var n32 := WrapI32(n);
              var desc := Desc(n32, n32, WrapI32(|a_x|), 0, a_p, a_i);
              match lib.dgstrf(gp, n32, n32, a_x, desc)
              case Err(rv) =>
                r.out == Fail(Dgstrf(rv)) && r.b == b && (forall k :: 0 <= k < |r.calls| ==> !r.calls[k].SolveCall?)
              case Ok(lu) =>
                if n == 0 then r.out.Panic? && r.b == b
                else
                  var (rv, b') := lib.dgstrs(gp, if trans then 'T' else 'N', n32, WrapI32(|b| / n), lu, b);
                  r.out == (if rv == 0 then Done(()) else Fail(Dgstrs(rv))) && r.b == b'
  {
    match (ToI32All(a_i), ToI32All(a_p))
    case (None, _) => Run(Panic, b, [])
    case (_, None) => Run(Panic, b, [])
    case (Some(ai), Some(ap)) =>
      var n32 := WrapI32(n);
      var ordered := if s.gp.colPerm.None? then [OrderCall(n32)] else [];
      match ColumnOrder(lib, s, n, ap, ai)
      case Err(rv) => Run(Fail(AmdError(rv)), b, ordered)
      case Ok(gp) =>
        var desc := Desc(n32, n32, WrapI32(|a_x|), 0, ap, ai);
        var factored := ordered + [FactorCall(gp, n32, n32, desc)];
        match lib.dgstrf(gp, n32, n32, a_x, desc)
        case Err(rv) => Run(Fail(Dgstrf(rv)), b, factored)
        case Ok(lu) =>
          if n == 0 then Run(Panic, b, factored)
          else
            var t := if trans then 'T' else 'N';
            var nrhs := WrapI32(|b| / n);
            var (rv, b') := lib.dgstrs(gp, t, n32, nrhs, lu, b);
            Run(if rv != 0 then Fail(Dgstrs(rv)) else Done(()), b', factored + [SolveCall(gp, t, n32, nrhs)])
  }

  /** LUFact's own AMD call against the `order` wrapper of src/amd.rs, for an
      `n` that fits `i32`: both hand the native routine a zeroed `p` of length
      n, the solver's control and a zeroed info.  A status the wrapper
      rejects fails LUFact with that status; a permutation LUFact accepts is
      the one the wrapper returns; and the only status the wrapper accepts
      but LUFact rejects is AMD_OK_BUT_JUMBLED. */
  lemma ColumnOrderAgreesWithOrder<U>(lib: Lib<U>, s: LuFact, n: nat, ap: seq<int>, ai: seq<int>)
    requires Amd.Sound(lib.amd) && s.gp.colPerm.None? && n <= I32_MAX
    ensures var c := ColumnOrder(lib, s, n, ap, ai);
            var w := Amd.Order(lib.amd, n, ap, ai, s.control).result;
            && (w.Rejected? ==> c == Err(w.rv))
            && (c.Ok? ==> w.Ordered? && c.value == Gp(Some(w.p)))
            && (w.Ordered? && c.Err? ==> c.error == Amd.OK_BUT_JUMBLED)
            && !w.OrderPanic?
  {
    assert WrapI32(n) == n;
  }

  /** LUFact is stricter than the `order` wrapper of src/amd.rs: the status
      AMD_OK_BUT_JUMBLED, which that wrapper accepts, fails the solve. */
  lemma JumbledRejected<U>(lib: Lib<U>, s: LuFact, n: nat, a_i: seq<int>, a_p: seq<int>,
                           a_x: seq<real>, b: seq<real>, trans: bool)
    requires ToI32All(a_i).Some? && ToI32All(a_p).Some? && s.gp.colPerm.None?
    requires lib.amd.order(WrapI32(n), a_p, a_i, Zeroed(n), s.control, Zeros(Amd.INFO)).rv ==
             Amd.OK_BUT_JUMBLED
    ensures Amd.StatusAccepted(Amd.OK_BUT_JUMBLED)
    ensures Solve(lib, s, n, a_i, a_p, a_x, b, trans).out == Fail(AmdError(Amd.OK_BUT_JUMBLED))
  {
  }

  /** Once a permutation is stored, the AMD routine is irrelevant: two native
      AMDs give the same solve. */
  lemma StoredPermutationSkipsAmd<U>(lib: Lib<U>, amd2: Amd.Lib, s: LuFact, n: nat,
                                     a_i: seq<int>, a_p: seq<int>, a_x: seq<real>,
                                     b: seq<real>, trans: bool)
    requires s.gp.colPerm.Some?
    ensures Solve(lib, s, n, a_i, a_p, a_x, b, trans) ==
            Solve(lib.(amd := amd2), s, n, a_i, a_p, a_x, b, trans)
  {
  }
}
