/** The KLU adapter of src/klu.rs over SuiteSparse's KLU.  The library's
    numerics are parameters; what is modelled is the sequence of native
    calls, the three native objects (the `klu_common` block, the symbolic
    and the numeric factorization) and which of them are freed on each exit
    path, the index conversions, and the `nrhs` arithmetic. */
module Klu {
  import opened Wrappers
  import opened Ints
  import opened Outcomes

  /** The native objects the adapter owns. */
  datatype Handle = Common | Symbolic | Numeric

  /** A native event: an object coming to life or being freed, or a library
      call with the scalar arguments that matter here. */
  datatype Event =
    | Acquire(h: Handle)
    | Release(h: Handle)
    | Defaults
    | Analyze(n: int)
    | Factor
    | SolveCall(n: int, nrhs: int)
    | TSolveCall(n: int, nrhs: int)

  /** The native side: whether `alloc` of the common block succeeds, the
      status `klu_defaults` returns, whether `klu_analyze` and `klu_factor`
      return a non-null object, and `klu_solve`/`klu_tsolve` (status and the
      new `b`). */
  datatype Lib = Lib(
    allocOk: bool,
    defaultsStatus: int,
    analyze: (int, seq<int>, seq<int>) -> bool,
    factor: (seq<int>, seq<int>, seq<real>) -> bool,
    solve: (int, int, seq<real>) -> (int, seq<real>),
    tsolve: (int, int, seq<real>) -> (int, seq<real>))

  /** The objects a call needs alive. */
  function Needs(e: Event): set<Handle> {
    match e
    case Acquire(_) => {}
    case Release(h) => {h}
    case Defaults => {Common}
    case Analyze(_) => {Common}
    case Factor => {Common, Symbolic}
    case SolveCall(_, _) => {Common, Symbolic, Numeric}
    case TSolveCall(_, _) => {Common, Symbolic, Numeric}
  }

  /** The object lifecycle as a state machine over the set of live objects:
      an object is created only when it is not alive, freed only when it is,
      and used only while it is; `None` is a violation. */
  function Step(live: set<Handle>, e: Event): Option<set<Handle>> {
    if !(Needs(e) <= live) then None
    else
      match e
      case Acquire(h) => if h in live then None else Some(live + {h})
      case Release(h) => Some(live - {h})
      case _ => Some(live)
  }

  function Replay(live: set<Handle>, events: seq<Event>): Option<set<Handle>>
    decreases |events|
  {
    if |events| == 0 then Some(live)
    else
      match Step(live, events[0])
      case None => None
      case Some(next) => Replay(next, events[1..])
  }

  /** How often `e` occurs. */
  function Count(events: seq<Event>, e: Event): nat {
    |set k | 0 <= k < |events| && events[k] == e|
  }

  /** What `KLU::solve` returns: outcome, `b`, native events. */
  function Solve(lib: Lib, n: nat, a_i: seq<int>, a_p: seq<int>, a_x: seq<real>,
                  b: seq<real>, trans: bool): (r: Run<Event>)
    // index arrays that do not fit i32 panic before anything native happens
    ensures ToI32All(a_i).None? || ToI32All(a_p).None? ==> r == Run(Panic, b, [])
    // one outcome per native result, in the order the calls are made
    ensures ToI32All(a_i).Some? && ToI32All(a_p).Some? ==>
              && (!lib.allocOk ==> r == Run(Fail(AllocCommon), b, []))
              && (lib.allocOk && lib.defaultsStatus != 1 ==> r.out == Fail(KluDefaults) && r.b == b)
              && (lib.allocOk && lib.defaultsStatus == 1 && !lib.analyze(WrapI32(n), a_p, a_i) ==>
                    r.out == Fail(KluAnalyze) && r.b == b)
              && (lib.allocOk && lib.defaultsStatus == 1 && lib.analyze(WrapI32(n), a_p, a_i) &&
                  !lib.factor(a_p, a_i, a_x) ==>
                    r.out == Fail(KluFactor) && r.b == b)
    // once factored: a panic in the nrhs division, or the solve's status and its b
    ensures ToI32All(a_i).Some? && ToI32All(a_p).Some? && lib.allocOk && lib.defaultsStatus == 1 &&
            lib.analyze(WrapI32(n), a_p, a_i) && lib.factor(a_p, a_i, a_x) ==>
              var n32 := WrapI32(n);
              match DivI32(WrapI32(|b|), n32)
              case None => r.out.Panic? && r.b == b
              case Some(nrhs) =>
                var (rv, b') := if trans then lib.tsolve(n32, nrhs, b) else lib.solve(n32, nrhs, b);
                r.out == (if rv == 1 then Done(()) else Fail(KluSolve)) && r.b == b'
    ensures Release(Common) !in r.calls
    // a failed analyze never creates a numeric object
    ensures r.out == Fail(KluAnalyze) ==> Acquire(Numeric) !in r.calls && Acquire(Symbolic) !in r.calls
    // a failed factor frees the symbolic object, as the last event
    ensures r.out == Fail(KluFactor) ==>
              |r.calls| >= 2 && r.calls[|r.calls| - 2..] == [Factor, Release(Symbolic)]
    // a solve call is followed by freeing numeric, then symbolic, whatever it returned
    ensures r.out.Done? || r.out == Fail(KluSolve) ==>
              |r.calls| >= 3 &&
              r.calls[|r.calls| - 2..] == [Release(Numeric), Release(Symbolic)] &&
              DivI32(WrapI32(|b|), WrapI32(n)).Some? &&
              r.calls[|r.calls| - 3] ==
                (var n32 := WrapI32(n);
                 var nrhs := DivI32(WrapI32(|b|), n32).value;
                 if trans then TSolveCall(n32, nrhs) else SolveCall(n32, nrhs))
  {
    var n32 := WrapI32(n);
    match (ToI32All(a_i), ToI32All(a_p))
    case (None, _) => Run(Panic, b, [])
    case (_, None) => Run(Panic, b, [])
    case (Some(ai), Some(ap)) =>
      if !lib.allocOk then Run(Fail(AllocCommon), b, [])
      else if lib.defaultsStatus != 1 then Run(Fail(KluDefaults), b, [Acquire(Common), Defaults])
      else
        var setup := [Acquire(Common), Defaults, Analyze(n32)];
        if !lib.analyze(n32, ap, ai) then Run(Fail(KluAnalyze), b, setup)
        else if !lib.factor(ap, ai, a_x) then
          Run(Fail(KluFactor), b, setup + [Acquire(Symbolic), Factor, Release(Symbolic)])
        else
          var built := setup + [Acquire(Symbolic), Factor, Acquire(Numeric)];
          match DivI32(WrapI32(|b|), n32)
          case None => Run(Panic, b, built)
          case Some(nrhs) =>
            var (rv, b') := if trans then lib.tsolve(n32, nrhs, b) else lib.solve(n32, nrhs, b);
            var call := if trans then TSolveCall(n32, nrhs) else SolveCall(n32, nrhs);
            var calls := built + [call, Release(Numeric), Release(Symbolic)];
            Run(if rv != 1 then Fail(KluSolve) else Done(()), b', calls)
  }

  /** The lifecycle holds on every path: no object is used before it exists
      or after it is freed, and none is freed twice.  On every return (not a
      panic) after the common block was allocated, it and only it is still
      alive: it is never freed, while the symbolic and numeric objects always
      are.  The one panic after allocation, in the `nrhs` division (a zero `n`
      after the cast, or `i32::MIN / -1`), leaks all three. */
  lemma Lifecycle(lib: Lib, n: nat, a_i: seq<int>, a_p: seq<int>, a_x: seq<real>,
                  b: seq<real>, trans: bool)
    ensures var r := Solve(lib, n, a_i, a_p, a_x, b, trans);
            && Replay({}, r.calls).Some?
            && (!r.out.Panic? && r.calls != [] ==> Replay({}, r.calls) == Some({Common}))
            && (r.out.Panic? && r.calls != [] ==> Replay({}, r.calls) == Some({Common, Symbolic, Numeric}))
  {
    var n32 := WrapI32(n);
    var r := Solve(lib, n, a_i, a_p, a_x, b, trans);
    var setup := [Acquire(Common), Defaults, Analyze(n32)];
    if ToI32All(a_i).None? || ToI32All(a_p).None? || !lib.allocOk {
    } else if lib.defaultsStatus != 1 {
      ReplayDefaultsFailed();
    } else if !lib.analyze(n32, a_p, a_i) {
      ReplayAnalyzeFailed(n32);
    } else if !lib.factor(a_p, a_i, a_x) {
      assert r.calls == setup + [Acquire(Symbolic), Factor, Release(Symbolic)]
                     == [Acquire(Common), Defaults, Analyze(n32), Acquire(Symbolic), Factor, Release(Symbolic)];
      ReplayFactorFailed(n32);
    } else if DivI32(WrapI32(|b|), n32).None? {
      assert r.calls == setup + [Acquire(Symbolic), Factor, Acquire(Numeric)]
                     == [Acquire(Common), Defaults, Analyze(n32), Acquire(Symbolic), Factor, Acquire(Numeric)];
      ReplayLeaked(n32);
    } else {
      var nrhs := DivI32(WrapI32(|b|), n32).value;
      var call := if trans then TSolveCall(n32, nrhs) else SolveCall(n32, nrhs);
      assert r.calls == setup + [Acquire(Symbolic), Factor, Acquire(Numeric)] +
                        [call, Release(Numeric), Release(Symbolic)]
                     == [Acquire(Common), Defaults, Analyze(n32), Acquire(Symbolic), Factor,
                         Acquire(Numeric), call, Release(Numeric), Release(Symbolic)];
      ReplaySolved(n32, call);
    }
  }

  lemma ReplayDefaultsFailed()
    ensures Replay({}, [Acquire(Common), Defaults]) == Some({Common})
  {
    var c := [Acquire(Common), Defaults];
    AcquireStep({}, Common, {Common});
    assert Replay({Common}, c[1..]) == Some({Common});
  }

  lemma ReplayAnalyzeFailed(n32: int)
    ensures Replay({}, [Acquire(Common), Defaults, Analyze(n32)]) == Some({Common})
  {
    var c := [Acquire(Common), Defaults, Analyze(n32)];
    AcquireStep({}, Common, {Common});
    assert Replay({Common}, c[2..]) == Some({Common});
    assert Replay({Common}, c[1..]) == Some({Common});
  }

  lemma ReplayFactorFailed(n32: int)
    ensures Replay({}, [Acquire(Common), Defaults, Analyze(n32), Acquire(Symbolic), Factor,
                        Release(Symbolic)]) == Some({Common})
  {
    var c := [Acquire(Common), Defaults, Analyze(n32), Acquire(Symbolic), Factor, Release(Symbolic)];
    AcquireStep({}, Common, {Common});
    AcquireStep({Common}, Symbolic, {Common, Symbolic});
    assert Replay({Common, Symbolic}, c[5..]) == Some({Common});
    assert Replay({Common, Symbolic}, c[4..]) == Some({Common});
    assert Replay({Common}, c[3..]) == Some({Common});
    assert Replay({Common}, c[2..]) == Some({Common});
    assert Replay({Common}, c[1..]) == Some({Common});
  }

  lemma ReplayLeaked(n32: int)
    ensures Replay({}, [Acquire(Common), Defaults, Analyze(n32), Acquire(Symbolic), Factor,
                        Acquire(Numeric)]) == Some({Common, Symbolic, Numeric})
  {
    var c := [Acquire(Common), Defaults, Analyze(n32), Acquire(Symbolic), Factor, Acquire(Numeric)];
    var all := {Common, Symbolic, Numeric};
    AcquireStep({}, Common, {Common});
    AcquireStep({Common}, Symbolic, {Common, Symbolic});
    AcquireStep({Common, Symbolic}, Numeric, all);
    assert Replay({Common, Symbolic}, c[5..]) == Some(all);
    assert Replay({Common, Symbolic}, c[4..]) == Some(all);
    assert Replay({Common}, c[3..]) == Some(all);
    assert Replay({Common}, c[2..]) == Some(all);
    assert Replay({Common}, c[1..]) == Some(all);
  }

  lemma ReplaySolved(n32: int, call: Event)
    requires call.SolveCall? || call.TSolveCall?
    ensures Replay({}, [Acquire(Common), Defaults, Analyze(n32), Acquire(Symbolic), Factor,
                        Acquire(Numeric), call, Release(Numeric), Release(Symbolic)]) == Some({Common})
  {
    var c := [Acquire(Common), Defaults, Analyze(n32), Acquire(Symbolic), Factor,
              Acquire(Numeric), call, Release(Numeric), Release(Symbolic)];
    var all := {Common, Symbolic, Numeric};
    AcquireStep({}, Common, {Common});
    AcquireStep({Common}, Symbolic, {Common, Symbolic});
    AcquireStep({Common, Symbolic}, Numeric, all);
    assert Replay({Common, Symbolic}, c[8..]) == Some({Common});
    assert Replay(all, c[7..]) == Some({Common});
    assert Replay(all, c[6..]) == Some({Common});
    assert Replay({Common, Symbolic}, c[5..]) == Some({Common});
    assert Replay({Common, Symbolic}, c[4..]) == Some({Common});
    assert Replay({Common}, c[3..]) == Some({Common});
    assert Replay({Common}, c[2..]) == Some({Common});
    assert Replay({Common}, c[1..]) == Some({Common});
  }

  lemma AcquireStep(live: set<Handle>, h: Handle, next: set<Handle>)
    requires h !in live && next == live + {h}
    ensures Step(live, Acquire(h)) == Some(next)
  {
    assert Needs(Acquire(h)) == {};
  }

  /** The solve path frees each object it created exactly once, and the
      common block never. */
  lemma FreedOnce(lib: Lib, n: nat, a_i: seq<int>, a_p: seq<int>, a_x: seq<real>,
                  b: seq<real>, trans: bool)
    ensures var r := Solve(lib, n, a_i, a_p, a_x, b, trans);
            r.out.Done? || r.out == Fail(KluSolve) ==>
              Count(r.calls, Release(Numeric)) == 1 && Count(r.calls, Release(Symbolic)) == 1 &&
              Count(r.calls, Release(Common)) == 0
  {
    var r := Solve(lib, n, a_i, a_p, a_x, b, trans);
    if r.out.Done? || r.out == Fail(KluSolve) {
      assert |r.calls| == 9;
      assert (set k | 0 <= k < |r.calls| && r.calls[k] == Release(Numeric)) == {7};
      assert (set k | 0 <= k < |r.calls| && r.calls[k] == Release(Symbolic)) == {8};
      assert (set k | 0 <= k < |r.calls| && r.calls[k] == Release(Common)) == {};
    }
  }

  /** The number of right-hand sides is `b.len() as i32 / n as i32`,
      truncating; a zero `n` (after the cast) panics with everything still
      allocated. */
  lemma RightHandSides(lib: Lib, n: nat, a_i: seq<int>, a_p: seq<int>, a_x: seq<real>,
                       b: seq<real>, trans: bool)
    requires lib.allocOk && lib.defaultsStatus == 1
    requires ToI32All(a_i).Some? && ToI32All(a_p).Some?
    requires lib.analyze(WrapI32(n), a_p, a_i) && lib.factor(a_p, a_i, a_x)
    ensures var r := Solve(lib, n, a_i, a_p, a_x, b, trans);
            WrapI32(n) == 0 ==> r.out.Panic? && Acquire(Numeric) in r.calls
    ensures var r := Solve(lib, n, a_i, a_p, a_x, b, trans);
            0 < n <= I32_MAX && |b| <= I32_MAX ==>
              !r.out.Panic? &&
              r.calls[6] == (if trans then TSolveCall(n, |b| / n) else SolveCall(n, |b| / n))
  {
    var r := Solve(lib, n, a_i, a_p, a_x, b, trans);
    if WrapI32(n) == 0 {
      assert r.calls[5] == Acquire(Numeric);
    }
    if 0 < n <= I32_MAX && |b| <= I32_MAX {
      var d := DivI32(|b|, n);
      assert d.Some? && d.value == |b| / n;
    }
  }
}
