/** The thin wrapper of src/amd.rs around the native AMD ordering routine of
    SuiteSparse (`amd_defaults`, `amd_order`).  The ordering itself is not
    modelled: the native routine is a parameter that fills the permutation,
    the control and the info arrays it is handed and returns a status.  The
    constants are the ones SuiteSparse's amd.h defines. */
module Amd {
  import opened Ints
  import opened Outcomes
  import opened Csc
  import opened Permutations

  const CONTROL: nat := 5          // AMD_CONTROL
  const INFO: nat := 20            // AMD_INFO
  const OK: int := 0               // AMD_OK
  const OK_BUT_JUMBLED: int := 1   // AMD_OK_BUT_JUMBLED

  /** What the native `amd_order` leaves: its status and the arrays it wrote. */
  datatype Native = Native(rv: int, p: seq<int>, control: seq<real>, info: seq<real>)

  /** The native routines: `amd_defaults(control)` and
      `amd_order(n, a_p, a_i, p, control, info)`. */
  datatype Lib = Lib(
    defaults: seq<real> -> seq<real>,
    order: (int, seq<int>, seq<int>, seq<int>, seq<real>, seq<real>) -> Native)

  /** The native routines write through the pointers they are given and
      cannot change the length of a Rust vector. */
  ghost predicate Sound(lib: Lib) {
    && (forall c :: |lib.defaults(c)| == |c|)
    && (forall n, a_p, a_i, p, c, info ::
          var o := lib.order(n, a_p, a_i, p, c, info);
          |o.p| == |p| && |o.control| == |c| && |o.info| == |info|)
  }

  /** The statuses `order` accepts. */
  predicate StatusAccepted(rv: int) {
    rv == OK || rv == OK_BUT_JUMBLED
  }

  /** `order` accepts exactly the two success statuses, and in particular
      rejects AMD_OUT_OF_MEMORY (-1) and AMD_INVALID (-2). */
  lemma AcceptedStatuses(rv: int)
    ensures StatusAccepted(rv) <==> rv in {0, 1}
    ensures !StatusAccepted(-1) && !StatusAccepted(-2)
  {
  }

  /** `defaults()`: a zeroed control vector of length CONTROL, filled in
      place by `amd_defaults`. */
  function Defaults(lib: Lib): (r: seq<real>)
    requires Sound(lib)
    ensures |r| == CONTROL
    ensures r == lib.defaults(Zeros(CONTROL))
  {
    lib.defaults(Zeros(CONTROL))
  }

  datatype Ordering = Ordered(p: seq<int>, info: seq<real>) | Rejected(rv: int) | OrderPanic

  /** The result of `order` and the control vector it leaves behind. */
  datatype OrderRun = OrderRun(result: Ordering, control: seq<real>)

  /** `order(n, a_p, a_i, control)`: a zeroed `p` of length n and `info` of
      length INFO are handed to `amd_order`; a status other than OK and
      OK_BUT_JUMBLED is returned as `Err(rv)`.  A negative `n` becomes a huge
      `usize` and the allocation of `p` panics before the native call. */
  function Order(lib: Lib, n: int, a_p: seq<int>, a_i: seq<int>, control: seq<real>): (r: OrderRun)
    requires InI32(n) && Sound(lib)
    ensures n < 0 ==> r == OrderRun(OrderPanic, control)
    ensures n >= 0 ==>
              var o := lib.order(n, a_p, a_i, Zeroed(n), control, Zeros(INFO));
              && r.control == o.control
              && |r.control| == |control|
              && (r.result.Rejected? <==> !StatusAccepted(o.rv))
              && (r.result.Rejected? ==> r.result.rv == o.rv)
              && (r.result.Ordered? <==> StatusAccepted(o.rv))
              && (r.result.Ordered? ==>
                    r.result.p == o.p && r.result.info == o.info &&
                    |r.result.p| == n && |r.result.info| == INFO)
  {
    if n < 0 then OrderRun(OrderPanic, control)
    else
      var o := lib.order(n, a_p, a_i, Zeroed(n), control, Zeros(INFO));
      if o.rv != OK && o.rv != OK_BUT_JUMBLED then OrderRun(Rejected(o.rv), o.control)
      else OrderRun(Ordered(o.p, o.info), o.control)
  }

  /** The unit test's 5×5 pattern and the ordering it expects. */
  const TestN: nat := 5
  const TestAp: seq<int> := [0, 2, 6, 10, 12, 14]
  const TestAi: seq<int> := [0, 1, 0, 1, 2, 4, 1, 2, 3, 4, 2, 3, 1, 4]
  const Expected: seq<int> := [0, 3, 2, 4, 1]

  /** The test pattern is a valid CSC pattern of order 5: six offsets from 0
      up to the 14 row indices, none decreasing, every row index below 5. */
  lemma TestPatternValid()
    ensures ValidPattern(TestN, TestAp, TestAi)
    ensures |TestAi| == 14 && TestAp[TestN] == 14
  {
  }

  /** The expected ordering is a permutation of 0..5. */
  lemma ExpectedIsPermutation()
    ensures IsPermutation(Expected, TestN)
  {
  }

  /** The unit test `simple`: order the test pattern with the default control
      (`unwrap` panics on `Err`), then compare the ordering entry by entry
      with `Expected`, `zip` stopping at the shorter side. */
  function SimpleOrderTest(lib: Lib): (r: Outcome<()>)
    requires Sound(lib)
    ensures !r.Fail?
    ensures r.Done? <==>
              var o := lib.order(TestN, TestAp, TestAi, Zeroed(TestN), Defaults(lib), Zeros(INFO));
              StatusAccepted(o.rv) && o.p == Expected
  {
    var run := Order(lib, TestN, TestAp, TestAi, Defaults(lib));
    match run.result
    case Ordered(p, _) =>
      if forall k :: 0 <= k < |Expected| && k < |p| ==> Expected[k] == p[k] then Done(()) else Panic
    case _ => Panic
  }

  /** When the test passes, the ordering AMD returned is a permutation of
      the five columns. */
  lemma PassingOrderIsPermutation(lib: Lib)
    requires Sound(lib) && SimpleOrderTest(lib).Done?
    ensures var run := Order(lib, TestN, TestAp, TestAi, Defaults(lib));
            run.result.Ordered? && IsPermutation(run.result.p, TestN)
  {
    ExpectedIsPermutation();
  }
}
