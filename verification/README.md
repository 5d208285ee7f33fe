# spsolve in Dafny: the solver pipeline, the backend adapters and the validation harness

spsolve puts one interface in front of several sparse LU solvers.  A matrix
of order `n` is handed over as compressed sparse columns (CSC): the column
pointers `a_p`, the row indices `a_i` and the values `a_x`.  The right-hand
side `b` is overwritten with the solution, or with the solution of the
transposed system when `trans` is set.  This project models, in Dafny:

- the generic `Solver` trait of `src/traits.rs`, whose default `solve`
  runs `permute`, then `factor`, then `factor_solve` and stops at the first
  error (module `Traits`);
- the adapters for the backends: the thin AMD ordering wrapper
  (`Amd`), RLU (`Rlu`), GPLU (`Gplu`), KLU (`Klu`), LUFact (`LuFact`),
  CSparse (`CSparse`), RSparse (`RSparse`) and BasicLU (`BasicLu`).  Each
  adapter is modelled as the order of its native calls, the arguments it
  passes, its index-width conversions, its error mapping, its panics, and
  (for KLU) which native objects it frees on each exit path;
- the numeric type model: `to_i32()` (checked), `as i32` and `as i64`
  (wrapping), and Rust's truncating `i32` division with its two panics
  (`Ints`);
- the validation harness of `src/test/`.  This covers the CSC matrix and
  its dense meaning (`Dense`, `Csc`), the two sparse mat-vec kernels that
  build right-hand sides, the chunk-by-chunk right-hand side, the one-shot
  and factor/solve harnesses, the bbus loops, and the hand-built 10×10
  fixture with its accuracy check (`SolverTest`, `SimpleTest`).  The
  fixture is proved to decode to the matrix drawn in its documentation,
  that matrix is proved symmetric, and the expected solution is proved to
  solve it exactly.

Native and crate routines (AMD's ordering, the LU factorizations, the
triangular solves) are never modelled as algorithms.  Each backend takes a
record of closures, its `Lib`, as a parameter.  The contracts therefore
hold for every behaviour of the wrapped library.  Scalars are exact `real`s
and indices are unbounded `int`s.  Every narrowing or widening cast in the
source is written out explicitly.  An `Err` of the Rust code is `Fail(e)`,
with `e` naming the message and carrying the values formatted into it.  A panic (`unwrap` on `None`, a division by
zero, an index out of bounds) is a separate outcome, `Panic`.

Rust traits become records of functions because Dafny traits are not used
here.  `Traits.Solver` stands for the five-parameter trait of
`src/traits.rs`.  `SolverTest.OneShot` and `SolverTest.FactorSolver` stand
for the two-parameter `Solver<I, S>` and `FactorSolver<I, S, F>` that the
adapters and the harness use.

A `b: &mut [S]` cannot change length, so the harness requires of these
closures that every solve returns a `b` as long as the one it was given
(`SolverTest.InPlaceSolver`, `SolverTest.InPlaceFactorSolver`).

## Behaviour worth knowing

- KLU allocates its `klu_common` block with `alloc` and never frees it, on
  any path (`Klu.Solve`, `Klu.Lifecycle`).  When the `nrhs` division
  panics, the symbolic and numeric objects leak too.  CSparse never frees
  its `cs_di_sparse` descriptor.
- An index that does not fit the native width is not reported as an
  error.  `to_i32().unwrap()` panics (KLU, LUFact, CSparse), and
  `n as i32`, `a_x.len() as i32`, `b.len() as i32` and BasicLU's `as i64`
  wrap silently (`Ints.WrapI32`, `Ints.WrapI64`).
- CSparse and RSparse ignore `trans` (`CSparse.TransIgnored`,
  `RSparse.TransIgnored`).
- No adapter checks that `b.len()` is a multiple of `n`.  KLU and LUFact
  truncate `b.len() / n`.  The harness's `chunks_exact` drops a trailing
  partial chunk (`SolverTest.RhsLength`).
- `src/amd.rs` accepts both AMD_OK and AMD_OK_BUT_JUMBLED, but LUFact
  accepts only AMD_OK (`LuFact.JumbledRejected`,
  `LuFact.ColumnOrderAgreesWithOrder`).
- The bbus harness compares only the first `n` entries of the solution,
  whatever `nrhs` is (`SolverTest.LaterBlocksUnchecked`).  The harness
  only exercises `trans == false`.
- The 10×10 check zips with the result and would stop at the shorter
  side (`SimpleTest.ShortResultsCheckedOnPrefix`).  That early stop is
  unreachable: a solve keeps all ten entries, and all ten are compared
  (`SimpleTest.InPlaceResultFullyChecked`).
- RLU's `FactorSolver::solve` takes `n` from `b.len()`, not from the
  factorization, so only one right-hand side is handled
  (`Rlu.FactorSolve`).
- The KLU, LUFact, CSparse, RSparse and BasicLU tests call
  `test::test_bbus`, which `src/test/solver.rs` does not define.  Only
  `test_solver_bbus` and `test_factor_solver_bbus` exist, and those are
  what is modelled.
- `src/amd.rs` is not declared in `src/lib.rs`.  RLU and GPLU order with
  the `amd` crate instead, which is modelled as a parameter.  The wrapper
  is still modelled on its own (`Amd`).

## Model

| member | source | states |
|---|---|---|
| Traits.Permute | src/traits.rs:4-6 | without an override, `permute` succeeds with "no permutation" |
| Traits.Solve | src/traits.rs:15-27 | the stages run form a non-empty prefix of permute, factor, factor_solve; the first error is the result and nothing after it runs; factor receives exactly permute's output and factor_solve exactly factor's, with `trans` unchanged; `b` is untouched unless factor_solve runs |
| Traits.SolveIsFactorThenFactorSolve | src/traits.rs:9-27 | factor reuse: the one-shot solve equals factoring once (permute then factor) and then calling factor_solve on `b` |
| Traits.DefaultSolveFactorsUnpermuted | src/traits.rs:4-26 | with the default permute, factor is always reached with `None`, and a successful solve ran all three stages |
| Ints.ToI32All | src/klu.rs:33-34 | the element-wise checked conversion succeeds exactly when every element fits in i32, and then changes nothing |
| Ints.WrapI32 | src/klu.rs:32 | `as i32` yields an i32 congruent to the input modulo 2^32, and the input itself when it fits |
| Ints.DivI32 | src/klu.rs:57 | i32 division panics exactly on a zero divisor or `i32::MIN / -1`; otherwise the result fits i32, has magnitude \|a\|/\|b\| (rounding toward zero), and has the sign of the operands |
| Ints.WrapI64All | src/basiclu.rs:21-22 | `as i64` element by element keeps the length and wraps each element modulo 2^64 |
| Ints.WidenIsLossless | src/basiclu.rs:21-22 | widening indices below 2^63 to i64 changes nothing |
| Csc.CscMatVec | src/test/solver.rs:75-77 | `csc_matvec` adds exactly A·x to `y`, where A is the dense matrix the CSC arrays describe |
| Csc.ScatterColumn | src/test/solver.rs:75-77 | one column of `csc_matvec` adds A[r][j] · x[j] to every row r and changes nothing else |
| Csc.CsrMatVec | src/test/solver.rs:73-74 | `csr_matvec` on the CSC arrays adds exactly Aᵗ·x to `y`, because CSC arrays read as CSR are the transpose |
| Csc.CsrRowIsTransposeRow | src/test/solver.rs:73-74 | one column's pointer range read as a CSR row gathers the matching entry of Aᵗ·x |
| Permutations.PermutationIsOnto | src/rlu.rs:77-79 | an injective map of 0..n into 0..n hits every index (pigeonhole), so the gather writes every entry of `b` |
| Permutations.AssignDistinct | src/rlu.rs:65-67 | sequential writes through distinct in-range targets put each source value at its target and leave every other entry alone |
| Permutations.AssignPermutation | src/rlu.rs:64-79 | writes through a permutation overwrite every entry exactly once: entry `p[i]` receives `src[i]`, and entry `v` receives the value from its unique preimage |
| Amd.Defaults | src/amd.rs:6-10 | the default control vector has AMD_CONTROL (5) entries and is what `amd_defaults` writes into a zeroed vector |
| Amd.Order | src/amd.rs:20-43 | a negative `n` panics when `p` is allocated; otherwise AMD is handed a zeroed `p` of length n and `info` of length AMD_INFO; exactly the statuses AMD_OK (0) and AMD_OK_BUT_JUMBLED (1) are accepted, and any other status is returned as the error; an accepted one returns AMD's `p` (length n) and `info` (length 20); the control vector AMD updates is passed back |
| Amd.TestPatternValid | src/amd.rs:55-63 | the unit test's 5×5 pattern is a valid CSC pattern with 14 entries |
| Amd.ExpectedIsPermutation | src/amd.rs:70-74 | the ordering the test expects, [0, 3, 2, 4, 1], is a permutation of 0..5 |
| Amd.SimpleOrderTest | src/amd.rs:53-77 | the unit test never returns an error: it passes exactly when AMD accepts the pattern with the default control and returns exactly the expected ordering, and panics otherwise |
| Amd.PassingOrderIsPermutation | src/amd.rs:66-76 | whenever the unit test passes, the ordering AMD returned is a permutation of the five columns |
| Rlu.Solve | src/rlu.rs:18-33 | AMD is called first; its failure becomes "amd status" with `b` untouched and no solve; otherwise `rlu::solve` receives AMD's permutation and `trans`, and the result is always `Ok` |
| Rlu.Factor | src/rlu.rs:41-53 | panics exactly when `n` does not fit the index type; an AMD failure is returned before any decomposition; otherwise the factorization keeps AMD's permutation as `cp` beside L, U and the row permutation |
| Rlu.OneShotAgreesWithFactor | src/rlu.rs:18-53 | for an `n` the index type holds, the one-shot solve succeeds exactly when `factor` does, both fail with the same AMD status after the same AMD call, and `rlu::solve` receives the permutation `factor` keeps as `cp` |
| Rlu.FactorThenSolve | src/rlu.rs:41-82 | factoring and then solving passes an AMD failure or a panic on with `b` untouched; otherwise the solve completes exactly when the scatter and gather stay in range, and then `b` receives the triangular solution through AMD's permutation, entry `cp[i]` getting `x[i]` |
| Rlu.FactorSolve | src/rlu.rs:55-82 | never an error; completes exactly when the row scatter and the column gather stay in bounds; the triangular solves run in the order `trans` selects; with bijective permutations each `b[i]` reaches `x[rp[i]]` and each `x[i]` reaches `b[cp[i]]`, every entry written once |
| Gplu.Factor | src/gplu.rs:52-66 | panics exactly when `n` does not fit the index type; an AMD failure is reported before any factorization; the factorization receives exactly AMD's permutation, and its failure becomes "factor error" carrying the crate's error text |
| Gplu.FactorSolve | src/gplu.rs:68-71 | one `gplu::solve` call with `trans` unchanged; `b` is what it wrote; the result is Ok exactly when the crate's is, and its failure becomes "solve error" carrying the crate's error text |
| Gplu.Solve | src/gplu.rs:19-44 | order, factor and solve stop at the first failure; `b` is untouched until the solve runs; the solve sees the factorization of AMD's permutation; a factor or solve failure becomes "factor error" or "solve error" carrying the crate's error text, and after a successful factor the solve's result and `b` decide |
| Gplu.OneShotIsFactorThenSolve | src/gplu.rs:19-71 | the one-shot solve equals `factor` followed by the factor solver's `solve`: same outcome, same `b`, same native calls in the same order |
| Klu.Solve | src/klu.rs:23-70 | an index that does not fit i32 panics before anything native happens; the common block is never freed; a failed allocation, `klu_defaults` status other than 1, null `klu_analyze` and null `klu_factor` each give their own error with `b` untouched; after a successful factor the result is Ok exactly when the solve call returns 1, and `b` is what that call wrote; a failed analyze never creates a factorization object; a failed factor frees the symbolic object last; after a solve call the numeric and then the symbolic object are freed, whatever the solve returned, and the call receives `n as i32` and `b.len() as i32 / n` |
| Klu.Lifecycle | src/klu.rs:36-67 | on every path, no native object is used before it exists or after it is freed, and none is freed twice; every return after allocation leaves exactly the common block alive; the panic in the division leaves all three alive |
| Klu.FreedOnce | src/klu.rs:57-64 | on the solve path the numeric and symbolic objects are each freed exactly once, and the common block never |
| Klu.RightHandSides | src/klu.rs:57-62 | a zero `n` after the cast panics with the numeric object allocated; in i32 range the solve call gets `b.len() / n` right-hand sides |
| LuFact.Default | src/lufact.rs:13-24 | the default control vector has AMD_CONTROL entries and is what `amd_defaults` writes into a zeroed vector; the GP options are the crate defaults |
| LuFact.ColumnOrder | src/lufact.rs:42-61 | a stored column permutation is used as is; otherwise AMD orders the pattern, any status but AMD_OK is the error, and the options receive AMD's permutation |
| LuFact.Solve | src/lufact.rs:30-96 | an index that does not fit i32 panics before any native call; AMD runs on every call without a stored permutation, and any status but AMD_OK stops the solve; when AMD ran, `dgstrf` and `dgstrs` receive the options holding AMD's permutation; `dgstrf` gets a square descriptor of the converted arrays with base 0 and `nnz = a_x.len() as i32`; a `dgstrf` error is returned with `b` untouched and `dgstrs` never called; `n == 0` panics; `dgstrs` runs last with 'T' or 'N' and `b.len() / n` right-hand sides, the result is Ok exactly when it returns 0, and `b` is what it wrote |
| LuFact.ColumnOrderAgreesWithOrder | src/lufact.rs:42-61 | for `n` within i32, a status the `order` wrapper rejects fails LUFact with that status, a permutation LUFact accepts is the one the wrapper returns, and AMD_OK_BUT_JUMBLED is the only status the wrapper accepts and LUFact rejects |
| LuFact.JumbledRejected | src/lufact.rs:56-58 | AMD_OK_BUT_JUMBLED, which the `order` wrapper accepts, fails the LUFact solve with "amd error: 1" |
| LuFact.StoredPermutationSkipsAmd | src/lufact.rs:42-61 | with a stored permutation the solve does not depend on the AMD routine at all |
| CSparse.Default | src/csparse.rs:20-24 | the default is LU ordering (2) with pivot tolerance 1 |
| CSparse.Solve | src/csparse.rs:30-64 | an index that does not fit i32 panics before anything native happens; a failed allocation is reported before any solve; otherwise exactly one `cs_di_lusol` call on a square compressed-column descriptor (nz = -1, at least one slot) of the converted arrays, with the solver's order and tolerance, and a status other than 1 is an error |
| CSparse.TransIgnored | src/csparse.rs:30-38 | the result is the same whatever `trans` says |
| CSparse.NzmaxIsEntryCount | src/csparse.rs:43-50 | below 2^31 entries, `nzmax` is the entry count, or 1 for an empty matrix |
| RSparse.Default | src/rsparse.rs:14-18 | the default is LU ordering (1) with pivot tolerance 1 |
| RSparse.Matrix | src/rsparse.rs:30-38 | the `Sprs` handed to `lusol` is square of order n, has room for every entry and at least one, holds the row indices and values unchanged, and holds the column pointers cast to `isize` |
| RSparse.Solve | src/rsparse.rs:20-45 | exactly one `lusol` call, never an error; the copy-back replaces all of `b` and panics exactly when `lusol` changed the vector's length |
| RSparse.TransIgnored | src/rsparse.rs:20-29 | the result is the same whatever `trans` says |
| RSparse.PointersCopied | src/rsparse.rs:36 | column pointers below 2^63 reach `lusol` unchanged |
| BasicLu.Solve | src/basiclu.rs:11-32 | never an error; panics exactly on an empty `a_p`, after `initialize(n)` and with `b` untouched; otherwise initialize, factorize, solve in that order; column j runs from `begin[j]` to `end[j] = begin[j + 1]`; the solve reads a snapshot of the original `b` with `trans` as given, and `b` becomes what that solve writes on the object initialized with n and factorized with these arrays |
| BasicLu.WideningLossless | src/basiclu.rs:21-27 | for indices below 2^63 the factorization sees the original row indices and column pointers |
| SimpleTest.FixtureWellFormed | src/test/simple.rs:30-47 | the fixture's arrays form a well-formed CSC matrix of order 10 with 32 entries |
| SimpleTest.FixtureDecodesToDoc | src/test/simple.rs:7-47 | the CSC arrays decode to exactly the matrix drawn in the test's documentation |
| SimpleTest.DocSymmetric | src/test/simple.rs:8-17 | the documented matrix is symmetric |
| SimpleTest.FixtureSolvedExactly | src/test/simple.rs:7-21 | in exact arithmetic the documented solution solves the system, A·x = b, and also Aᵗ·x = b |
| SimpleTest.SimpleSolverTest | src/test/simple.rs:23-70 | the test passes exactly when the solver returns `Ok` and the accuracy check accepts what it left in `b`; a solver error is passed on unchanged; anything else panics |
| SimpleTest.AcceptsMeansNearX | src/test/simple.rs:58-67 | on a result of length 10, the accuracy check means every entry is within 1e-12 of the expected solution |
| SimpleTest.ExactSolverPasses | src/test/simple.rs:56-67 | a solver that leaves exactly the expected solution in `b` passes |
| SimpleTest.InPlaceResultFullyChecked | src/test/simple.rs:56-67 | for a solve that keeps the length of `b`, the result has ten entries and the test passes exactly when the solve returns `Ok` and every entry is within 1e-12 of the expected solution |
| SimpleTest.ShortResultsCheckedOnPrefix | src/test/simple.rs:60-67 | the check taken alone, apart from any solver, stops at the shorter side: it would accept an empty result, and rejects a wrong entry that is present |
| SolverTest.ChunkedLength | src/test/solver.rs:71 | mapping length-preserving blocks over `chunks_exact(n)` yields a whole number of blocks and drops only the trailing partial chunk |
| SolverTest.ChunkedBlock | src/test/solver.rs:71-80 | block k of the chunked map is the block function applied to chunk k |
| SolverTest.RhsLength | src/test/solver.rs:69-80 | the right-hand side is a whole number of blocks of length n, and only a trailing partial chunk of `x` is dropped |
| SolverTest.RhsBlock | src/test/solver.rs:71-80 | block k of the right-hand side, at offset k·n, is A (or Aᵗ) times chunk k of `x` |
| SolverTest.BuildBlock | src/test/solver.rs:72-77 | one block built from a zero vector is A·v with `csc_matvec`, or Aᵗ·v with `csr_matvec` when `trans` |
| SolverTest.BuildRhs | src/test/solver.rs:69-80 | the kernel loop builds exactly the chunk-by-chunk right-hand side |
| SolverTest.RhsOfCopies | src/test/solver.rs:16-21 | when `x` is copies of one vector, every block of the right-hand side is the same product |
| SolverTest.BuildRamps | src/test/solver.rs:16-19 | `b0` holds `nrhs` copies of the ramp: entry q is 1 + (q mod n)/n |
| SolverTest.TestSolver | src/test/solver.rs:56-85 | an order-0 matrix panics in `chunks_exact`; otherwise the one-shot solver receives the right-hand side built from `x`, and its outcome and `b` (as long as that right-hand side) are returned |
| SolverTest.TestFactorSolver | src/test/solver.rs:87-118 | factor runs once; solve runs only after a successful factor, on the right-hand side built from `x` with the same `trans`, and what it leaves in `b` (as long as that right-hand side) is returned; errors are passed on |
| SolverTest.LaterBlocksUnchecked | src/test/solver.rs:23-25 | only the first n entries are compared, so later right-hand sides never affect the verdict |
| SolverTest.BbusVerdict | src/test/solver.rs:21-25 | one matrix passes exactly when the harness returns, both vectors have n entries, and the first n entries are within epsilon; errors are passed on unchanged |
| SolverTest.InPlaceFirstBlockPresent | src/test/solver.rs:16-25 | with at least one right-hand side, the reads `b[i]` for i < n stay in bounds, so one matrix passes exactly when the solver returns and its first block is within epsilon of the ramp |
| SolverTest.InPlaceFactorFirstBlockPresent | src/test/solver.rs:42-51 | the same for the factor harness, once `factor` has succeeded |
| SolverTest.SolverBbusStep | src/test/solver.rs:17-25 | one matrix of the one-shot bbus loop passes exactly when the solver returns and its first block is close to the ramp; it returns an error exactly when the solver returned one, and that error is the solver's own |
| SolverTest.TestSolverBbus | src/test/solver.rs:8-28 | the run passes exactly when every matrix passes; otherwise the first failing matrix decides: the run returns an error exactly when the solver returned one on that matrix, and it is that error; a failed comparison or a panic panics |
| SolverTest.FactorBbusStep | src/test/solver.rs:42-50 | one matrix of the factor bbus loop passes exactly when factor and solve return and the first block is close; it returns an error exactly when factor failed, or factor succeeded and the solve failed, and the error is that one |
| SolverTest.TestFactorSolverBbus | src/test/solver.rs:30-54 | the same, through the factor/solve harness: the first failing matrix decides, and the run returns an error exactly when that matrix's factor or solve returned one, and it is that error |
| SolverTest.ExactSolverPasses | src/test/solver.rs:8-28 | a solver that returns the exact ramps passes the bbus check for every non-negative tolerance |

## Left out

- Native and crate algorithms: AMD's ordering, the KLU, LUFact, CSparse,
  rsparse, BasicLU, GPLU and RLU factorizations, and their triangular
  solves are parameters.  Every contract holds for any behaviour of them.
  Nothing is claimed about the numerical accuracy of a backend.
- Floating point: scalars are exact reals.  The 10×10 fixture's literals
  are read as the decimals they are written as.  The tolerance checks
  compare exact values.
- `src/matrix.rs`, the fixture loader, reads Matrix Market files from
  disk; that is I/O.  The bbus harness takes the list of matrices as a
  parameter instead.
- `src/amd.rs`'s `control` and `info` printers and the `amd` crate's
  inverse permutation and info outputs are unused by the adapters and are
  not modelled.
- GPLU's and LUFact's option records: only LUFact's stored column
  permutation influences the adapter's control flow.  The other fields
  travel inside the library parameters.
- Benchmarks, examples, the `bin` tools and the module list in
  `src/lib.rs` are not part of this model.
- `usize` is taken as 64 bits wide.
- Rlu.Solve: `I::from_usize(n)` is taken as exact.  A dimension that does
  not fit the index type is not modelled there, while `Rlu.Factor` models
  `I::from(n).unwrap()` through an `iMax` parameter.
- Rlu.Factor: the index type is a parameter `iMax`, its largest value.
- Gplu.Factor: the index type is a parameter `iMax`; the index arrays are
  passed through unconverted, as the crate takes them.
- Gplu.Solve: the index type is a parameter `iMax`; the index arrays are
  passed through unconverted.
- Klu.Solve: a panic between allocation and return is not followed by
  unwinding: the handles alive at the panic are reported in
  `Klu.Lifecycle`, and nothing frees them.
- The harness members below require a well-formed CSC matrix.  On other
  arrays the sparsetools kernels either index out of bounds and panic, or
  silently skip entries (a first column pointer above 0, row indices past
  `a_p[n]`); neither case is modelled.
- SolverTest.BuildRhs: requires a well-formed CSC matrix.
- SolverTest.BuildBlock: requires a well-formed CSC matrix.
- SolverTest.TestSolver: requires a well-formed CSC matrix.
- SolverTest.TestFactorSolver: requires a well-formed CSC matrix.
- SolverTest.SolverBbusStep: requires a well-formed CSC matrix.
- SolverTest.FactorBbusStep: requires a well-formed CSC matrix.
- SolverTest.TestSolverBbus: requires a well-formed CSC matrix.
- SolverTest.TestFactorSolverBbus: requires a well-formed CSC matrix.
- SolverTest.RhsLength: requires `n > 0`, because `chunks_exact(0)`
  panics; `SolverTest.TestSolver` models that panic.
- SolverTest.RhsBlock: requires `n > 0`, for the same reason.
- SimpleTest.SimpleSolverTest: the index and float conversions
  `I::from(..).unwrap()` and `F::from(..).unwrap()` are taken as exact.
  The solver is handed the fixture as integers and reals.
