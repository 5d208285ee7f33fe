/** The hand-built 10×10 fixture of src/test/simple.rs and the check
    `simple_solver_test` applies to a solver, over exact reals: the floats of
    the source are read as the decimal fractions they are written as. */
module SimpleTest {
  import opened Dense
  import opened Csc
  import opened Wrappers
  import opened Outcomes
  import opened SolverTest

  const N: nat := 10

  const ColPtr: seq<int> := [0, 3, 6, 8, 13, 15, 16, 19, 23, 27, 32]

  const RowIdx: seq<int> := [
    0, 7, 8, 1, 4, 9, 2, 9, 3, 6, 7, 8, 9, 1, 4, 5, 3, 6, 9, 0, 3, 7, 8, 0, 3, 7, 8, 1, 2, 3,
    6, 9]

  const Values: seq<real> := [
    2.1, 0.14, 0.09, 1.1, 0.06, 0.03, 1.7, 0.04, 1.0, 0.32, 0.19, 0.32, 0.44, 0.06, 1.6, 2.2,
    0.32, 1.9, 0.43, 0.14, 0.19, 1.1, 0.22, 0.09, 0.32, 0.22, 2.4, 0.03, 0.04, 0.44, 0.43, 3.2]

  /** The right-hand side the test passes in. */
  const B: seq<real> := [0.403, 0.28, 0.55, 1.504, 0.812, 1.32, 1.888, 1.168, 2.473, 3.695]

  /** The solution the test expects: x[i] = (i + 1) / 10. */
  const X: seq<real> := [0.1, 0.2, 0.3, 0.4, 0.5, 0.6, 0.7, 0.8, 0.9, 1.0]

  /** The matrix as the test's documentation draws it (blank = 0). */
  const Doc: seq<seq<real>> := [
    [2.10, 0.0,  0.0,  0.0,  0.0,  0.0,  0.0,  0.14, 0.09, 0.0 ],
    [0.0,  1.10, 0.0,  0.0,  0.06, 0.0,  0.0,  0.0,  0.0,  0.03],
    [0.0,  0.0,  1.70, 0.0,  0.0,  0.0,  0.0,  0.0,  0.0,  0.04],
    [0.0,  0.0,  0.0,  1.00, 0.0,  0.0,  0.32, 0.19, 0.32, 0.44],
    [0.0,  0.06, 0.0,  0.0,  1.60, 0.0,  0.0,  0.0,  0.0,  0.0 ],
    [0.0,  0.0,  0.0,  0.0,  0.0,  2.20, 0.0,  0.0,  0.0,  0.0 ],
    [0.0,  0.0,  0.0,  0.32, 0.0,  0.0,  1.90, 0.0,  0.0,  0.43],
    [0.14, 0.0,  0.0,  0.19, 0.0,  0.0,  0.0,  1.10, 0.22, 0.0 ],
    [0.09, 0.0,  0.0,  0.32, 0.0,  0.0,  0.0,  0.22, 2.40, 0.0 ],
    [0.0,  0.03, 0.04, 0.44, 0.0,  0.0,  0.43, 0.0,  0.0,  3.20]]

  function Fixture(): Matrix {
    Matrix(N, ColPtr, RowIdx, Values)
  }

  /** The arrays form a well-formed CSC matrix: 11 column offsets from 0 to
      32, never decreasing, 32 row indices all below 10, 32 values. */
  lemma FixtureWellFormed()
    ensures WellFormed(Fixture())
    ensures |ColPtr| == N + 1 && ColPtr[0] == 0 && ColPtr[N] == |RowIdx| == |Values| == 32
  {
  }

  /** The CSC arrays decode to exactly the matrix in the documentation. */
  lemma FixtureDecodesToDoc()
    ensures WellFormed(Fixture()) && Decode(Fixture()) == Doc
  {
    FixtureWellFormed();
    var d := Decode(Fixture());
    forall r, c | 0 <= r < N && 0 <= c < N
      ensures d[r][c] == Doc[r][c]
    {
      if c == 0 {
        FixtureColumn0(r);
      } else if c == 1 {
        FixtureColumn1(r);
      } else if c == 2 {
        FixtureColumn2(r);
      } else if c == 3 {
        FixtureColumn3(r);
      } else if c == 4 {
        FixtureColumn4(r);
      } else if c == 5 {
        FixtureColumn5(r);
      } else if c == 6 {
        FixtureColumn6(r);
      } else if c == 7 {
        FixtureColumn7(r);
      } else if c == 8 {
        FixtureColumn8(r);
      } else if c == 9 {
        FixtureColumn9(r);
      }
    }
    forall r | 0 <= r < N
      ensures d[r] == Doc[r]
    {
      assert |d[r]| == |Doc[r]|;
    }
  }

  /** The documented matrix is symmetric. */
  lemma DocSymmetric()
    ensures IsSquare(Doc, N) && Symmetric(Doc, N)
  {
  }

  /** In exact arithmetic the expected solution solves the system:
      A · x = b, and, A being symmetric, also Aᵗ · x = b. */
  lemma FixtureSolvedExactly()
    ensures WellFormed(Fixture()) && |X| == N
    ensures Product(Fixture(), X) == B
    ensures TransposeProduct(Fixture(), X) == B
  {
    FixtureDecodesToDoc();
    DocTimesX();
    DocSymmetric();
    SymmetricTransposeProduct(Doc, X);
  }

  /* Column by column: the column's offsets and entries are read off the
     arrays first, then every row is checked against the documentation. */

  lemma FixtureColumn0(r: nat)
    requires WellFormed(Fixture()) && r < 10
    ensures Entry(Fixture(), r, 0) == Doc[r][0]
  {
    assert ColPtr[0] == 0 && ColPtr[1] == 3;
    assert RowIdx[0] == 0 && RowIdx[1] == 7 && RowIdx[2] == 8;
    assert Values[0] == 2.1 && Values[1] == 0.14 && Values[2] == 0.09;
    assert r == 0 || r == 1 || r == 2 || r == 3 || r == 4 || r == 5 || r == 6 || r == 7 || r == 8 || r == 9;
  }

  lemma FixtureColumn1(r: nat)
    requires WellFormed(Fixture()) && r < 10
    ensures Entry(Fixture(), r, 1) == Doc[r][1]
  {
    assert ColPtr[1] == 3 && ColPtr[2] == 6;
    assert RowIdx[3] == 1 && RowIdx[4] == 4 && RowIdx[5] == 9;
    assert Values[3] == 1.1 && Values[4] == 0.06 && Values[5] == 0.03;
    assert r == 0 || r == 1 || r == 2 || r == 3 || r == 4 || r == 5 || r == 6 || r == 7 || r == 8 || r == 9;
  }

  lemma FixtureColumn2(r: nat)
    requires WellFormed(Fixture()) && r < 10
    ensures Entry(Fixture(), r, 2) == Doc[r][2]
  {
    assert ColPtr[2] == 6 && ColPtr[3] == 8;
    assert RowIdx[6] == 2 && RowIdx[7] == 9;
    assert Values[6] == 1.7 && Values[7] == 0.04;
    assert r == 0 || r == 1 || r == 2 || r == 3 || r == 4 || r == 5 || r == 6 || r == 7 || r == 8 || r == 9;
  }

  lemma FixtureColumn3(r: nat)
    requires WellFormed(Fixture()) && r < 10
    ensures Entry(Fixture(), r, 3) == Doc[r][3]
  {
    assert ColPtr[3] == 8 && ColPtr[4] == 13;
    assert RowIdx[8] == 3 && RowIdx[9] == 6 && RowIdx[10] == 7 && RowIdx[11] == 8 && RowIdx[12] == 9;
    assert Values[8] == 1.0 && Values[9] == 0.32 && Values[10] == 0.19 && Values[11] == 0.32 && Values[12] == 0.44;
    assert r == 0 || r == 1 || r == 2 || r == 3 || r == 4 || r == 5 || r == 6 || r == 7 || r == 8 || r == 9;
  }

  lemma FixtureColumn4(r: nat)
    requires WellFormed(Fixture()) && r < 10
    ensures Entry(Fixture(), r, 4) == Doc[r][4]
  {
    assert ColPtr[4] == 13 && ColPtr[5] == 15;
    assert RowIdx[13] == 1 && RowIdx[14] == 4;
    assert Values[13] == 0.06 && Values[14] == 1.6;
    assert r == 0 || r == 1 || r == 2 || r == 3 || r == 4 || r == 5 || r == 6 || r == 7 || r == 8 || r == 9;
  }

  lemma FixtureColumn5(r: nat)
    requires WellFormed(Fixture()) && r < 10
    ensures Entry(Fixture(), r, 5) == Doc[r][5]
  {
    assert ColPtr[5] == 15 && ColPtr[6] == 16;
    assert RowIdx[15] == 5;
    assert Values[15] == 2.2;
    assert r == 0 || r == 1 || r == 2 || r == 3 || r == 4 || r == 5 || r == 6 || r == 7 || r == 8 || r == 9;
  }

  lemma FixtureColumn6(r: nat)
    requires WellFormed(Fixture()) && r < 10
    ensures Entry(Fixture(), r, 6) == Doc[r][6]
  {
    assert ColPtr[6] == 16 && ColPtr[7] == 19;
    assert RowIdx[16] == 3 && RowIdx[17] == 6 && RowIdx[18] == 9;
    assert Values[16] == 0.32 && Values[17] == 1.9 && Values[18] == 0.43;
    assert r == 0 || r == 1 || r == 2 || r == 3 || r == 4 || r == 5 || r == 6 || r == 7 || r == 8 || r == 9;
  }

  lemma FixtureColumn7(r: nat)
    requires WellFormed(Fixture()) && r < 10
    ensures Entry(Fixture(), r, 7) == Doc[r][7]
  {
    assert ColPtr[7] == 19 && ColPtr[8] == 23;
    assert RowIdx[19] == 0 && RowIdx[20] == 3 && RowIdx[21] == 7 && RowIdx[22] == 8;
    assert Values[19] == 0.14 && Values[20] == 0.19 && Values[21] == 1.1 && Values[22] == 0.22;
    assert r == 0 || r == 1 || r == 2 || r == 3 || r == 4 || r == 5 || r == 6 || r == 7 || r == 8 || r == 9;
  }

  lemma FixtureColumn8(r: nat)
    requires WellFormed(Fixture()) && r < 10
    ensures Entry(Fixture(), r, 8) == Doc[r][8]
  {
    assert ColPtr[8] == 23 && ColPtr[9] == 27;
    assert RowIdx[23] == 0 && RowIdx[24] == 3 && RowIdx[25] == 7 && RowIdx[26] == 8;
    assert Values[23] == 0.09 && Values[24] == 0.32 && Values[25] == 0.22 && Values[26] == 2.4;
    assert r == 0 || r == 1 || r == 2 || r == 3 || r == 4 || r == 5 || r == 6 || r == 7 || r == 8 || r == 9;
  }

  lemma FixtureColumn9(r: nat)
    requires WellFormed(Fixture()) && r < 10
    ensures Entry(Fixture(), r, 9) == Doc[r][9]
  {
    assert ColPtr[9] == 27 && ColPtr[10] == 32;
    assert RowIdx[27] == 1 && RowIdx[28] == 2 && RowIdx[29] == 3 && RowIdx[30] == 6 && RowIdx[31] == 9;
    assert Values[27] == 0.03 && Values[28] == 0.04 && Values[29] == 0.44 && Values[30] == 0.43 && Values[31] == 3.2;
    assert r == 0 || r == 1 || r == 2 || r == 3 || r == 4 || r == 5 || r == 6 || r == 7 || r == 8 || r == 9;
  }

  /** Row by row, the documented matrix times the expected solution is the
      right-hand side. */
  lemma DocTimesX()
    ensures IsSquare(Doc, |X|) && MatVec(Doc, X) == B
  {
    var y := MatVec(Doc, X);
    forall r | 0 <= r < 10
      ensures y[r] == B[r]
    {
      DocRowTimesX(r);
    }
  }

  lemma DocRowTimesX(r: nat)
    requires r < 10
    ensures Dot(Doc[r], X, 10) == B[r]
  {
    if r == 0 {
      assert Dot(Doc[0], X, 10) == B[0];
    } else if r == 1 {
      assert Dot(Doc[1], X, 10) == B[1];
    } else if r == 2 {
      assert Dot(Doc[2], X, 10) == B[2];
    } else if r == 3 {
      assert Dot(Doc[3], X, 10) == B[3];
    } else if r == 4 {
      assert Dot(Doc[4], X, 10) == B[4];
    } else if r == 5 {
      assert Dot(Doc[5], X, 10) == B[5];
    } else if r == 6 {
      assert Dot(Doc[6], X, 10) == B[6];
    } else if r == 7 {
      assert Dot(Doc[7], X, 10) == B[7];
    } else if r == 8 {
      assert Dot(Doc[8], X, 10) == B[8];
    } else if r == 9 {
      assert Dot(Doc[9], X, 10) == B[9];
    }
  }

  /** The tolerance of the accuracy check, 1e-12. */
  const TOL: real := 0.000000000001

  /** The accuracy check: `(1..=10).zip(x)` pairs i = k + 1 with x[k] and
      stops at the shorter side, and each pair must be within TOL of i/10. */
  predicate Accepts(x: seq<real>) {
    forall k :: 0 <= k < N && k < |x| ==> RAbs(x[k] - ((k + 1) as real) / 10.0) < TOL
  }

  /** `simple_solver_test`: one-shot solve of the fixture with `trans` false;
      an `Err` is passed on by `?`, and a failed accuracy check panics. */
  function SimpleSolverTest(solve: OneShot): (r: Outcome<()>)
    ensures var s := solve(N, RowIdx, ColPtr, Values, B, false);
            && (r.Done? <==> s.out.Done? && Accepts(s.b))
            && (r.Fail? <==> s.out.Fail?)
            && (r.Fail? ==> r.error == s.out.error)
  {
    var s := solve(N, RowIdx, ColPtr, Values, B, false);
    match s.out
    case Fail(e) => Fail(e)
    case Panic => Panic
    case Done(_) => if Accepts(s.b) then Done(()) else Panic
  }

  /** On a full-length result the check is exactly: every entry within TOL of
      the expected solution X. */
  lemma AcceptsMeansNearX(x: seq<real>)
    requires |x| == N
    ensures Accepts(x) <==> forall k :: 0 <= k < N ==> RAbs(x[k] - X[k]) < TOL
  {
    forall k | 0 <= k < N
      ensures X[k] == ((k + 1) as real) / 10.0
    {
      assert k == 0 || k == 1 || k == 2 || k == 3 || k == 4 || k == 5 || k == 6 || k == 7 || k == 8 || k == 9;
    }
  }

  /** A solver that leaves exactly X in `b` passes. */
  lemma ExactSolverPasses(solve: OneShot)
    requires solve(N, RowIdx, ColPtr, Values, B, false) == Solved(Done(()), X)
    ensures SimpleSolverTest(solve) == Done(())
  {
    AcceptsMeansNearX(X);
  }

  /** A solve cannot change the length of `b`, so the result has all ten
      entries and the check compares every one of them with X. */
  lemma InPlaceResultFullyChecked(solve: OneShot)
    requires InPlaceSolver(solve)
    ensures var s := solve(N, RowIdx, ColPtr, Values, B, false);
            |s.b| == N &&
            (SimpleSolverTest(solve).Done? <==>
               s.out.Done? && forall k :: 0 <= k < N ==> RAbs(s.b[k] - X[k]) < TOL)
  {
    var s := solve(N, RowIdx, ColPtr, Values, B, false);
    assert |s.b| == |B|;
    AcceptsMeansNearX(s.b);
  }

  /** The check on its own, apart from any solver: `zip` stops at the
      shorter side, so it would pass a result shorter than ten entries, and
      a wrong entry that is present fails it.  No in-place solve produces a
      short result (InPlaceResultFullyChecked). */
  lemma ShortResultsCheckedOnPrefix()
    ensures Accepts([])
    ensures !Accepts([0.0])
  {
    assert RAbs([0.0][0] - ((0 + 1) as real) / 10.0) >= TOL;
  }
}
