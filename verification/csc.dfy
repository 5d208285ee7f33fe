/** Dense matrices as sequences of rows, and the arithmetic the validation
    harness states its identities in (exact reals instead of `f64`). */
module Dense {

  /** `n` rows of `n` entries each. */
  predicate IsSquare(m: seq<seq<real>>, n: nat) {
    |m| == n && forall r :: 0 <= r < n ==> |m[r]| == n
  }

  /** Σ_{c < k} u[c] · x[c] */
  function Dot(u: seq<real>, x: seq<real>, k: nat): real
    requires k <= |u| && k <= |x|
  {
    if k == 0 then 0.0 else Dot(u, x, k - 1) + u[k - 1] * x[k - 1]
  }

  /** The product m · x of a square matrix and a vector of its order. */
  function MatVec(m: seq<seq<real>>, x: seq<real>): (y: seq<real>)
    requires IsSquare(m, |x|)
    ensures |y| == |x|
    ensures forall r :: 0 <= r < |x| ==> y[r] == Dot(m[r], x, |x|)
  {
    seq(|x|, r requires 0 <= r < |x| => Dot(m[r], x, |x|))
  }

  function Transpose(m: seq<seq<real>>, n: nat): (t: seq<seq<real>>)
    requires IsSquare(m, n)
    ensures IsSquare(t, n)
    ensures forall r, c :: 0 <= r < n && 0 <= c < n ==> t[c][r] == m[r][c]
  {
    seq(n, c requires 0 <= c < n => seq(n, r requires 0 <= r < n => m[r][c]))
  }

  predicate Symmetric(m: seq<seq<real>>, n: nat)
    requires IsSquare(m, n)
  {
    forall r, c :: 0 <= r < n && 0 <= c < n ==> m[r][c] == m[c][r]
  }

  /** A symmetric matrix is its own transpose, so A·x and Aᵗ·x agree. */
  lemma SymmetricTransposeProduct(m: seq<seq<real>>, x: seq<real>)
    requires IsSquare(m, |x|) && Symmetric(m, |x|)
    ensures MatVec(Transpose(m, |x|), x) == MatVec(m, x)
  {
    var t := Transpose(m, |x|);
    forall r | 0 <= r < |x|
      ensures t[r] == m[r]
    {
      assert |t[r]| == |m[r]|;
      forall c | 0 <= c < |x|
        ensures t[r][c] == m[r][c]
      {
      }
    }
    assert t == m;
  }
}

/** The compressed-column (CSC) matrix triple `(a_p, a_i, a_x)` every backend
    takes, what it decodes to, and the two sparse matrix-vector kernels the
    validation harness uses to build right-hand sides (sparsetools'
    `csc_matvec` and `csr_matvec`, which add A·x into `y`). */
module Csc {
  import opened Dense

  /** Structure of a square CSC matrix of order `n`: `n + 1` column offsets
      starting at 0, never decreasing, the last one counting the stored
      entries; every stored row index names a row of the matrix. */
  predicate ValidPattern(n: nat, colPtr: seq<int>, rowIdx: seq<int>) {
    && |colPtr| == n + 1
    && colPtr[0] == 0
    && (forall j, k :: 0 <= j <= k <= n ==> colPtr[j] <= colPtr[k])
    && colPtr[n] == |rowIdx|
    && (forall k :: 0 <= k < |rowIdx| ==> 0 <= rowIdx[k] < n)
  }

  /** `n`, `a_p` (colPtr), `a_i` (rowIdx), `a_x` (values). */
  datatype Matrix = Matrix(n: nat, colPtr: seq<int>, rowIdx: seq<int>, values: seq<real>)

  predicate WellFormed(a: Matrix) {
    ValidPattern(a.n, a.colPtr, a.rowIdx) && |a.values| == |a.rowIdx|
  }

  /** The offsets of column `c` are valid positions of the entry arrays. */
  lemma ColumnBounds(a: Matrix, c: nat)
    requires WellFormed(a) && c < a.n
    ensures 0 <= a.colPtr[c] <= a.colPtr[c + 1] <= |a.rowIdx|
  {
    assert a.colPtr[0] <= a.colPtr[c] <= a.colPtr[c + 1] <= a.colPtr[a.n];
  }

  /** First position of column `c` in the entry arrays. */
  function ColStart(a: Matrix, c: nat): (k: nat)
    requires WellFormed(a) && c < a.n
    ensures k == a.colPtr[c] && k <= a.colPtr[c + 1] <= |a.rowIdx|
  {
    ColumnBounds(a, c);
    a.colPtr[c]
  }

  /** One past the last position of column `c`. */
  function ColEnd(a: Matrix, c: nat): (k: nat)
    requires WellFormed(a) && c < a.n
    ensures k == a.colPtr[c + 1] && a.colPtr[c] <= k <= |a.rowIdx|
  {
    ColumnBounds(a, c);
    a.colPtr[c + 1]
  }

  /** Sum of the values stored at positions `[lo, hi)` with row index `r`. */
  function RowSum(a: Matrix, r: int, lo: nat, hi: nat): real
    requires lo <= hi <= |a.rowIdx| && |a.values| == |a.rowIdx|
    decreases hi
  {
    if lo == hi then 0.0
    else RowSum(a, r, lo, hi - 1) + (if a.rowIdx[hi - 1] == r then a.values[hi - 1] else 0.0)
  }

  /** A[r][c]: the values column `c` stores for row `r` (repeats add up). */
  function Entry(a: Matrix, r: int, c: nat): real
    requires WellFormed(a) && c < a.n
  {
    RowSum(a, r, ColStart(a, c), ColEnd(a, c))
  }

  /** The dense matrix the arrays describe. */
  function Decode(a: Matrix): (m: seq<seq<real>>)
    requires WellFormed(a)
    ensures IsSquare(m, a.n)
    ensures forall r, c :: 0 <= r < a.n && 0 <= c < a.n ==> m[r][c] == Entry(a, r, c)
  {
    seq(a.n, r requires 0 <= r < a.n => seq(a.n, c requires 0 <= c < a.n => Entry(a, r, c)))
  }

  /** A·x for the decoded matrix. */
  function Product(a: Matrix, x: seq<real>): seq<real>
    requires WellFormed(a) && |x| == a.n
  {
    MatVec(Decode(a), x)
  }

  /** Aᵗ·x for the decoded matrix. */
  function TransposeProduct(a: Matrix, x: seq<real>): seq<real>
    requires WellFormed(a) && |x| == a.n
  {
    MatVec(Transpose(Decode(a), a.n), x)
  }

  /** `csc_matvec(n, n, a_p, a_i, a_x, x, y)`: for each column `j`, add
      `a_x[k] * x[j]` into `y[a_i[k]]` for every entry `k` of the column.
      The result is `y` plus A·x. */
  method CscMatVec(a: Matrix, x: seq<real>, y0: seq<real>) returns (y: seq<real>)
    requires WellFormed(a) && |x| == a.n && |y0| == a.n
    ensures |y| == a.n
    ensures forall r :: 0 <= r < a.n ==> y[r] == y0[r] + Product(a, x)[r]
  {
    var m := Decode(a);
    y := y0;
    var j := 0;
    while j < a.n
      invariant 0 <= j <= a.n && |y| == a.n
      invariant forall r :: 0 <= r < a.n ==> y[r] == y0[r] + Dot(m[r], x, j)
    {
      var y1 := ScatterColumn(a, x, j, y);
      assert forall r :: 0 <= r < a.n ==> Dot(m[r], x, j + 1) == Dot(m[r], x, j) + Entry(a, r, j) * x[j];
      y := y1;
      j := j + 1;
    }
  }

  /** The inner loop of `csc_matvec` for column `j`: every entry of the
      column adds `a_x[k] * x[j]` into `y[a_i[k]]`, so row r gains
      A[r][j] · x[j]. */
  method ScatterColumn(a: Matrix, x: seq<real>, j: nat, y0: seq<real>) returns (y: seq<real>)
    requires WellFormed(a) && |x| == a.n && |y0| == a.n && j < a.n
    ensures |y| == a.n
    ensures forall r :: 0 <= r < a.n ==> y[r] == y0[r] + Entry(a, r, j) * x[j]
  {
    ColumnBounds(a, j);
    var lo: nat := a.colPtr[j];
    var hi: nat := a.colPtr[j + 1];
    var xj := x[j];
    y := y0;
    var k := lo;
    while k < hi
      invariant lo <= k <= hi && y == Scattered(a, lo, k, xj, y0)
    {
      var i := a.rowIdx[k];
      var d := a.values[k] * xj;
      assert d == Scaled(a, k, xj);
      y := y[i := y[i] + d];
      k := k + 1;
    }
    ScatteredColumn(a, j, xj, y0);
  }

  /** Scattering all of column `j` adds A[r][j] · c to every row r. */
  lemma ScatteredColumn(a: Matrix, j: nat, c: real, y0: seq<real>)
    requires WellFormed(a) && j < a.n && |y0| == a.n
    ensures a.colPtr[j] <= a.colPtr[j + 1] <= |a.rowIdx|
    ensures forall r :: 0 <= r < a.n ==>
              Scattered(a, a.colPtr[j], a.colPtr[j + 1], c, y0)[r] == y0[r] + Entry(a, r, j) * c
  {
    var lo := ColStart(a, j);
    var hi := ColEnd(a, j);
    ScatteredRows(a, lo, hi, c, y0);
    forall r | 0 <= r < a.n
      ensures Scattered(a, lo, hi, c, y0)[r] == y0[r] + Entry(a, r, j) * c
    {
      ScaledRowSumIsScaled(a, r, lo, hi, c);
    }
  }

  /** `y0` after the scatter of entries `[lo, k)`, each scaled by `c`, into
      the rows they name. */
  function Scattered(a: Matrix, lo: nat, k: nat, c: real, y0: seq<real>): (y: seq<real>)
    requires WellFormed(a) && lo <= k <= |a.rowIdx| && |y0| == a.n
    ensures |y| == a.n
    decreases k
  {
    if k == lo then y0
    else
      var prev := Scattered(a, lo, k - 1, c, y0);
      var i := a.rowIdx[k - 1];
      prev[i := prev[i] + Scaled(a, k - 1, c)]
  }

  /** After the scatter, row r holds its start value plus its own entries,
      scaled. */
  lemma {:induction false} ScatteredRows(a: Matrix, lo: nat, k: nat, c: real, y0: seq<real>)
    requires WellFormed(a) && lo <= k <= |a.rowIdx| && |y0| == a.n
    ensures forall r :: 0 <= r < a.n ==> Scattered(a, lo, k, c, y0)[r] == y0[r] + ScaledRowSum(a, r, lo, k, c)
    decreases k
  {
    if k > lo {
      ScatteredRows(a, lo, k - 1, c, y0);
    }
  }

  /** Σ values[k] · c over positions `k` in `[lo, hi)` with row index `r`:
      what the scatter loop adds into row r. */
  function ScaledRowSum(a: Matrix, r: int, lo: nat, hi: nat, c: real): real
    requires lo <= hi <= |a.rowIdx| && |a.values| == |a.rowIdx|
    decreases hi
  {
    if lo == hi then 0.0
    else ScaledRowSum(a, r, lo, hi - 1, c) + (if a.rowIdx[hi - 1] == r then Scaled(a, hi - 1, c) else 0.0)
  }

  /** Entry `k`'s value scaled by `c`: what the scatter adds for it. */
  function Scaled(a: Matrix, k: nat, c: real): real
    requires k < |a.values|
  {
    a.values[k] * c
  }

  /** Scaling each entry is scaling the sum. */
  lemma {:induction false} ScaledRowSumIsScaled(a: Matrix, r: int, lo: nat, hi: nat, c: real)
    requires lo <= hi <= |a.rowIdx| && |a.values| == |a.rowIdx|
    ensures ScaledRowSum(a, r, lo, hi, c) == RowSum(a, r, lo, hi) * c
    decreases hi
  {
    if lo < hi {
      ScaledRowSumIsScaled(a, r, lo, hi - 1, c);
      var s := RowSum(a, r, lo, hi - 1);
      var v := if a.rowIdx[hi - 1] == r then a.values[hi - 1] else 0.0;
      assert RowSum(a, r, lo, hi) == s + v;
      assert (s + v) * c == s * c + v * c;
    }
  }

  /** Σ values[k] · x[rowIdx[k]] over positions `k` in `[lo, hi)` whose row
      index is below `m`: one pointer range read as a row of a CSR matrix. */
  function Gather(a: Matrix, x: seq<real>, lo: nat, hi: nat, m: nat): real
    requires WellFormed(a) && |x| == a.n && lo <= hi <= |a.rowIdx|
    decreases hi
  {
    if lo == hi then 0.0
    else
      var k := hi - 1;
      Gather(a, x, lo, k, m) + (if a.rowIdx[k] < m then a.values[k] * x[a.rowIdx[k]] else 0.0)
  }

  /** `csr_matvec(n, n, a_p, a_i, a_x, x, y)` on the CSC arrays: pointer range
      `i` is read as row `i`, so `y[i]` gains Σ a_x[k] · x[a_i[k]].  The
      result is `y` plus Aᵗ·x, because a CSC triple read as CSR is the
      transpose. */
  method CsrMatVec(a: Matrix, x: seq<real>, y0: seq<real>) returns (y: seq<real>)
    requires WellFormed(a) && |x| == a.n && |y0| == a.n
    ensures |y| == a.n
    ensures forall c :: 0 <= c < a.n ==> y[c] == y0[c] + TransposeProduct(a, x)[c]
  {
    y := y0;
    var i := 0;
    while i < a.n
      invariant 0 <= i <= a.n && |y| == a.n
      invariant forall c :: 0 <= c < i ==> y[c] == y0[c] + TransposeProduct(a, x)[c]
      invariant forall c :: i <= c < a.n ==> y[c] == y0[c]
    {
      var lo := ColStart(a, i);
      var sum := y[i];
      var k := lo;
      while k < a.colPtr[i + 1]
        invariant lo <= k <= a.colPtr[i + 1]
        invariant sum == y0[i] + Gather(a, x, lo, k, a.n)
      {
        sum := sum + a.values[k] * x[a.rowIdx[k]];
        k := k + 1;
      }
      CsrRowIsTransposeRow(a, x, i);
      y := y[i := sum];
      i := i + 1;
    }
  }

  /** Σ_{r < m} (Σ of column entries `[lo, hi)` in row r) · x[r]. */
  function ColumnDot(a: Matrix, x: seq<real>, lo: nat, hi: nat, m: nat): real
    requires WellFormed(a) && |x| == a.n && lo <= hi <= |a.rowIdx| && m <= a.n
  {
    if m == 0 then 0.0 else ColumnDot(a, x, lo, hi, m - 1) + RowSum(a, m - 1, lo, hi) * x[m - 1]
  }

  /** One pointer range read as a CSR row gives the matching entry of Aᵗ·x. */
  lemma CsrRowIsTransposeRow(a: Matrix, x: seq<real>, c: nat)
    requires WellFormed(a) && |x| == a.n && c < a.n
    ensures Gather(a, x, ColStart(a, c), ColEnd(a, c), a.n) == TransposeProduct(a, x)[c]
  {
    var lo, hi := ColStart(a, c), ColEnd(a, c);
    TransposeRowIsColumnDot(a, x, c, a.n);
    ColumnDotIsGather(a, x, lo, hi, a.n);
  }

  /** Row `c` of the transpose dotted with x is the column-`c` sum. */
  lemma {:induction false} TransposeRowIsColumnDot(a: Matrix, x: seq<real>, c: nat, m: nat)
    requires WellFormed(a) && |x| == a.n && c < a.n && m <= a.n
    ensures Dot(Transpose(Decode(a), a.n)[c], x, m) == ColumnDot(a, x, ColStart(a, c), ColEnd(a, c), m)
  {
    if m > 0 {
      TransposeRowIsColumnDot(a, x, c, m - 1);
    }
  }

  /** Summing the column row by row equals summing it entry by entry. */
  lemma {:induction false} ColumnDotIsGather(a: Matrix, x: seq<real>, lo: nat, hi: nat, m: nat)
    requires WellFormed(a) && |x| == a.n && lo <= hi <= |a.rowIdx| && m <= a.n
    ensures ColumnDot(a, x, lo, hi, m) == Gather(a, x, lo, hi, m)
    decreases hi
  {
    if lo == hi {
      EmptyColumnDot(a, x, lo, m);
    } else {
      ColumnDotIsGather(a, x, lo, hi - 1, m);
      ColumnDotSplit(a, x, lo, hi - 1, m);
      SpikeDot(a, x, hi - 1, m);
    }
  }

  lemma {:induction false} EmptyColumnDot(a: Matrix, x: seq<real>, lo: nat, m: nat)
    requires WellFormed(a) && |x| == a.n && lo <= |a.rowIdx| && m <= a.n
    ensures ColumnDot(a, x, lo, lo, m) == 0.0
  {
    if m > 0 {
      EmptyColumnDot(a, x, lo, m - 1);
    }
  }

  /** Σ_{r < m} [rowIdx[k] == r] · values[k] · x[r]. */
  function Spike(a: Matrix, x: seq<real>, k: nat, m: nat): real
    requires WellFormed(a) && |x| == a.n && k < |a.rowIdx| && m <= a.n
  {
    if m == 0 then 0.0
    else Spike(a, x, k, m - 1) + (if a.rowIdx[k] == m - 1 then a.values[k] else 0.0) * x[m - 1]
  }

  /** (s + v)·c == s·c + v·c. */
  lemma AddMul(s: real, v: real, c: real)
    ensures (s + v) * c == s * c + v * c
  {
  }

  /** Adding entry `hi` to the range adds its spike to the column sum. */
  lemma {:induction false} ColumnDotSplit(a: Matrix, x: seq<real>, lo: nat, hi: nat, m: nat)
    requires WellFormed(a) && |x| == a.n && lo <= hi < |a.rowIdx| && m <= a.n
    ensures ColumnDot(a, x, lo, hi + 1, m) == ColumnDot(a, x, lo, hi, m) + Spike(a, x, hi, m)
  {
    if m > 0 {
      ColumnDotSplit(a, x, lo, hi, m - 1);
      var v := if a.rowIdx[hi] == m - 1 then a.values[hi] else 0.0;
      var s := RowSum(a, m - 1, lo, hi);
      var xr := x[m - 1];
      assert RowSum(a, m - 1, lo, hi + 1) == s + v;
      AddMul(s, v, xr);
      assert ColumnDot(a, x, lo, hi + 1, m)
          == ColumnDot(a, x, lo, hi + 1, m - 1) + (s + v) * xr;
      assert ColumnDot(a, x, lo, hi, m) == ColumnDot(a, x, lo, hi, m - 1) + s * xr;
      assert Spike(a, x, hi, m) == Spike(a, x, hi, m - 1) + v * xr;
    }
  }

  /** The spike of entry `k` picks out `values[k] · x[rowIdx[k]]` when its row
      is among the first `m`. */
  lemma {:induction false} SpikeDot(a: Matrix, x: seq<real>, k: nat, m: nat)
    requires WellFormed(a) && |x| == a.n && k < |a.rowIdx| && m <= a.n
    ensures Spike(a, x, k, m) == if a.rowIdx[k] < m then a.values[k] * x[a.rowIdx[k]] else 0.0
  {
    if m > 0 {
      SpikeDot(a, x, k, m - 1);
    }
  }
}
