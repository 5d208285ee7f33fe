/** The index side of the numeric type model: the integer widths the adapters
    convert to, with Rust's two kinds of conversion written out.  A checked
    conversion (`to_i32()`, `I::from(n)`) yields `None` when the value does not
    fit and the adapters `unwrap()` it (a panic); an `as` cast truncates to the
    low bits and reinterprets them as two's complement.  `usize` is taken to be
    64 bits wide. */
module Ints {
  import opened Wrappers

  const TWO_32: int := 0x1_0000_0000
  const TWO_64: int := 0x1_0000_0000_0000_0000

  const I32_MIN: int := -0x8000_0000
  const I32_MAX: int := 0x7fff_ffff
  const I64_MIN: int := -0x8000_0000_0000_0000
  const I64_MAX: int := 0x7fff_ffff_ffff_ffff

  predicate InI32(x: int) { I32_MIN <= x <= I32_MAX }

  predicate InI64(x: int) { I64_MIN <= x <= I64_MAX }

  /** `x.to_i32()` of num_traits: checked, `None` when `x` is out of range. */
  function ToI32(x: int): (r: Option<int>)
    ensures r.Some? <==> InI32(x)
    ensures r.Some? ==> r.value == x
  {
    if InI32(x) then Some(x) else None
  }

  /** Element-wise `to_i32()`; `None` when some element does not fit. */
  function ToI32All(s: seq<int>): (r: Option<seq<int>>)
    ensures r.Some? <==> (forall k :: 0 <= k < |s| ==> InI32(s[k]))
    ensures r.Some? ==> r.value == s
  {
    if forall k :: 0 <= k < |s| ==> InI32(s[k]) then Some(s) else None
  }

  /** `x as i32`: keep the low 32 bits, read them as two's complement. */
  function WrapI32(x: int): (r: int)
    ensures InI32(r)
    ensures (x - r) % TWO_32 == 0
    ensures InI32(x) ==> r == x
  {
    var m := x % TWO_32;
    if m <= I32_MAX then m else m - TWO_32
  }

  /** `x as i64` (also `usize as isize`): keep the low 64 bits, read them as
      two's complement. */
  function WrapI64(x: int): (r: int)
    ensures InI64(r)
    ensures (x - r) % TWO_64 == 0
    ensures InI64(x) ==> r == x
  {
    var m := x % TWO_64;
    if m <= I64_MAX then m else m - TWO_64
  }

  /** Element-wise `as i64`. */
  function WrapI64All(s: seq<int>): (r: seq<int>)
    ensures |r| == |s|
    ensures forall k :: 0 <= k < |s| ==> r[k] == WrapI64(s[k])
  {
    seq(|s|, k requires 0 <= k < |s| => WrapI64(s[k]))
  }

  /** `vec![0; n]` of an integer type. */
  function Zeroed(n: nat): (r: seq<int>)
    ensures |r| == n && forall k :: 0 <= k < n ==> r[k] == 0
  {
    seq(n, _ => 0)
  }

  function Abs(x: int): nat { if x < 0 then -x else x }

  /** Rust's `a / b` on `i32`: rounds toward zero, and panics (`None`) on a
      zero divisor and on the one overflowing quotient `i32::MIN / -1`.  The
      quotient's magnitude is the floor of the magnitudes' quotient and its
      sign is the product of the operands' signs. */
  function DivI32(a: int, b: int): (r: Option<int>)
    requires InI32(a) && InI32(b)
    ensures r.None? <==> b == 0 || (a == I32_MIN && b == -1)
    ensures r.Some? ==> InI32(r.value)
    ensures r.Some? ==> Abs(r.value) == Abs(a) / Abs(b)
    ensures r.Some? && r.value != 0 ==> (r.value > 0 <==> (a > 0 <==> b > 0))
  {
    if b == 0 || (a == I32_MIN && b == -1) then None
    else
      var x, y := Abs(a), Abs(b);
      QuotientBounds(x, y);
      var q: int := x / y;
      Some(if (a < 0) == (b < 0) then q else -q)
  }

  /** Bounds on `x / y` for naturals: it is at most `x`, equal to `x` when
      `y == 1`, and at most half of `x` otherwise. */
  lemma QuotientBounds(x: int, y: int)
    requires x >= 0 && y >= 1
    ensures 0 <= x / y <= x
    ensures y == 1 ==> x / y == x
    ensures y >= 2 ==> 2 * (x / y) <= x
  {
    QuotientNonNegative(x, y);
    var q := x / y;
    assert x == q * y + x % y;
    MulAtLeast(q, y);
    if y >= 2 {
      MulAtLeast(q, y - 1);
      assert q * y == q * (y - 1) + q;
    }
  }

  lemma QuotientNonNegative(x: int, y: int)
    requires x >= 0 && y >= 1
    ensures x / y >= 0
  {
  }

  lemma {:induction false} MulAtLeast(k: nat, y: int)
    requires y >= 1
    ensures k * y >= k
    decreases y
  {
    if y > 1 {
      MulAtLeast(k, y - 1);
      assert k * y == k * (y - 1) + k;
    }
  }

  /** Lossless widening: an `as i64` cast of a value that fits changes nothing. */
  lemma WidenIsLossless(s: seq<int>)
    requires forall k :: 0 <= k < |s| ==> 0 <= s[k] <= I64_MAX
    ensures WrapI64All(s) == s
  {
  }

  /** Euclidean remainders are unique: x == q·n + r with 0 <= r < n fixes r. */
  lemma ModUnique(x: int, n: int, q: int, r: int)
    requires n > 0 && 0 <= r < n && x == q * n + r
    ensures x % n == r
  {
    var q', r' := x / n, x % n;
    assert x == q' * n + r';
    assert (q - q') * n == r' - r;
    if q > q' {
      MulAtLeast(n, q - q');
    } else if q < q' {
      MulAtLeast(n, q' - q);
    }
  }

  /** Adding the modulus does not change the remainder. */
  lemma ModShift(m: nat, n: nat)
    requires n > 0
    ensures (n + m) % n == m % n
  {
    var q, r := m / n, m % n;
    assert m == q * n + r;
    assert n + m == (q + 1) * n + r;
    ModUnique(n + m, n, q + 1, r);
  }
}
