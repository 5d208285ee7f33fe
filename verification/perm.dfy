/** Index maps as the adapters use them: a sequence of indices that is a
    bijection on 0..n, and the sequential writes `dst[src_pos[i]] = v[i]` of
    the scatter and gather loops. */
module Permutations {

  predicate InRange(p: seq<int>, n: nat) {
    forall k :: 0 <= k < |p| ==> 0 <= p[k] < n
  }

  predicate Injective(p: seq<int>) {
    forall j, k :: 0 <= j < k < |p| ==> p[j] != p[k]
  }

  /** `p` lists every index of 0..n exactly once. */
  predicate IsPermutation(p: seq<int>, n: nat) {
    |p| == n && InRange(p, n) && Injective(p)
  }

  function Image(p: seq<int>): set<int> {
    set k | 0 <= k < |p| :: p[k]
  }

  function Below(n: nat): (s: set<int>)
    ensures forall v :: v in s <==> 0 <= v < n
    ensures |s| == n
  {
    if n == 0 then {} else Below(n - 1) + {n - 1}
  }

  /** An injective sequence has as many distinct values as entries. */
  lemma {:induction false} ImageSize(p: seq<int>)
    requires Injective(p)
    ensures |Image(p)| == |p|
    decreases |p|
  {
    if |p| > 0 {
      var q := p[..|p| - 1];
      ImageSize(q);
      assert Image(p) == Image(q) + {p[|p| - 1]};
      assert p[|p| - 1] !in Image(q);
    }
  }

  /** Pigeonhole: a permutation of 0..n hits every index of 0..n. */
  lemma PermutationIsOnto(p: seq<int>, n: nat)
    requires IsPermutation(p, n)
    ensures forall v :: 0 <= v < n ==> v in Image(p)
  {
    ImageSize(p);
    assert Image(p) <= Below(n);
    var missing := Below(n) - Image(p);
    assert Below(n) == Image(p) + missing;
    assert |Below(n)| == |Image(p)| + |missing|;
    assert missing == {};
  }

  /** The index of 0..n that a permutation sends to `v`. */
  function Preimage(p: seq<int>, n: nat, v: int): (k: nat)
    requires IsPermutation(p, n) && 0 <= v < n
    ensures k < n && p[k] == v
  {
    PermutationIsOnto(p, n);
    assert v in Image(p);
    var k :| 0 <= k < |p| && p[k] == v;
    k
  }

  /** The writes `d[dst[i]] = src[i]` for i in 0..k, in order, on top of
      `base`. */
  function Assign(base: seq<real>, dst: seq<int>, src: seq<real>, k: nat): (r: seq<real>)
    requires k <= |dst| && k <= |src| && InRange(dst[..k], |base|)
    ensures |r| == |base|
    decreases k
  {
    if k == 0 then base
    else
      assert dst[..k - 1] == dst[..k][..k - 1];
      Assign(base, dst, src, k - 1)[dst[k - 1] := src[k - 1]]
  }

  /** With distinct destinations every write survives, and a position no
      write reaches keeps its old value. */
  lemma {:induction false} AssignDistinct(base: seq<real>, dst: seq<int>, src: seq<real>, k: nat)
    requires k <= |dst| && k <= |src| && InRange(dst[..k], |base|) && Injective(dst[..k])
    ensures forall i :: 0 <= i < k ==> Assign(base, dst, src, k)[dst[i]] == src[i]
    ensures forall v :: 0 <= v < |base| && v !in Image(dst[..k]) ==> Assign(base, dst, src, k)[v] == base[v]
    decreases k
  {
    if k > 0 {
      assert dst[..k - 1] == dst[..k][..k - 1];
      AssignDistinct(base, dst, src, k - 1);
      forall i | 0 <= i < k - 1
        ensures dst[i] != dst[k - 1]
      {
        assert dst[..k][i] != dst[..k][k - 1];
      }
      assert forall i :: 0 <= i < k - 1 ==> dst[..k - 1][i] == dst[..k][i];
      assert Image(dst[..k - 1]) <= Image(dst[..k]);
      assert dst[k - 1] == dst[..k][k - 1] && dst[k - 1] in Image(dst[..k]);
    }
  }

  /** Writing through a permutation of 0..n overwrites every one of the n
      entries exactly once: entry dst[i] ends up holding src[i], and no entry
      keeps its old value. */
  lemma AssignPermutation(base: seq<real>, dst: seq<int>, src: seq<real>, n: nat)
    requires |base| == n && n <= |dst| && n <= |src| && IsPermutation(dst[..n], n)
    ensures forall i :: 0 <= i < n ==> Assign(base, dst, src, n)[dst[i]] == src[i]
    ensures forall v :: 0 <= v < n ==>
              var i := Preimage(dst[..n], n, v);
              Assign(base, dst, src, n)[v] == src[i]
  {
    AssignDistinct(base, dst, src, n);
    forall v | 0 <= v < n
      ensures Assign(base, dst, src, n)[v] == src[Preimage(dst[..n], n, v)]
    {
      var i := Preimage(dst[..n], n, v);
      assert dst[i] == dst[..n][i];
    }
  }
}
