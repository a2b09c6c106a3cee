/** Sums over ranges of a plain array, the reference both range structures are measured against. */
module Sums {
  /** a[lo] + ... + a[hi - 1] */
  ghost function Sum(a: seq<int>, lo: int, hi: int): int
    requires 0 <= lo && hi <= |a|
    decreases |a|, hi - lo
  {
    if lo >= hi then 0 else Sum(a, lo, hi - 1) + a[hi - 1]
  }

  /** The array with `v` added on [l, r]. */
  ghost function AddRange(a: seq<int>, l: int, r: int, v: int): (b: seq<int>)
    ensures |b| == |a|
  {
    seq(|a|, i requires 0 <= i < |a| => if l <= i <= r then a[i] + v else a[i])
  }

  /** The array with `d` added everywhere. */
  ghost function Shift(a: seq<int>, d: int): (b: seq<int>)
    ensures |b| == |a|
  {
    seq(|a|, i requires 0 <= i < |a| => a[i] + d)
  }

  lemma {:induction false} SumSplit(a: seq<int>, lo: int, mid: int, hi: int)
    requires 0 <= lo <= mid <= hi <= |a|
    ensures Sum(a, lo, hi) == Sum(a, lo, mid) + Sum(a, mid, hi)
    decreases hi
  {
    if mid < hi { SumSplit(a, lo, mid, hi - 1); }
  }

  lemma {:induction false} SumCong(a: seq<int>, b: seq<int>, lo: int, hi: int)
    requires 0 <= lo && hi <= |a| && hi <= |b| && (forall i :: lo <= i < hi ==> a[i] == b[i])
    ensures Sum(a, lo, hi) == Sum(b, lo, hi)
    decreases hi - lo
  {
    if lo < hi { SumCong(a, b, lo, hi - 1); }
  }

  lemma {:induction false} SumShift(a: seq<int>, d: int, lo: int, hi: int)
    requires 0 <= lo <= hi <= |a|
    ensures Sum(Shift(a, d), lo, hi) == Sum(a, lo, hi) + (hi - lo) * d
    decreases hi
  {
    if lo < hi {
      SumShift(a, d, lo, hi - 1);
      assert (hi - lo) * d == (hi - 1 - lo) * d + d;
    }
  }

  lemma {:induction false} ZeroSum(z: seq<int>, lo: nat, hi: nat)
    requires lo <= hi <= |z| && forall i :: lo <= i < hi ==> z[i] == 0
    ensures Sum(z, lo, hi) == 0
    decreases hi
  {
    if lo < hi { ZeroSum(z, lo, hi - 1); }
  }

  /** std::vector::resize(n, 0) */
  function Resize(s: seq<int>, n: nat): seq<int> { if n <= |s| then s[..n] else s + seq(n - |s|, _ => 0) }
}
