/** cpp/datastructure/tree/binary_index_tree.h: the pair of Fenwick trees for range update and
    range sum.  Positions are 1-based; cell `i` covers (i - lowbit(i), i]. */
module Fenwick {
  import opened Bits
  import opened Powers
  import opened Sums

  // ---------- lowbit ----------

  /** The lowest set bit of `i`, the source's `i & -i`. */
  function Lowbit(i: nat): (b: nat)
    requires i >= 1
    ensures 1 <= b <= i
  {
    if i % 2 == 1 then 1 else 2 * Lowbit(i / 2)
  }

  lemma OddBits(x: bv64, y: bv64)
    requires x == (y << 1) | 1
    ensures x & -x == 1
  {}

  lemma EvenBits(x: bv64, y: bv64, b: bv64, a: bv64)
    requires x != 0 && x == y << 1 && y < 0x8000_0000_0000_0000 && b == x & -x && a == y & -y
    ensures b == a << 1 && a < 0x8000_0000_0000_0000 && y != 0
  {}

  lemma OddWord(x: bv64, y: bv64, b: bv64)
    requires y < 0x8000_0000_0000_0000 && x == (y << 1) | 1 && b == x & -x
    ensures x as int >= 1 && b as int == Lowbit(x as int)
  {
    OddBits(x, y);
    Double(y);
  }

  lemma EvenWord(x: bv64, y: bv64, b: bv64, a: bv64)
    requires y < 0x8000_0000_0000_0000 && a < 0x8000_0000_0000_0000 && x == y << 1 && b == a << 1
    requires y as int >= 1 && a as int == Lowbit(y as int)
    ensures x as int >= 1 && b as int == Lowbit(x as int)
  {
    Double(y);
    Double(a);
    LowbitDouble(x as int, y as int);
  }

  lemma {:induction false} LowbitDouble(n: nat, m: nat)
    requires n == 2 * m && m >= 1
    ensures Lowbit(n) == 2 * Lowbit(m)
  {}

  lemma HalfLess(x: bv64, y: bv64)
    requires x != 0 && x == y << 1 && y < 0x8000_0000_0000_0000
    ensures 0 <= y as int < x as int
  {
    Double(y);
    Positive(x);
  }

  /** `i & -i` on 64-bit words is the lowest set bit. */
  lemma {:induction false} LowbitBits(x: bv64, b: bv64)
    requires x != 0 && b == x & -x
    ensures x as int >= 1 && b as int == Lowbit(x as int)
    decreases x as int
  {
    var y := x >> 1;
    Halve(x, y);
    if x == y << 1 {
      var a := y & -y;
      EvenBits(x, y, b, a);
      HalfLess(x, y);
      LowbitBits(y, a);
      EvenWord(x, y, b, a);
    } else {
      OddWord(x, y, b);
    }
  }

  lemma {:induction false} LowbitUp(i: nat)
    requires i >= 1
    ensures Lowbit(i + Lowbit(i)) >= 2 * Lowbit(i)
  {
    if i % 2 == 0 {
      LowbitUp(i / 2);
      assert (i + Lowbit(i)) / 2 == i / 2 + Lowbit(i / 2);
    }
  }

  lemma {:induction false} LowbitDown(i: nat)
    requires i >= 1 && i > Lowbit(i)
    ensures Lowbit(i - Lowbit(i)) >= 2 * Lowbit(i)
  {
    if i % 2 == 0 {
      LowbitDown(i / 2);
      assert (i - Lowbit(i)) / 2 == i / 2 - Lowbit(i / 2);
    }
  }

  /** Between a position and the next one up its chain, cells start at or after the position. */
  lemma {:induction false} LowbitBetween(i: nat, j: nat)
    requires 1 <= i < j < i + Lowbit(i)
    ensures i <= j - Lowbit(j)
  {
    if j % 2 == 0 { LowbitBetween(i / 2, j / 2); }
  }

  /** Inside a cell, chains do not leave it before its end. */
  lemma {:induction false} LowbitInside(m: nat, c: nat)
    requires 1 <= c < m && m - Lowbit(m) < c
    ensures c + Lowbit(c) <= m
  {
    if c % 2 == 0 { LowbitInside(m / 2, c / 2); }
  }

  /** The children of `k`, from the right: each starts where the next one to the left ends. */
  lemma {:induction false} LowbitChild(m: nat, k: nat)
    requires m >= 1 && m + Lowbit(m) == k && k - Lowbit(k) < m - Lowbit(m)
    ensures m - Lowbit(m) >= 1 && (m - Lowbit(m)) + Lowbit(m - Lowbit(m)) == k
  {
    if m % 2 == 0 {
      LowbitChild(m / 2, k / 2);
      assert (m - Lowbit(m)) / 2 == m / 2 - Lowbit(m / 2);
    } else {
      LowbitChildOdd(m, k);
    }
  }

  lemma {:induction false} LowbitChildOdd(m: nat, k: nat)
    requires m % 2 == 1 && m + 1 == k && k - Lowbit(k) < m - 1
    ensures m - 1 >= 1 && (m - 1) + Lowbit(m - 1) == k
  {
    var h := k / 2;
    LowbitDouble(k, h);
    LowbitEven(h);
    LowbitDouble(m - 1, h - 1);
  }

  lemma {:induction false} LowbitEven(h: nat)
    requires h >= 1 && Lowbit(h) > 1
    ensures h >= 2 && Lowbit(h - 1) == 1
  {}

  ghost predicate Covers(j: nat, p: nat)
    requires j >= 1
  {
    j - Lowbit(j) < p <= j
  }

  /** The upward chain from `p` visits exactly the cells whose interval contains `p`. */
  lemma {:induction false} ChainStep(p: nat, cur: nat)
    requires cur >= 1 && Covers(cur, p)
    ensures Covers(cur + Lowbit(cur), p)
    ensures forall j: nat :: cur < j < cur + Lowbit(cur) ==> !Covers(j, p)
  {
    LowbitUp(cur);
    forall j: nat | cur < j < cur + Lowbit(cur) ensures !Covers(j, p) { LowbitBetween(cur, j); }
  }

  /** Cell `j` when the chain from `q` has been followed up to, but not including, `i`. */
  ghost predicate CellAt(t0: seq<int>, t: seq<int>, q: nat, i: nat, v: int, j: nat)
    requires |t| == |t0|
  {
    1 <= j < |t| ==> t[j] == t0[j] + if j < i && Covers(j, q) then v else 0
  }

  ghost predicate Climbed(t0: seq<int>, t: seq<int>, q: nat, i: nat, v: int) {
    |t| == |t0| && forall j: nat {:trigger CellAt(t0, t, q, i, v, j)} :: CellAt(t0, t, q, i, v, j)
  }

  lemma ClimbStep(t0: seq<int>, t: seq<int>, q: nat, i: nat, next: nat, v: int)
    requires 1 <= i < |t| && Covers(i, q) && Climbed(t0, t, q, i, v) && next == i + Lowbit(i)
    ensures Climbed(t0, t[i := t[i] + v], q, next, v)
  {
    ChainStep(q, i);
    var u := t[i := t[i] + v];
    forall j: nat ensures CellAt(t0, u, q, next, v, j) { assert CellAt(t0, t, q, i, v, j); }
  }

  /** The end of the chain: exactly the cells that cover `q` have changed. */
  lemma ClimbEnd(t0: seq<int>, t: seq<int>, q: nat, i: nat, v: int)
    requires i >= |t| && Climbed(t0, t, q, i, v)
    ensures forall j: nat :: 1 <= j < |t| ==> t[j] == t0[j] + if Covers(j, q) then v else 0
  {
    forall j: nat | 1 <= j < |t| ensures t[j] == t0[j] + if Covers(j, q) then v else 0 {
      assert CellAt(t0, t, q, i, v, j);
    }
  }

  /** The chain from `q` is at `i` after so many passes. */
  ghost predicate Passing(q: nat, i: nat, size: nat, passes: nat) {
    i >= 1 && Covers(i, q) && Lowbit(i) >= Pow2(passes) && (passes > 0 ==> Pow2(passes) <= 2 * size)
  }

  lemma {:induction false} NextPass(q: nat, i: nat, next: nat, size: nat, passes: nat)
    requires i <= size && Passing(q, i, size, passes) && next == i + Lowbit(i)
    ensures next > i && Passing(q, next, size, passes + 1)
  {
    LowbitUp(i);
    ChainStep(q, i);
  }

  // ---------- one tree over an array of differences ----------

  ghost function CellSum(d: seq<int>, i: nat): int
    requires 1 <= i < |d|
  {
    Sum(d, i - Lowbit(i) + 1, i + 1)
  }

  /** Every cell holds the sum of its interval. */
  ghost predicate Holds(t: seq<int>, d: seq<int>) {
    |t| == |d| >= 1 && forall i: nat :: 1 <= i < |t| ==> t[i] == CellSum(d, i)
  }

  /** The source's `_query` loop: a prefix sum, in at most log2(index + 1) passes. */
  method PrefixQuery(t: seq<int>, index: nat, ghost d: seq<int>) returns (result: int, ghost passes: nat)
    requires Holds(t, d) && index < |t|
    ensures result == Sum(d, 1, index + 1) && Pow2(passes) <= index + 1
  {
    result, passes := 0, 0;
    var i: nat := index;
    while i != 0
      invariant i <= index && result + Sum(d, 1, i + 1) == Sum(d, 1, index + 1)
      invariant index - i >= Pow2(passes) - 1 && (i > 0 ==> Lowbit(i) >= Pow2(passes))
    {
      SumSplit(d, 1, i - Lowbit(i) + 1, i + 1);
      if i > Lowbit(i) { LowbitDown(i); }
      result := result + t[i];
      i := i - Lowbit(i);
      passes := passes + 1;
    }
  }

  lemma {:induction false} SumSet(d: seq<int>, p: nat, v: int, lo: nat, hi: nat)
    requires p < |d| && lo <= hi <= |d|
    ensures Sum(d[p := d[p] + v], lo, hi) == Sum(d, lo, hi) + if lo <= p < hi then v else 0
    decreases hi
  {
    if lo < hi { SumSet(d, p, v, lo, hi - 1); }
  }

  /** Adding `v` to exactly the cells that cover `p` is adding `v` to element `p`. */
  lemma CellsSet(t: seq<int>, t': seq<int>, d: seq<int>, p: nat, v: int)
    requires Holds(t, d) && 1 <= p < |d| && |t'| == |t|
    requires forall j: nat :: 1 <= j < |t| ==> t'[j] == t[j] + if Covers(j, p) then v else 0
    ensures Holds(t', d[p := d[p] + v])
  {
    forall i: nat | 1 <= i < |t| ensures t'[i] == CellSum(d[p := d[p] + v], i) {
      SumSet(d, p, v, i - Lowbit(i) + 1, i + 1);
    }
  }

  // ---------- the linear-time build ----------

  /** The sum of the cells before `i` whose chain goes to `k` next. */
  ghost function ChildSum(t: seq<int>, k: nat, i: nat): int
    requires i <= |t|
  {
    if i <= 1 then 0
    else ChildSum(t, k, i - 1) + if (i - 1) + Lowbit(i - 1) == k then t[i - 1] else 0
  }

  /** `t` is what the build loop makes of the starting values `t0` and the differences `d`. */
  ghost predicate BuiltFrom(t: seq<int>, t0: seq<int>, d: seq<int>) {
    |t| == |t0| == |d| >= 1 && forall k: nat {:trigger ChildSum(t, k, k)} :: 1 <= k < |t| ==>
        t[k] == t0[k] + d[k] + ChildSum(t, k, k)
  }

  lemma {:induction false} ChildSumCong(t: seq<int>, u: seq<int>, k: nat, i: nat)
    requires i <= |t| && i <= |u| && forall j: nat :: 1 <= j < i ==> t[j] == u[j]
    ensures ChildSum(t, k, i) == ChildSum(u, k, i)
  {
    if i > 1 { ChildSumCong(t, u, k, i - 1); }
  }

  lemma {:induction false} NoChildBetween(t: seq<int>, k: nat, lo: nat, hi: nat)
    requires 1 <= lo <= hi <= |t| && forall c: nat :: lo <= c < hi ==> c + Lowbit(c) != k
    ensures ChildSum(t, k, hi) == ChildSum(t, k, lo)
  {
    if lo < hi { NoChildBetween(t, k, lo, hi - 1); }
  }

  lemma {:induction false} ChildInside(c: nat, k: nat)
    requires c >= 1 && c + Lowbit(c) == k
    ensures c > k - Lowbit(k)
  {
    LowbitUp(c);
  }

  lemma NoChildBefore(t: seq<int>, k: nat)
    requires 1 <= k < |t|
    ensures ChildSum(t, k, k - Lowbit(k) + 1) == 0
  {
    forall c: nat | 1 <= c < k - Lowbit(k) + 1 ensures c + Lowbit(c) != k {
      if c + Lowbit(c) == k { ChildInside(c, k); }
    }
    NoChildBetween(t, k, 1, k - Lowbit(k) + 1);
  }

  /** The children of `k` up to `m` tile (k - lowbit(k), m]. */
  lemma {:induction false} ChildrenTile(t: seq<int>, d: seq<int>, k: nat, m: nat)
    requires 1 <= k < |d| == |t| && k - Lowbit(k) <= m < k
    requires m == k - Lowbit(k) || (m >= 1 && m + Lowbit(m) == k)
    requires forall j: nat :: 1 <= j < k ==> t[j] == CellSum(d, j)
    ensures ChildSum(t, k, m + 1) == Sum(d, k - Lowbit(k) + 1, m + 1)
  {
    if m == k - Lowbit(k) {
      NoChildBefore(t, k);
    } else {
      var m' := m - Lowbit(m);
      TileStart(m, k);
      if k - Lowbit(k) < m' { LowbitChild(m, k); }
      ChildrenTile(t, d, k, m');
      LastChild(t, k, m);
      SumSplit(d, k - Lowbit(k) + 1, m' + 1, m + 1);
    }
  }

  /** Within the interval of a child `m` of `k`, `m` itself is the only child. */
  lemma {:induction false} LastChild(t: seq<int>, k: nat, m: nat)
    requires 1 <= m < |t| && m + Lowbit(m) == k
    ensures ChildSum(t, k, m + 1) == ChildSum(t, k, m - Lowbit(m) + 1) + t[m]
  {
    forall c: nat | m - Lowbit(m) + 1 <= c < m ensures c + Lowbit(c) != k { LowbitInside(m, c); }
    NoChildBetween(t, k, m - Lowbit(m) + 1, m);
  }

  lemma {:induction false} TileStart(m: nat, k: nat)
    requires m >= 1 && m + Lowbit(m) == k
    ensures k - Lowbit(k) <= m - Lowbit(m)
  {
    LowbitUp(m);
  }

  /** A cell is its own element and its children. */
  lemma CellSplit(t: seq<int>, d: seq<int>, k: nat)
    requires 1 <= k < |d| == |t| && forall j: nat :: 1 <= j < k ==> t[j] == CellSum(d, j)
    ensures CellSum(d, k) == d[k] + ChildSum(t, k, k)
  {
    ChildrenTile(t, d, k, k - 1);
  }

  /** The build represents `d` exactly when it started from zeros. */
  lemma BuiltIffZero(t: seq<int>, t0: seq<int>, d: seq<int>)
    requires BuiltFrom(t, t0, d)
    ensures Holds(t, d) <==> forall k: nat :: 1 <= k < |t0| ==> t0[k] == 0
  {
    if forall k: nat :: 1 <= k < |t0| ==> t0[k] == 0 {
      forall k: nat | 1 <= k < |t| ensures t[k] == CellSum(d, k) { BuiltCell(t, t0, d, k); }
    }
    if Holds(t, d) {
      forall k: nat | 1 <= k < |t0| ensures t0[k] == 0 { CellSplit(t, d, k); }
    }
  }

  lemma {:induction false} BuiltCell(t: seq<int>, t0: seq<int>, d: seq<int>, k: nat)
    requires BuiltFrom(t, t0, d) && 1 <= k < |t| && forall j: nat :: 1 <= j < |t0| ==> t0[j] == 0
    ensures t[k] == CellSum(d, k)
  {
    forall j: nat | 1 <= j < k ensures t[j] == CellSum(d, j) { BuiltCell(t, t0, d, j); }
    CellSplit(t, d, k);
  }

  // ---------- the plain array behind the two trees ----------

  /** Differences of a 1-based array (position 0 holds 0). */
  ghost function Diff(a: seq<int>): (d: seq<int>)
    ensures |d| == |a|
  {
    seq(|a|, i requires 0 <= i < |a| => if i == 0 then 0 else a[i] - a[i - 1])
  }

  ghost function Weighted(d: seq<int>): (w: seq<int>)
    ensures |w| == |d|
  {
    seq(|d|, i requires 0 <= i < |d| => i * d[i])
  }

  lemma {:induction false} DiffSum(a: seq<int>, i: nat)
    requires i < |a| && a[0] == 0
    ensures Sum(Diff(a), 1, i + 1) == a[i]
  {
    if i > 0 { DiffSum(a, i - 1); }
  }

  /** The prefix sums of the array, from the two prefix sums of its differences. */
  lemma {:induction false} PrefixFormula(a: seq<int>, r: nat)
    requires r < |a| && a[0] == 0
    ensures Sum(a, 1, r + 1) == (r + 1) * Sum(Diff(a), 1, r + 1) - Sum(Weighted(Diff(a)), 1, r + 1)
  {
    if r > 0 {
      PrefixFormula(a, r - 1);
      DiffSum(a, r);
      var d := Diff(a);
      var s := Sum(d, 1, r);
      assert (r + 1) * (s + d[r]) == r * s + s + r * d[r] + d[r];
    }
  }

  /** The array with `v` added from position `p` on. */
  ghost function AddFrom(a: seq<int>, p: int, v: int): (b: seq<int>)
    ensures |b| == |a|
  {
    seq(|a|, i requires 0 <= i < |a| => if i >= 1 && i >= p then a[i] + v else a[i])
  }

  lemma AddFromDiff(a: seq<int>, p: nat, v: int)
    requires 1 <= p < |a|
    ensures Diff(AddFrom(a, p, v)) == Diff(a)[p := Diff(a)[p] + v]
    ensures Weighted(Diff(AddFrom(a, p, v))) == Weighted(Diff(a))[p := Weighted(Diff(a))[p] + p * v]
  {
    var d, d' := Diff(a), Diff(AddFrom(a, p, v));
    assert d' == d[p := d[p] + v];
    assert p * (d[p] + v) == p * d[p] + p * v;
  }

  /** Both trees after the chain from `i`. */
  lemma Updated(t: seq<int>, t': seq<int>, u: seq<int>, u': seq<int>, a: seq<int>, p: int, i: nat, v: int)
    requires 1 <= i < |a| && i == (if p <= 0 then 1 else p) && Holds(t, Diff(a)) && Holds(u, Weighted(Diff(a)))
    requires |t'| == |t| && |u'| == |u|
    requires forall j: nat :: 1 <= j < |t| ==> t'[j] == t[j] + if Covers(j, i) then v else 0
    requires forall j: nat :: 1 <= j < |u| ==> u'[j] == u[j] + if Covers(j, i) then i * v else 0
    ensures Holds(t', Diff(AddFrom(a, p, v))) && Holds(u', Weighted(Diff(AddFrom(a, p, v))))
    ensures AddFrom(a, p, v)[0] == a[0]
  {
    CellsSet(t, t', Diff(a), i, v);
    CellsSet(u, u', Weighted(Diff(a)), i, i * v);
    AddFromDiff(a, i, v);
    assert AddFrom(a, p, v) == AddFrom(a, i, v);
  }

  ghost predicate Zero(t: seq<int>) { forall k: nat :: 1 <= k < |t| ==> t[k] == 0 }

  ghost predicate ZeroUpTo(t: seq<int>, m: nat) { forall k: nat :: 1 <= k < |t| && k <= m ==> t[k] == 0 }

  lemma {:induction false} NoChildSum(t: seq<int>, k: nat, i: nat)
    requires i <= |t| && forall j: nat :: 1 <= j < i ==> t[j] == 0
    ensures ChildSum(t, k, i) == 0
  {
    if i > 1 { NoChildSum(t, k, i - 1); }
  }

  /** The first cells are zero exactly when the first elements are. */
  lemma ZeroCells(t: seq<int>, d: seq<int>, m: nat)
    requires Holds(t, d)
    ensures ZeroUpTo(t, m) <==> ZeroUpTo(d, m)
  {
    if ZeroUpTo(t, m) {
      forall k: nat | 1 <= k < |d| && k <= m ensures d[k] == 0 {
        CellSplit(t, d, k);
        NoChildSum(t, k, k);
      }
    }
    if ZeroUpTo(d, m) {
      forall k: nat | 1 <= k < |t| && k <= m ensures t[k] == 0 {
        ZeroSum(d, k - Lowbit(k) + 1, k + 1);
      }
    }
  }

  lemma {:induction false} ZeroDiff(a: seq<int>, m: nat)
    requires |a| >= 1 && a[0] == 0
    ensures ZeroUpTo(Diff(a), m) <==> ZeroUpTo(a, m)
    ensures ZeroUpTo(a, m) ==> ZeroUpTo(Weighted(Diff(a)), m)
  {
    if ZeroUpTo(Diff(a), m) {
      forall k: nat | 1 <= k < |a| && k <= m ensures a[k] == 0 {
        DiffSum(a, k);
        ZeroSum(Diff(a), 1, k + 1);
      }
    }
  }

  /** Trees that stand for `a`, cut or extended to `m` cells, are zero exactly when `a` is up to
      there. */
  lemma ZeroResized(t: seq<int>, u: seq<int>, a: seq<int>, m: nat)
    requires |a| >= 1 && a[0] == 0 && Holds(t, Diff(a)) && Holds(u, Weighted(Diff(a)))
    ensures Zero(Resize(t, m + 1)) && Zero(Resize(u, m + 1)) <==> ZeroUpTo(a, m)
  {
    ZeroKept(t, m);
    ZeroKept(u, m);
    ZeroCells(t, Diff(a), m);
    ZeroCells(u, Weighted(Diff(a)), m);
    ZeroDiff(a, m);
  }

  lemma ZeroKept(t: seq<int>, m: nat)
    requires |t| >= 1
    ensures Zero(Resize(t, m + 1)) <==> ZeroUpTo(t, m)
  {
    var r := Resize(t, m + 1);
    if Zero(r) {
      forall k: nat | 1 <= k < |t| && k <= m ensures t[k] == 0 { assert r[k] == t[k]; }
    }
  }

  lemma ZerosHold(z: seq<int>)
    requires |z| >= 1 && forall i :: 0 <= i < |z| ==> z[i] == 0
    ensures Holds(z, Diff(z)) && Holds(z, Weighted(Diff(z)))
  {
    assert Diff(z) == z && Weighted(z) == z;
    forall i: nat | 1 <= i < |z| ensures CellSum(z, i) == 0 { ZeroSum(z, i - Lowbit(i) + 1, i + 1); }
  }

  class BinaryIndexTree {
    var size: nat
    var diff: seq<int>
    var idiff: seq<int>

    /** The object stands for the 1-based array `a`. */
    ghost predicate Represents(a: seq<int>)
      reads this
    {
      |a| == size + 1 && a[0] == 0 && Holds(diff, Diff(a)) && Holds(idiff, Weighted(Diff(a)))
    }

    constructor (n: nat)
      ensures Represents(seq(n + 1, _ => 0)) && Zero(diff) && Zero(idiff)
    {
      size := n;
      diff := seq(n + 1, _ => 0);
      idiff := seq(n + 1, _ => 0);
      new;
      ZerosHold(seq(n + 1, _ => 0));
    }

    /** The O(n) build; it represents the input exactly when the (resized) trees were zero before: on
        a tree that stood for `a`, when `a` was zero as far as the input goes. */
    method Init(vec: seq<int>)
      modifies this
      ensures size == |vec|
      ensures Represents([0] + vec) <==> Zero(Resize(old(diff), |vec| + 1)) && Zero(Resize(old(idiff), |vec| + 1))
      ensures forall a :: old(Represents(a)) ==> (Represents([0] + vec) <==> ZeroUpTo(a, |vec|))
    {
      forall a | Represents(a) ensures Zero(Resize(diff, |vec| + 1)) && Zero(Resize(idiff, |vec| + 1)) <==>
          ZeroUpTo(a, |vec|) {
        ZeroResized(diff, idiff, a, |vec|);
      }
      size := |vec|;
      diff := Resize(diff, size + 1);
      idiff := Resize(idiff, size + 1);
      ghost var t0, u0 := diff, idiff;
      Fill(vec);
      BuiltIffZero(diff, t0, Diff([0] + vec));
      BuiltIffZero(idiff, u0, Weighted(Diff([0] + vec)));
    }

    /** The build loop. */
    method Fill(vec: seq<int>)
      requires size == |vec| && |diff| == |idiff| == size + 1
      modifies this`diff, this`idiff
      ensures BuiltFrom(diff, old(diff), Diff([0] + vec)) && BuiltFrom(idiff, old(idiff), Weighted(Diff([0] + vec)))
    {
      ghost var t0, u0, d := diff, idiff, Diff([0] + vec);
      ghost var w := Weighted(d);
      for i := 1 to size + 1
        invariant |diff| == |idiff| == size + 1
        invariant Building(diff, t0, d, i) && Building(idiff, u0, w, i)
      {
        BuildStep(diff, t0, d, i);
        BuildStep(idiff, u0, w, i);
        FillAt(i, vec);
      }
      Finished(diff, t0, d);
      Finished(idiff, u0, w);
    }

    /** One pass of the build loop. */
    method FillAt(i: nat, vec: seq<int>)
      requires 1 <= i <= size == |vec| && |diff| == |idiff| == size + 1
      modifies this`diff, this`idiff
      ensures diff == Push(old(diff), i, Diff([0] + vec)[i])
      ensures idiff == Push(old(idiff), i, Weighted(Diff([0] + vec))[i])
    {
      var step := if i == 1 then vec[i - 1] else vec[i - 1] - vec[i - 2];
      var istep := if i == 1 then i * vec[i - 1] else i * (vec[i - 1] - vec[i - 2]);
      StepsOf(vec, i);
      Raise(i, step, istep);
    }

    /** The cell itself, then the next cell up its chain. */
    method Raise(i: nat, step: int, istep: int)
      requires 1 <= i <= size && |diff| == |idiff| == size + 1
      modifies this`diff, this`idiff
      ensures diff == Push(old(diff), i, step) && idiff == Push(old(idiff), i, istep)
    {
      diff := diff[i := diff[i] + step];
      idiff := idiff[i := idiff[i] + istep];
      var j := i + Lowbit(i);
      if j <= size {
        diff := diff[j := diff[j] + diff[i]];
        idiff := idiff[j := idiff[j] + idiff[i]];
      }
    }

    /** The `__update` lambda: `v` is added from position `p` on (positions below 1 count as 1). */
    method UpdateFrom(p: int, v: int, ghost a: seq<int>) returns (ghost passes: nat)
      requires Represents(a)
      modifies this`diff, this`idiff
      ensures Represents(AddFrom(a, p, v)) && (passes > 0 ==> Pow2(passes) <= 2 * size)
    {
      var i: nat := if p <= 0 then 1 else p;
      ghost var t, u := diff, idiff;
      passes := Climb(i, v, i * v);
      if i <= size {
        Updated(t, diff, u, idiff, a, p, i, v);
      } else {
        assert AddFrom(a, p, v) == a;
      }
    }

    /** The chain upwards from `q`: exactly the cells that cover `q` change, in at most 1 + log2(size)
        passes. */
    method Climb(q: nat, v: int, iv: int) returns (ghost passes: nat)
      requires q >= 1 && size + 1 == |diff| == |idiff|
      modifies this`diff, this`idiff
      ensures |diff| == |idiff| == size + 1
      ensures forall j: nat :: 1 <= j <= size ==> diff[j] == old(diff)[j] + if Covers(j, q) then v else 0
      ensures forall j: nat :: 1 <= j <= size ==> idiff[j] == old(idiff)[j] + if Covers(j, q) then iv else 0
      ensures q > size ==> diff == old(diff) && idiff == old(idiff)
      ensures passes > 0 ==> Pow2(passes) <= 2 * size
    {
      var i: nat := q;
      passes := 0;
      while i <= size
        invariant size + 1 == |diff| == |idiff| && i >= q && Passing(q, i, size, passes)
        invariant Climbed(old(diff), diff, q, i, v) && Climbed(old(idiff), idiff, q, i, iv)
        invariant q > size ==> diff == old(diff) && idiff == old(idiff)
        decreases size - i
      {
        var next := i + Lowbit(i);
        ClimbStep(old(diff), diff, q, i, next, v);
        ClimbStep(old(idiff), idiff, q, i, next, iv);
        NextPass(q, i, next, size, passes);
        passes := passes + 1;
        diff := diff[i := diff[i] + v];
        idiff := idiff[i := idiff[i] + iv];
        i := next;
      }
      ClimbEnd(old(diff), diff, q, i, v);
      ClimbEnd(old(idiff), idiff, q, i, iv);
    }

    /** Adds `v` from `left` on and takes it back after `right`: on exactly [left, right] when
        1 <= left <= right. */
    method RangeUpdate(left: int, right: int, v: int, ghost a: seq<int>)
      requires Represents(a)
      modifies this`diff, this`idiff
      ensures Represents(AddFrom(AddFrom(a, left, v), right + 1, -v))
      ensures 1 <= left <= right ==> Represents(AddRange(a, left, right, v))
    {
      ghost var passes := UpdateFrom(left, v, a);
      passes := UpdateFrom(right + 1, -v, AddFrom(a, left, v));
      if 1 <= left <= right {
        assert AddFrom(AddFrom(a, left, v), right + 1, -v) == AddRange(a, left, right, v);
      }
    }

    /** One element. */
    method Query(i: nat, ghost a: seq<int>) returns (result: int, ghost passes: nat)
      requires Represents(a) && i <= size
      ensures result == a[i] && Pow2(passes) <= i + 1
    {
      result, passes := PrefixQuery(diff, i, Diff(a));
      DiffSum(a, i);
    }

    /** The sum over [l, r]; with l beyond r + 1 the sum counts backwards. */
    method RangeSum(l: nat, r: nat, ghost a: seq<int>) returns (result: int)
      requires Represents(a) && 1 <= l <= size + 1 && r <= size
      ensures result == Sum(a, 1, r + 1) - Sum(a, 1, l)
      ensures l <= r + 1 ==> result == Sum(a, l, r + 1)
    {
      ghost var passes;
      var dr, ir, dl, il;
      dr, passes := PrefixQuery(diff, r, Diff(a));
      ir, passes := PrefixQuery(idiff, r, Weighted(Diff(a)));
      dl, passes := PrefixQuery(diff, l - 1, Diff(a));
      il, passes := PrefixQuery(idiff, l - 1, Weighted(Diff(a)));
      result := (r + 1) * dr - ir - l * dl + il;
      PrefixFormula(a, r);
      PrefixFormula(a, l - 1);
      if l <= r + 1 { SumSplit(a, 1, l, r + 1); }
    }
  }

  /** Building twice adds up: the second time the input is not what the tree stands for. */
  method InitTwice() returns (t: BinaryIndexTree)
    ensures fresh(t) && !t.Represents([0] + [5])
  {
    t := new BinaryIndexTree(1);
    ghost var z := seq(2, _ => 0);
    assert t.Represents(z) && ZeroUpTo(z, 1);
    t.Init([5]);
    ghost var a := [0] + [5];
    assert t.Represents(a) && a[1] == 5;
    t.Init([5]);
  }

  /** The build loop before position `i`: earlier cells are final, later ones have collected the
      children passed so far. */
  ghost predicate Building(t: seq<int>, t0: seq<int>, d: seq<int>, i: nat) {
    && |t| == |t0| == |d| && 1 <= i <= |t|
    && (forall k: nat {:trigger ChildSum(t, k, k)} :: 1 <= k < i ==> t[k] == t0[k] + d[k] + ChildSum(t, k, k))
    && (forall k: nat {:trigger ChildSum(t, k, i)} :: i <= k < |t| ==> t[k] == t0[k] + ChildSum(t, k, i))
  }

  lemma Finished(t: seq<int>, t0: seq<int>, d: seq<int>)
    requires |t| >= 1 && Building(t, t0, d, |t|)
    ensures BuiltFrom(t, t0, d)
  {}

  lemma {:induction false} StepsOf(vec: seq<int>, i: nat)
    requires 1 <= i <= |vec|
    ensures Diff([0] + vec)[i] == if i == 1 then vec[i - 1] else vec[i - 1] - vec[i - 2]
    ensures Weighted(Diff([0] + vec))[i] == if i == 1 then i * vec[i - 1] else i * (vec[i - 1] - vec[i - 2])
  {}

  /** One pass of the build loop on one tree. */
  ghost function Push(t: seq<int>, i: nat, v: int): (u: seq<int>)
    requires 1 <= i < |t|
    ensures |u| == |t|
  {
    var u := t[i := t[i] + v];
    if i + Lowbit(i) < |t| then u[i + Lowbit(i) := u[i + Lowbit(i)] + u[i]] else u
  }

  lemma BuildStep(t: seq<int>, t0: seq<int>, d: seq<int>, i: nat)
    requires Building(t, t0, d, i) && i < |t|
    ensures Building(Push(t, i, d[i]), t0, d, i + 1)
  {
    var u := Push(t, i, d[i]);
    forall k: nat | 1 <= k < i + 1 ensures u[k] == t0[k] + d[k] + ChildSum(u, k, k) { ChildSumCong(t, u, k, k); }
    forall k: nat | i + 1 <= k < |u| ensures u[k] == t0[k] + ChildSum(u, k, i + 1) { ChildSumCong(t, u, k, i); }
  }
}
