/** The implicit full binary tree behind the buddy allocator: node `i` has children `2i + 1` and
    `2i + 2`, and stands for a block of the byte pool.  Everything here is about a pool of `p`
    bytes and a tree of `n` nodes; the cells are a function of the set of live nodes. */
module BuddyTree {
  import opened ImplicitTree
  import opened Powers

  /** The block size of node `i`. */
  function Size(p: nat, i: nat): nat { if i == 0 then p else Size(p, Parent(i)) / 2 }

  /** Where the block of node `i` starts; right children have even indices. */
  function Offset(p: nat, i: nat): nat {
    if i == 0 then 0 else Offset(p, Parent(i)) + if i % 2 == 0 then Size(p, i) else 0
  }

  ghost predicate Related(a: nat, b: nat) { Under(a, b) || Under(b, a) }

  // ---------- geometry ----------

  /** The tree has `k` levels and every block above the last level splits evenly. */
  ghost predicate Even(p: nat, k: nat, n: nat) {
    k >= 1 && n == Pow2(k) - 1 && Splits(p, k - 1)
  }

  /** `p` can be halved `d` times without remainder. */
  ghost predicate Splits(p: nat, d: nat) { d == 0 || (p % 2 == 0 && Splits(p / 2, d - 1)) }

  /** That is, `p` is a multiple of 2^d, and conversely. */
  lemma {:induction false} SplitsMultiple(p: nat, d: nat) returns (q: nat)
    requires Splits(p, d)
    ensures p == q * Pow2(d)
  {
    if d == 0 {
      q := p;
    } else {
      q := SplitsMultiple(p / 2, d - 1);
      Regroup(q, Pow2(d - 1));
    }
  }

  lemma {:induction false} MultipleSplits(q: nat, d: nat)
    ensures Splits(q * Pow2(d), d)
  {
    if d > 0 {
      MultipleSplits(q, d - 1);
      Regroup(q, Pow2(d - 1));
    }
  }

  lemma Regroup(q: nat, s: nat)
    ensures q * (2 * s) == 2 * (q * s)
  {}

  lemma {:induction false} LevelBounds(i: nat)
    ensures Pow2(Level(i)) <= i + 1 < 2 * Pow2(Level(i))
  {
    if i > 0 { LevelBounds(Parent(i)); }
  }

  lemma {:induction false} LevelInTree(i: nat, k: nat)
    requires k >= 1
    ensures i < Pow2(k) - 1 <==> Level(i) < k
  {
    LevelBounds(i);
    if Level(i) < k { Pow2Mono(Level(i) + 1, k); } else { Pow2Mono(k, Level(i)); }
  }

  function Halve(p: nat, l: nat): nat { if l == 0 then p else Halve(p, l - 1) / 2 }

  lemma {:induction false} SizeHalve(p: nat, i: nat)
    ensures Size(p, i) == Halve(p, Level(i))
  {
    if i > 0 { SizeHalve(p, Parent(i)); }
  }

  lemma {:induction false} HalveShift(p: nat, l: nat)
    requires l > 0
    ensures Halve(p, l) == Halve(p / 2, l - 1)
  {
    if l > 1 { HalveShift(p, l - 1); }
  }

  lemma {:induction false} HalveEven(p: nat, d: nat, l: nat)
    requires Splits(p, d) && l < d
    ensures Halve(p, l) % 2 == 0
  {
    if l > 0 {
      HalveShift(p, l);
      HalveEven(p / 2, d - 1, l - 1);
    }
  }

  /** A block of the tree is exactly two of its children. */
  lemma SizeDouble(p: nat, k: nat, n: nat, i: nat)
    requires Even(p, k, n) && 0 < i < n
    ensures Size(p, Parent(i)) == 2 * Size(p, i)
  {
    LevelInTree(i, k);
    SizeHalve(p, i);
    SizeHalve(p, Parent(i));
    HalveEven(p, k - 1, Level(i) - 1);
  }

  /** Blocks, addresses and levels of the two children. */
  lemma {:induction false} ChildGeometry(p: nat, k: nat, n: nat, b: nat)
    requires Even(p, k, n) && 2 * b + 1 < n
    ensures 2 * b + 2 < n && Parent(2 * b + 1) == b && Parent(2 * b + 2) == b
    ensures Level(2 * b + 1) == Level(2 * b + 2) == Level(b) + 1
    ensures Size(p, 2 * b + 1) == Size(p, 2 * b + 2) == Size(p, b) / 2 && Size(p, b) == 2 * (Size(p, b) / 2)
    ensures Offset(p, 2 * b + 1) == Offset(p, b) && Offset(p, 2 * b + 2) == Offset(p, b) + Size(p, b) / 2
  {
    var h := Pow2(k - 1);
    assert n == 2 * h - 1;
    SizeDouble(p, k, n, 2 * b + 1);
  }

  lemma {:induction false} SizePositive(p: nat, k: nat, n: nat, i: nat)
    requires Even(p, k, n) && i < n && p > 0
    ensures Size(p, i) > 0
  {
    if i > 0 {
      SizePositive(p, k, n, Parent(i));
      SizeDouble(p, k, n, i);
    }
  }

  lemma SizeMono(p: nat, i: nat, j: nat)
    requires Level(i) <= Level(j)
    ensures Size(p, j) <= Size(p, i)
  {
    SizeHalve(p, i);
    SizeHalve(p, j);
    HalveMono(p, Level(i), Level(j));
  }

  lemma {:induction false} HalveMono(p: nat, l: nat, m: nat)
    requires l <= m
    ensures Halve(p, m) <= Halve(p, l)
    decreases m
  {
    if l < m { HalveMono(p, l, m - 1); }
  }

  /** Blocks start at multiples of their size. */
  lemma {:induction false} Aligned(p: nat, k: nat, n: nat, i: nat) returns (q: nat)
    requires Even(p, k, n) && i < n
    ensures Offset(p, i) == q * Size(p, i)
  {
    q := 0;
    if i > 0 {
      var w := Aligned(p, k, n, Parent(i));
      SizeDouble(p, k, n, i);
      q := if i % 2 == 0 then 2 * w + 1 else 2 * w;
      OffsetStep(w, Size(p, i));
    }
  }

  lemma OffsetStep(w: int, s: int)
    ensures w * (2 * s) == (2 * w) * s && w * (2 * s) + s == (2 * w + 1) * s
  {}

  // ---------- subtrees ----------

  lemma {:induction false} RangeNested(p: nat, a: nat, i: nat)
    requires Under(a, i)
    ensures Offset(p, a) <= Offset(p, i) && Offset(p, i) + Size(p, i) <= Offset(p, a) + Size(p, a)
  {
    if i > a { RangeNested(p, a, Parent(i)); }
  }

  /** Unrelated nodes have disjoint blocks. */
  lemma {:induction false} RangesApart(p: nat, a: nat, b: nat)
    requires !Related(a, b)
    ensures Offset(p, a) + Size(p, a) <= Offset(p, b) || Offset(p, b) + Size(p, b) <= Offset(p, a)
    decreases a + b, a
  {
    if a > b {
      RangesApart(p, b, a);
    } else {
      UnderRoot(b);
      var q := Parent(b);
      if Related(a, q) {
        UnderChild(q, a);
        UnderChild(q, b);
        assert b == 2 * q + 2 && Under(2 * q + 1, a);
        RangeNested(p, 2 * q + 1, a);
        assert Parent(2 * q + 1) == q;
      } else {
        RangesApart(p, a, q);
        RangeNested(p, q, b);
      }
    }
  }

  // ---------- the cells as a function of the live nodes ----------

  /** The cell of node `i` when the nodes in `live` are handed out. */
  ghost function Cell(p: nat, n: nat, live: set<nat>, i: nat): nat
    decreases live, n - i
  {
    if i in live then 0
    else if 2 * i + 2 >= n then Size(p, i)
    else
      Merge(Size(p, i), Cell(p, n, live, 2 * i + 1), Cell(p, n, live, 2 * i + 2))
  }

  /** Two full children coalesce; otherwise the larger one counts. */
  function Merge(size: nat, a: nat, b: nat): nat {
    if a + b == size then size else if a > b then a else b
  }

  /** No two live nodes are related. */
  ghost predicate Antichain(live: set<nat>, n: nat) {
    && (forall a :: a in live ==> a < n)
    && (forall a, b :: a in live && b in live && Under(a, b) ==> a == b)
  }

  /** Nothing below `i` is live. */
  ghost predicate Clear(live: set<nat>, i: nat) { forall a :: a in live ==> !Under(i, a) }

  /** Neither an ancestor of `i` nor anything below it is live: its block is wholly free. */
  ghost predicate Free(live: set<nat>, i: nat) { forall a :: a in live ==> !Related(a, i) }

  lemma {:induction false} CellBound(p: nat, k: nat, n: nat, live: set<nat>, i: nat)
    requires Even(p, k, n) && i < n
    ensures Cell(p, n, live, i) <= Size(p, i)
    decreases n - i
  {
    if i !in live && 2 * i + 2 < n {
      CellBound(p, k, n, live, 2 * i + 1);
      CellBound(p, k, n, live, 2 * i + 2);
    }
  }

  /** A cell shows the full block size exactly when nothing below it is live. */
  lemma {:induction false} CellFull(p: nat, k: nat, n: nat, live: set<nat>, i: nat)
    requires Even(p, k, n) && p > 0 && i < n && (forall a :: a in live ==> a < n)
    ensures Cell(p, n, live, i) == Size(p, i) <==> Clear(live, i)
    decreases n - i
  {
    SizePositive(p, k, n, i);
    if i in live {
      assert Under(i, i);
    } else if 2 * i + 2 >= n {
      LeafAlone(k, n, i);
    } else {
      var l, r := 2 * i + 1, 2 * i + 2;
      CellFull(p, k, n, live, l);
      CellFull(p, k, n, live, r);
      CellBound(p, k, n, live, l);
      CellBound(p, k, n, live, r);
      ChildGeometry(p, k, n, i);
      MergeFull(Size(p, i), Cell(p, n, live, l), Cell(p, n, live, r));
      ClearChildren(live, i);
    }
  }

  /** Two children show the full size of their parent only when both show their own. */
  lemma MergeFull(size: nat, a: nat, b: nat)
    requires size > 0 && size % 2 == 0 && a <= size / 2 && b <= size / 2
    ensures Merge(size, a, b) == size <==> a == size / 2 && b == size / 2
  {}

  lemma {:induction false} ClearChildren(live: set<nat>, i: nat)
    requires i !in live
    ensures Clear(live, i) <==> Clear(live, 2 * i + 1) && Clear(live, 2 * i + 2)
  {
    forall a | a in live ensures Under(i, a) <==> Under(2 * i + 1, a) || Under(2 * i + 2, a) { UnderChild(i, a); }
  }

  lemma LeafAlone(k: nat, n: nat, i: nat)
    requires k >= 1 && n == Pow2(k) - 1 && 2 * i + 2 >= n
    ensures forall a: nat :: a < n && Under(i, a) ==> a == i
  {
    var h := Pow2(k - 1);
    assert n == 2 * h - 1;
    forall a: nat | a < n && Under(i, a) ensures a == i {
      UnderChild(i, a);
      if a != i {
        UnderLevel(if Under(2 * i + 1, a) then 2 * i + 1 else 2 * i + 2, a);
        OddBound(a, i, h);
      }
    }
  }

  lemma OddBound(a: nat, i: nat, h: nat)
    requires 2 * i + 2 >= 2 * h - 1
    ensures !(2 * i + 1 <= a < 2 * h - 1)
  {
  }

  /** `j` is below `i`, with no live node at, below or between. */
  ghost predicate FreeBelow(live: set<nat>, i: nat, j: nat) {
    Under(i, j) && (forall a :: a in live ==> !Under(j, a) && !(Under(a, j) && Under(i, a)))
  }

  lemma FreeBelowRoot(live: set<nat>, j: nat)
    ensures FreeBelow(live, 0, j) <==> Free(live, j)
  {
    UnderRoot(j);
    forall a | a in live ensures Under(0, a) { UnderRoot(a); }
  }

  lemma FreeBelowChild(live: set<nat>, i: nat, c: nat, j: nat)
    requires c == 2 * i + 1 || c == 2 * i + 2
    ensures i !in live && FreeBelow(live, c, j) ==> FreeBelow(live, i, j)
    ensures FreeBelow(live, i, j) && Under(c, j) ==> i !in live && FreeBelow(live, c, j)
  {
    UnderChild(i, j);
    forall a | a in live
      ensures i !in live && Under(c, j) && Under(a, j) && Under(i, a) && !Under(c, a) ==> false
      ensures Under(c, a) ==> Under(i, a)
    {
      UnderChild(i, a);
      if i !in live && Under(c, j) && Under(a, j) && Under(i, a) && !Under(c, a) {
        if c <= a { UnderBoth(c, a, j); } else { UnderBoth(a, c, j); UnderLevel(a, i); UnderLevel(i, a); }
      }
    }
    UnderLevel(i, i);
  }

  /** The meaning of a cell, one half: a cell of at least `s` has a free node of at least `s` below. */
  lemma {:induction false} CellFinds(p: nat, k: nat, n: nat, live: set<nat>, i: nat, s: nat) returns (j: nat)
    requires Even(p, k, n) && p > 0 && i < n && (forall a :: a in live ==> a < n)
    requires 1 <= s <= Cell(p, n, live, i)
    ensures j < n && FreeBelow(live, i, j) && Size(p, j) >= s
    decreases n - i
  {
    CellFull(p, k, n, live, i);
    CellBound(p, k, n, live, i);
    if Clear(live, i) {
      j := i;
    } else {
      var c := if Cell(p, n, live, 2 * i + 1) >= s then 2 * i + 1 else 2 * i + 2;
      j := CellFinds(p, k, n, live, c, s);
      FreeBelowChild(live, i, c, j);
    }
  }

  /** The other half: a free node of at least `s` below shows in the cell. */
  lemma {:induction false} CellShows(p: nat, k: nat, n: nat, live: set<nat>, i: nat, j: nat)
    requires Even(p, k, n) && p > 0 && i < n && j < n && (forall a :: a in live ==> a < n)
    requires FreeBelow(live, i, j)
    ensures Cell(p, n, live, i) >= Size(p, j)
    decreases n - i
  {
    CellFull(p, k, n, live, i);
    if j != i {
      UnderChild(i, j);
      var c := if Under(2 * i + 1, j) then 2 * i + 1 else 2 * i + 2;
      UnderLevel(c, j);
      FreeBelowChild(live, i, c, j);
      CellShows(p, k, n, live, c, j);
      CellBound(p, k, n, live, c);
      SizeDouble(p, k, n, c);
      if 2 * i + 2 >= n { LeafAlone(k, n, i); }
    }
  }

  /** A cell depends only on the live nodes below it. */
  lemma {:induction false} CellLocal(p: nat, n: nat, live: set<nat>, live': set<nat>, i: nat)
    requires forall a :: Under(i, a) ==> (a in live <==> a in live')
    ensures Cell(p, n, live, i) == Cell(p, n, live', i)
    decreases n - i
  {
    assert Under(i, i);
    if i !in live && 2 * i + 2 < n {
      forall a ensures Under(2 * i + 1, a) || Under(2 * i + 2, a) ==> Under(i, a) { UnderChild(i, a); }
      CellLocal(p, n, live, live', 2 * i + 1);
      CellLocal(p, n, live, live', 2 * i + 2);
    }
  }
}
