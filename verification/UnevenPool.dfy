/** The buddy allocator on pools of any size.  `init_pool` halves block sizes rounding down, while
    `update_pool` doubles them on the way up, so the two agree exactly where the halving was even. */
module UnevenPool {
  import opened Powers
  import opened ImplicitTree
  import opened BuddyTree
  import opened BuddyAllocator

  /** Off the path from the root to `b` the array is the fresh one. */
  ghost predicate FreshOff(p: nat, k: nat, pool: seq<nat>, b: nat) {
    |pool| == Pow2(k) && forall i: nat :: i < Pow2(k) && !Under(i, b) ==> pool[i] == FreshPool(p, k)[i]
  }

  lemma {:induction false} SplitsLast(p: nat, l: nat)
    requires l > 0
    ensures Splits(p, l) <==> Splits(p, l - 1) && Halve(p, l - 1) % 2 == 0
  {
    if l > 1 {
      SplitsLast(p / 2, l - 1);
      HalveShift(p, l - 1);
    }
  }

  /** Off the path to `x`, the node next to a path node `b` still shows its full size. */
  lemma Sibling(p: nat, k: nat, pool: seq<nat>, x: nat, b: nat) returns (o: nat)
    requires 0 < b < Nodes(k) && Under(b, x) && FreshOff(p, k, pool, x)
    ensures var q := Parent(b); (b == 2 * q + 1 && o == 2 * q + 2) || (b == 2 * q + 2 && o == 2 * q + 1)
    ensures o < Nodes(k) && pool[o] == Size(p, b)
  {
    var q := Parent(b);
    o := if b == 2 * q + 1 then b + 1 else b - 1;
    SiblingsApart(q, x);
    LevelInTree(b, k);
    LevelInTree(o, k);
    assert Parent(o) == q;
  }

  /** The sizes of `b` and of the node above. */
  lemma SizeAbove(p: nat, b: nat)
    requires b > 0
    ensures Size(p, b) == Size(p, Parent(b)) / 2 && Level(b) == Level(Parent(b)) + 1
    ensures Splits(p, Level(b)) <==> Splits(p, Level(Parent(b))) && Size(p, Parent(b)) % 2 == 0
  {
    SplitsLast(p, Level(b));
    SizeHalve(p, Parent(b));
  }

  /** The repair restores the fresh array when all block sizes on the way up were halved evenly. */
  lemma {:induction false} RepairedEven(p: nat, k: nat, pool: seq<nat>, size: nat, b: nat)
    requires b < Nodes(k) && FreshOff(p, k, pool, b) && size == pool[b] == Size(p, b) && Splits(p, Level(b))
    ensures Repaired(pool, size, b) == FreshPool(p, k)
    decreases b
  {
    if b == 0 {
      assert pool == FreshPool(p, k);
    } else {
      assert Under(b, b);
      var o := Sibling(p, k, pool, b, b);
      SizeAbove(p, b);
      FreshUp(p, k, pool, b, 2 * size);
      RepairedStep(pool, size, b, 2 * size);
      RepairedEven(p, k, pool[Parent(b) := 2 * size], 2 * size, Parent(b));
    }
  }

  lemma FreshUp(p: nat, k: nat, pool: seq<nat>, b: nat, v: nat)
    requires 0 < b < Nodes(k) && FreshOff(p, k, pool, b) && pool[b] == Size(p, b)
    ensures FreshOff(p, k, pool[Parent(b) := v], Parent(b))
  {
    var q := Parent(b);
    assert Under(q, q);
    forall i: nat | i < Pow2(k) && !Under(i, q) ensures pool[q := v][i] == FreshPool(p, k)[i] {
      if i != b { assert !Under(i, b); }
    }
  }

  /** What the repair makes of a cell above: `size` is what the loop takes for the block size. */
  lemma CellAbove(h: nat, size: nat, v: nat, full: nat, cell: nat)
    requires h == full / 2 && size <= h && v <= h && (cell == Merge(2 * size, v, h) || cell == Merge(2 * size, h, v))
    ensures 2 * size <= full && cell <= full && (2 * size < full ==> cell < full)
    ensures size < h || full % 2 == 1 ==> 2 * size < full
  {}

  /** A path node whose cell may be wrong, in an array that is fresh off the path to `x`; `size` is what
      the loop takes for the node's size, and some size on the way up is odd or already missed. */
  ghost predicate Short(p: nat, k: nat, pool: seq<nat>, x: nat, size: nat, b: nat) {
    && x < Nodes(k) && b < Nodes(k) && Under(b, x) && FreshOff(p, k, pool, x)
    && size <= Size(p, b) && pool[b] <= Size(p, b) && (size < Size(p, b) ==> pool[b] < Size(p, b))
    && (size < Size(p, b) || !Splits(p, Level(b)))
  }

  lemma ShortStep(p: nat, k: nat, pool: seq<nat>, x: nat, size: nat, b: nat, cell: nat)
    requires b > 0 && Short(p, k, pool, x, size, b)
    requires cell == Merge(2 * size, pool[2 * Parent(b) + 1], pool[2 * Parent(b) + 2])
    ensures Short(p, k, pool[Parent(b) := cell], x, 2 * size, Parent(b))
  {
    var o := Sibling(p, k, pool, x, b);
    CellAbove(Size(p, b), size, pool[b], Size(p, Parent(b)), cell);
    SizeAbove(p, b);
    UnderTrans(Parent(b), b, x);
  }

  /** Once a size on the way up was halved with a remainder, the root falls short. */
  lemma {:induction false} RepairedShort(p: nat, k: nat, pool: seq<nat>, x: nat, size: nat, b: nat)
    requires Short(p, k, pool, x, size, b)
    ensures Repaired(pool, size, b)[0] < p
    decreases b
  {
    if b > 0 {
      var q := Parent(b);
      var cell := Merge(2 * size, pool[2 * q + 1], pool[2 * q + 2]);
      ShortStep(p, k, pool, x, size, b, cell);
      RepairedStep(pool, size, b, cell);
      RepairedShort(p, k, pool[q := cell], x, 2 * size, q);
    }
  }

  /** The array after node `b` of a fresh pool was handed out and given back. */
  ghost function Returned(p: nat, k: nat, b: nat): seq<nat>
    requires b < Nodes(k)
  {
    var taken := Repaired(FreshPool(p, k)[b := 0], Size(p, b), b);
    Repaired(taken[b := Size(p, b)], Size(p, b), b)
  }

  /** Handing out a block of a fresh pool and taking it back restores the array, and the root shows
      the whole pool again, if and only if the pool splits evenly down to the block's level. */
  lemma ReturnedIff(p: nat, k: nat, b: nat)
    requires b < Nodes(k)
    ensures Returned(p, k, b) == FreshPool(p, k) <==> Splits(p, Level(b))
    ensures Returned(p, k, b)[0] == p <==> Splits(p, Level(b))
  {
    var start, size := FreshPool(p, k), Size(p, b);
    var taken := Repaired(start[b := 0], size, b);
    assert Under(b, b);
    forall i: nat | i < Pow2(k) && !Under(i, b) ensures taken[b := size][i] == start[i] {
      RepairedOff(start[b := 0], size, b, i);
    }
    if Splits(p, Level(b)) {
      RepairedEven(p, k, taken[b := size], size, b);
    } else {
      RepairedShort(p, k, taken[b := size], b, size, b);
    }
    assert start[0] == p;
  }

  lemma {:induction false} SplitsFewer(p: nat, d: nat, e: nat)
    requires Splits(p, d) && e <= d
    ensures Splits(p, e)
  {
    if e > 0 { SplitsFewer(p / 2, d - 1, e - 1); }
  }

  /** So every block of an allocator comes back without trace exactly when all levels split evenly. */
  lemma EvenIffReturned(p: nat, k: nat)
    requires k >= 1
    ensures Even(p, k, Nodes(k)) <==> forall b: nat :: b < Nodes(k) ==> Returned(p, k, b)[0] == p
  {
    if Even(p, k, Nodes(k)) {
      forall b: nat | b < Nodes(k) ensures Returned(p, k, b)[0] == p {
        LevelInTree(b, k);
        SplitsFewer(p, k - 1, Level(b));
        ReturnedIff(p, k, b);
      }
    }
    var last := Descendant(0, k - 1, k);
    ReturnedIff(p, k, last);
  }

  /** The smallest such allocator: three bytes in two levels come back as two. */
  lemma ThreeBytes()
    ensures FreshPool(3, 2) == [3, 1, 1, 0] && Returned(3, 2, 1) == [2, 1, 1, 0]
  {
    var start := FreshPool(3, 2);
    assert Pow2(2) == 4 && Nodes(2) == 3 && Parent(1) == 0 && Parent(2) == 0;
    assert Size(3, 1) == 1 && Size(3, 2) == 1;
    assert start == [3, 1, 1, 0];
    RepairedStep(start[1 := 0], 1, 1, 1);
    assert Repaired(start[1 := 0], 1, 1) == [1, 0, 1, 0];
    RepairedStep([1, 1, 1, 0], 1, 1, 2);
    assert [1, 0, 1, 0][1 := 1] == [1, 1, 1, 0];
  }

  /** Six bytes in three levels: after one byte is handed out at node 3, the repair takes 1 + 3 for
      the whole of 4 bytes. */
  lemma SixBytes()
    ensures FreshPool(6, 3) == [6, 3, 3, 1, 1, 1, 1, 0] && MinBlock(6, 3) == 0 && Size(6, 3) == 1
    ensures Repaired(FreshPool(6, 3)[3 := 0], 1, 3) == [4, 1, 3, 0, 1, 1, 1, 0]
  {
    var start := [6, 3, 3, 1, 1, 1, 1, 0];
    assert Pow2(3) == 8 && Nodes(3) == 7;
    assert Parent(1) == 0 && Parent(2) == 0 && Parent(3) == 1 && Parent(4) == 1 && Parent(5) == 2 && Parent(6) == 2;
    assert Size(6, 1) == 3 && Size(6, 2) == 3;
    assert FreshPool(6, 3) == start;
    assert Halve(6, 1) == 3 && Halve(6, 2) == 1;
    RepairedStep(start[3 := 0], 1, 3, 1);
    assert start[3 := 0][1 := 1] == [6, 1, 3, 0, 1, 1, 1, 0];
    RepairedStep([6, 1, 3, 0, 1, 1, 1, 0], 2, 1, 4);
  }

  lemma SixSearches()
    ensures BlockFor(0, 1) == 1 && LevelFor(6, 1) == 2 && BlockFor(0, 4) == 4 && LevelFor(6, 4) == 0 && Under(0, 3)
    ensures var start := [6, 3, 3, 1, 1, 1, 1, 0];
            ChecksHold(start, 1, 2, 0) && Descent(start, 1, 2, 0, 0, 6) == (3, 0)
  {
    var start := [6, 3, 3, 1, 1, 1, 1, 0];
    assert RoundUpFrom(2, 4) == 4 && LevelFor(3, 1) == 1;
    assert Descent(start, 1, 1, 1, 0, 3) == (3, 0) && ChecksHold(start, 1, 1, 1);
    assert Parent(3) == 1 && Parent(1) == 0 && Under(0, 1);
  }

  /** So the next request, for 4 bytes, gets the whole pool on top of the live byte. */
  method Overlap() returns (a: BuddyMemoryAllocator, first: Allocation, second: Allocation)
    ensures fresh(a) && first == Address(0) && second == Address(0)
    ensures 0 in a.live && 3 in a.live && Under(0, 3)
  {
    SixBytes();
    SixSearches();
    a := new BuddyMemoryAllocator(6, 3);
    ghost var x, y;
    first, x := a.Allocate(1);
    second, y := a.Allocate(4);
  }
}
