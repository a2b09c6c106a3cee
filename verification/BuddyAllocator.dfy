/** cpp/examples/buddy_memory_allocator.cc: the allocator over the implicit tree.  Addresses are
    offsets into the byte pool; each call is one critical section of the spin lock. */
module BuddyAllocator {
  import opened Powers
  import opened ImplicitTree
  import opened BuddyTree

  // ---------- sizes and levels ----------

  function RoundUpFrom(value: nat, size: nat): nat
    requires value >= 1
    decreases size - value
  {
    if value >= size then value else RoundUpFrom(2 * value, size)
  }

  /** The least power of two that is at least `size`. */
  lemma {:induction false} RoundUpLeast(e: nat, size: nat) returns (f: nat)
    requires e > 0 ==> Pow2(e - 1) < size
    ensures RoundUpFrom(Pow2(e), size) == Pow2(f) >= size && (f > 0 ==> Pow2(f - 1) < size)
    decreases size - Pow2(e)
  {
    f := e;
    if Pow2(e) < size { f := RoundUpLeast(e + 1, size); }
  }

  /** The block size looked for when `size` bytes are requested. */
  function BlockFor(min: nat, size: nat): nat {
    if RoundUpFrom(1, size) > min then RoundUpFrom(1, size) else min
  }

  lemma BlockForBounds(min: nat, size: nat)
    ensures BlockFor(min, size) >= size && BlockFor(min, size) >= 1
  {
    var f := RoundUpLeast(0, size);
  }

  /** `f` is the exponent of the least power of two that is at least `size`. */
  ghost predicate LeastPower(f: nat, size: nat) { Pow2(f) >= size && (f > 0 ==> Pow2(f - 1) < size) }

  /** A block of `bytes` bytes will do: it is at least the smallest block of the tree, and at least the
      least power of two that is at least the request. */
  ghost predicate Suffices(min: nat, size: nat, bytes: nat) {
    bytes >= min && exists f: nat :: LeastPower(f, size) && bytes >= Pow2(f)
  }

  lemma {:induction false} LeastPowerUnique(f: nat, g: nat, size: nat)
    requires LeastPower(f, size) && LeastPower(g, size)
    ensures f == g
  {
    if f < g { Pow2Mono(f, g - 1); }
    if g < f { Pow2Mono(g, f - 1); }
  }

  /** The block size looked for is the smallest block or the least power of two, whichever is larger;
      so a block is at least as large exactly when it will do. */
  lemma BlockForIs(min: nat, size: nat)
    ensures exists f: nat :: LeastPower(f, size) && BlockFor(min, size) == if Pow2(f) > min then Pow2(f) else min
    ensures forall bytes: nat :: Suffices(min, size, bytes) <==> bytes >= BlockFor(min, size)
  {
    var f := RoundUpLeast(0, size);
    assert LeastPower(f, size);
    forall bytes: nat ensures Suffices(min, size, bytes) <==> bytes >= BlockFor(min, size) {
      if Suffices(min, size, bytes) {
        var g: nat :| LeastPower(g, size) && bytes >= Pow2(g);
        LeastPowerUnique(f, g, size);
      }
    }
  }

  function LevelFor(p: nat, block: nat): nat
    requires block >= 1
    decreases p
  {
    if p / 2 >= block then 1 + LevelFor(p / 2, block) else 0
  }

  /** The deepest level whose blocks are still large enough. */
  lemma {:induction false} LevelForBounds(p: nat, block: nat)
    requires block >= 1
    ensures Halve(p, LevelFor(p, block) + 1) < block
    ensures p >= block ==> Halve(p, LevelFor(p, block)) >= block
  {
    if p / 2 >= block {
      LevelForBounds(p / 2, block);
      HalveShift(p, LevelFor(p, block));
      HalveShift(p, LevelFor(p, block) + 1);
    }
  }

  /** The smallest block size the source computes: the leaf size rounded down to an even number. */
  function MinBlock(p: nat, k: nat): nat { Halve(p, k) * 2 }

  /** That is, it is even, and the leaf size or one less. */
  lemma MinBlockIs(p: nat, k: nat)
    requires k >= 1
    ensures MinBlock(p, k) % 2 == 0 && MinBlock(p, k) <= Halve(p, k - 1) <= MinBlock(p, k) + 1
  {}

  /** The level computed for a request is a level of the tree. */
  lemma LevelForInTree(p: nat, k: nat, size: nat)
    requires k >= 1
    ensures BlockFor(MinBlock(p, k), size) >= 1
    ensures LevelFor(p, BlockFor(MinBlock(p, k), size)) < k
  {
    var b := BlockFor(MinBlock(p, k), size);
    BlockForBounds(MinBlock(p, k), size);
    LevelForBounds(p, b);
    var l := LevelFor(p, b);
    if l >= k {
      LevelForFits(p, b);
      HalveMono(p, k, l);
    }
  }

  lemma {:induction false} LevelForFits(p: nat, block: nat)
    requires block >= 1 && LevelFor(p, block) > 0
    ensures p >= block
  {}

  method RoundedUp(size: nat) returns (value: nat)
    ensures value == RoundUpFrom(1, size)
  {
    value := 1;
    while value < size
      invariant value >= 1 && RoundUpFrom(value, size) == RoundUpFrom(1, size)
    {
      value := value * 2;
    }
  }

  method ComputeLevel(poolSize: nat, blockSize: nat) returns (level: nat)
    requires blockSize >= 1
    ensures level == LevelFor(poolSize, blockSize)
  {
    level := 0;
    var p: nat := poolSize;
    while p / 2 >= blockSize
      invariant level + LevelFor(p, blockSize) == LevelFor(poolSize, blockSize)
      decreases p
    {
      level := level + 1;
      p := p / 2;
    }
  }

  lemma {:induction false} LevelUnique(i: nat, l: nat)
    requires Pow2(l) <= i + 1 < 2 * Pow2(l)
    ensures Level(i) == l
  {
    if i > 0 { LevelUnique(Parent(i), l - 1); }
  }

  method ComputeBlockSize(poolSize: nat, blockIdx: nat) returns (blockSize: nat)
    ensures blockSize == Size(poolSize, blockIdx)
  {
    blockSize := poolSize;
    var tmp, count := 0, 1;
    ghost var l := 0;
    tmp := tmp + count;
    while tmp <= blockIdx
      invariant count == Pow2(l) && tmp == 2 * count - 1 && blockSize == Halve(poolSize, l)
      invariant count <= blockIdx + 1
      decreases blockIdx - tmp
    {
      count := count * 2;
      blockSize := blockSize / 2;
      l := l + 1;
      tmp := tmp + count;
    }
    LevelUnique(blockIdx, l);
    SizeHalve(poolSize, blockIdx);
  }

  // ---------- the array as a function of the live blocks ----------

  ghost function Nodes(k: nat): nat { Pow2(k) - 1 }

  ghost function PoolOf(p: nat, k: nat, live: set<nat>): seq<nat> {
    seq(Pow2(k), i requires 0 <= i < Pow2(k) => if i < Nodes(k) then Cell(p, Nodes(k), live, i) else 0)
  }

  lemma {:induction false} CellEmpty(p: nat, k: nat, n: nat, i: nat)
    requires Even(p, k, n) && i < n
    ensures Cell(p, n, {}, i) == Size(p, i)
    decreases n - i
  {
    if 2 * i + 2 < n {
      CellEmpty(p, k, n, 2 * i + 1);
      CellEmpty(p, k, n, 2 * i + 2);
      ChildGeometry(p, k, n, i);
    }
  }

  /** The array `init_pool` fills: every cell shows its full block size. */
  ghost function FreshPool(p: nat, k: nat): seq<nat> {
    seq(Pow2(k), i requires 0 <= i < Pow2(k) => if i < Nodes(k) then Size(p, i) else 0)
  }

  /** With nothing live the array is the fresh one: the pool is fully coalesced. */
  lemma Coalesced(p: nat, k: nat)
    requires Even(p, k, Nodes(k))
    ensures PoolOf(p, k, {}) == FreshPool(p, k)
  {
    forall i: nat | i < Nodes(k) ensures PoolOf(p, k, {})[i] == Size(p, i) { CellEmpty(p, k, Nodes(k), i); }
  }

  /** Live blocks are pairwise disjoint and inside the pool. */
  lemma LiveApart(p: nat, n: nat, live: set<nat>, a: nat, b: nat)
    requires Antichain(live, n) && a in live && b in live && a != b
    ensures Offset(p, a) + Size(p, a) <= Offset(p, b) || Offset(p, b) + Size(p, b) <= Offset(p, a)
    ensures Offset(p, a) + Size(p, a) <= p
  {
    RangesApart(p, a, b);
    UnderRoot(a);
    RangeNested(p, 0, a);
  }

  /** Some wholly free block is large enough. */
  ghost predicate Fits(p: nat, n: nat, live: set<nat>, block: nat) {
    exists j: nat :: j < n && Free(live, j) && Size(p, j) >= block
  }

  /** `x` is the lowest-addressed wholly free block of the level computed for the request. */
  ghost predicate Chosen(p: nat, n: nat, live: set<nat>, block: nat, x: nat) {
    && block >= 1 && x < n && Free(live, x) && Size(p, x) >= block && Level(x) == LevelFor(p, block)
    && forall j: nat {:trigger Free(live, j)} :: j < n && Free(live, j) && Level(j) == Level(x) ==>
        Offset(p, x) <= Offset(p, j)
  }

  lemma FitsRoot(p: nat, k: nat, n: nat, live: set<nat>, block: nat)
    requires Even(p, k, n) && Antichain(live, n) && block >= 1
    ensures Cell(p, n, live, 0) >= block <==> Fits(p, n, live, block)
  {
    CellBound(p, k, n, live, 0);
    if Cell(p, n, live, 0) >= block {
      var j := CellFinds(p, k, n, live, 0, block);
      FreeBelowRoot(live, j);
    }
    if j: nat :| j < n && Free(live, j) && Size(p, j) >= block {
      FreeBelowRoot(live, j);
      SizeMono(p, 0, j);
      CellShows(p, k, n, live, 0, j);
    }
  }

  /** A request that fits the pool at all succeeds exactly when a block of its own level is free;
      one whose rounded size exceeds the pool never does. */
  lemma FitsAtLevel(p: nat, k: nat, n: nat, live: set<nat>, block: nat)
    requires Even(p, k, n) && Antichain(live, n) && block >= 1 && LevelFor(p, block) < k
    ensures Fits(p, n, live, block) <==>
              p >= block && exists j: nat :: j < n && Free(live, j) && Level(j) == LevelFor(p, block)
  {
    LevelForBounds(p, block);
    if j: nat :| j < n && Free(live, j) && Size(p, j) >= block {
      SizeMono(p, 0, j);
      SizeHalve(p, j);
      var l := LevelFor(p, block);
      if Level(j) > l { HalveMono(p, l + 1, Level(j)); }
      var d := Descendant(j, l, k);
      forall a | a in live ensures !Related(a, d) {
        if Under(a, d) { if a <= j { UnderBoth(a, j, d); } else { UnderBoth(j, a, d); } }
        if Under(d, a) { UnderTrans(j, d, a); }
      }
    }
    if p >= block {
      forall j: nat | Level(j) == LevelFor(p, block) ensures Size(p, j) >= block { SizeHalve(p, j); }
    }
  }

  lemma {:induction false} Descendant(i: nat, l: nat, k: nat) returns (d: nat)
    requires Level(i) <= l < k
    ensures Under(i, d) && Level(d) == l && d < Nodes(k)
    decreases l - Level(i)
  {
    if Level(i) == l {
      d := i;
      LevelInTree(i, k);
    } else {
      assert Parent(2 * i + 1) == i;
      d := Descendant(2 * i + 1, l, k);
      UnderTrans(i, 2 * i + 1, d);
    }
  }

  // ---------- descending to a block ----------

  /** The left-first search stands at `b`: no live block above, a large enough block below, and
      every free block of the target level is below or further right. */
  ghost predicate Searching(p: nat, n: nat, live: set<nat>, block: nat, level: nat, b: nat) {
    && b < n && Level(b) <= level && Cell(p, n, live, b) >= block
    && (forall a :: a in live && Under(a, b) ==> a == b)
    && (forall j: nat {:trigger Free(live, j)} :: j < n && Free(live, j) && Level(j) == level ==>
        Under(b, j) || Offset(p, b) + Size(p, b) <= Offset(p, j))
  }

  lemma SearchStart(p: nat, n: nat, live: set<nat>, block: nat, level: nat)
    requires n > 0 && Cell(p, n, live, 0) >= block
    ensures Searching(p, n, live, block, level, 0)
  {
    forall j: nat ensures Under(0, j) { UnderRoot(j); }
  }

  /** If the left child does not offer a large enough block, the right one does. */
  lemma SearchChildren(p: nat, k: nat, n: nat, live: set<nat>, block: nat, level: nat, b: nat)
    requires Even(p, k, n) && Antichain(live, n) && block >= 1 && Halve(p, level) >= block && level < k
    requires Searching(p, n, live, block, level, b) && Level(b) < level
    ensures b !in live && 2 * b + 2 < n && Level(2 * b + 1) == Level(2 * b + 2) == Level(b) + 1
    ensures Cell(p, n, live, 2 * b + 1) >= block || Cell(p, n, live, 2 * b + 2) >= block
  {
    var l, r := 2 * b + 1, 2 * b + 2;
    assert Parent(l) == b;
    LevelInTree(l, k);
    ChildGeometry(p, k, n, b);
    SizeHalve(p, l);
    HalveMono(p, Level(l), level);
    CellBound(p, k, n, live, l);
    CellBound(p, k, n, live, r);
  }

  lemma SearchLeft(p: nat, k: nat, n: nat, live: set<nat>, block: nat, level: nat, b: nat)
    requires Even(p, k, n) && Antichain(live, n) && b !in live && 2 * b + 2 < n
    requires Searching(p, n, live, block, level, b) && Level(b) < level
    requires Cell(p, n, live, 2 * b + 1) >= block
    ensures Searching(p, n, live, block, level, 2 * b + 1)
    ensures Offset(p, 2 * b + 1) == Offset(p, b)
  {
    var l, r := 2 * b + 1, 2 * b + 2;
    ChildGeometry(p, k, n, b);
    forall j: nat | j < n && Free(live, j) && Level(j) == level
      ensures Under(l, j) || Offset(p, l) + Size(p, l) <= Offset(p, j)
    {
      UnderChild(b, j);
      if Under(r, j) { RangeNested(p, r, j); }
    }
  }

  lemma NothingLeft(p: nat, k: nat, n: nat, live: set<nat>, block: nat, l: nat, j: nat)
    requires Even(p, k, n) && p > 0 && Antichain(live, n) && l < n && j < n
    requires Cell(p, n, live, l) < block <= Halve(p, Level(j))
    ensures !(Free(live, j) && Under(l, j))
  {
    if Free(live, j) && Under(l, j) {
      SizeHalve(p, j);
      CellShows(p, k, n, live, l, j);
    }
  }

  lemma SearchRight(p: nat, k: nat, n: nat, live: set<nat>, block: nat, level: nat, b: nat)
    requires Even(p, k, n) && p > 0 && Antichain(live, n) && b !in live && 2 * b + 2 < n
    requires Searching(p, n, live, block, level, b) && Level(b) < level && Halve(p, level) >= block
    requires Cell(p, n, live, 2 * b + 1) < block && Cell(p, n, live, 2 * b + 2) >= block
    ensures Searching(p, n, live, block, level, 2 * b + 2)
    ensures Offset(p, 2 * b + 2) == Offset(p, b) + Size(p, b) / 2
  {
    var l, r := 2 * b + 1, 2 * b + 2;
    ChildGeometry(p, k, n, b);
    forall j: nat | j < n && Free(live, j) && Level(j) == level
      ensures Under(r, j) || Offset(p, r) + Size(p, r) <= Offset(p, j)
    {
      UnderChild(b, j);
      if Under(l, j) { NothingLeft(p, k, n, live, block, l, j); }
    }
  }

  /** The left-first descent over the raw array: `steps` levels down from `b`. */
  function Descent(pool: seq<nat>, block: nat, steps: nat, b: nat, addr: nat, size: nat): (nat, nat) {
    if steps == 0 || 2 * b + 2 >= |pool| then (b, addr)
    else if pool[2 * b + 1] >= block then Descent(pool, block, steps - 1, 2 * b + 1, addr, size / 2)
    else Descent(pool, block, steps - 1, 2 * b + 2, addr + size / 2, size / 2)
  }

  /** Every step of the descent stays in the array, and the test the source makes with CHECK_GE
      before a right turn succeeds. */
  predicate ChecksHold(pool: seq<nat>, block: nat, steps: nat, b: nat) {
    steps > 0 ==>
      && 2 * b + 2 < |pool| && (pool[2 * b + 1] >= block || pool[2 * b + 2] >= block)
      && ChecksHold(pool, block, steps - 1, if pool[2 * b + 1] >= block then 2 * b + 1 else 2 * b + 2)
  }

  /** The children of a node, whatever the pool size. */
  lemma {:induction false} ChildPlace(p: nat, b: nat, c: nat)
    requires c == 2 * b + 1 || c == 2 * b + 2
    ensures c > 0 && Parent(c) == b && Under(b, c) && Level(c) == Level(b) + 1 && Size(p, c) == Size(p, b) / 2
    ensures Offset(p, c) == Offset(p, b) + if c == 2 * b + 1 then 0 else Size(p, b) / 2
  {
    ParentOf(b, c);
    LevelBelow(c);
    PlaceBelow(p, c);
    assert Under(b, b);
  }

  lemma {:induction false} ParentOf(b: nat, c: nat)
    requires c == 2 * b + 1 || c == 2 * b + 2
    ensures c > 0 && Parent(c) == b && (c % 2 == 0 <==> c == 2 * b + 2)
  {}

  lemma {:induction false} LevelBelow(c: nat)
    requires c > 0
    ensures Level(c) == Level(Parent(c)) + 1
  {}

  lemma {:induction false} PlaceBelow(p: nat, c: nat)
    requires c > 0
    ensures Size(p, c) == Size(p, Parent(c)) / 2
    ensures Offset(p, c) == Offset(p, Parent(c)) + if c % 2 == 0 then Size(p, c) else 0
  {}

  /** Whatever the array holds, the descent ends the right number of levels down, with the address of
      the node it reaches. */
  lemma {:induction false} DescentPlace(p: nat, pool: seq<nat>, block: nat, steps: nat, b: nat)
    requires ChecksHold(pool, block, steps, b)
    ensures var (x, a) := Descent(pool, block, steps, b, Offset(p, b), Size(p, b));
            a == Offset(p, x) && Level(x) == Level(b) + steps && Under(b, x)
    decreases steps
  {
    if steps > 0 {
      var c := if pool[2 * b + 1] >= block then 2 * b + 1 else 2 * b + 2;
      ChildPlace(p, b, c);
      DescentPlace(p, pool, block, steps - 1, c);
      UnderTrans(b, c, Descent(pool, block, steps - 1, c, Offset(p, c), Size(p, c)).0);
    }
  }

  /** The descent of `deallocate` by address: `steps` levels down from node `b` at `offset`. */
  function Locate(addr: nat, steps: nat, b: nat, size: nat, offset: nat): (nat, nat) {
    if steps == 0 then (b, size)
    else if addr < offset + size / 2 then Locate(addr, steps - 1, 2 * b + 1, size / 2, offset)
    else Locate(addr, steps - 1, 2 * b + 2, size / 2, offset + size / 2)
  }

  /** It ends the right number of levels down, with the size of the node it reaches. */
  lemma {:induction false} LocatePlace(p: nat, addr: nat, steps: nat, b: nat)
    ensures var (x, size) := Locate(addr, steps, b, Size(p, b), Offset(p, b));
            size == Size(p, x) && Level(x) == Level(b) + steps
    decreases steps
  {
    if steps > 0 {
      var c := if addr < Offset(p, b) + Size(p, b) / 2 then 2 * b + 1 else 2 * b + 2;
      ChildPlace(p, b, c);
      LocatePlace(p, addr, steps - 1, c);
    }
  }

  /** For every pool size: the address and level of a node that is not empty lead to that node. */
  lemma {:induction false} LocateFinds(p: nat, x: nat, steps: nat, b: nat)
    requires Under(b, x) && Level(x) == Level(b) + steps && (steps > 0 ==> Size(p, x) > 0)
    ensures Locate(Offset(p, x), steps, b, Size(p, b), Offset(p, b)) == (x, Size(p, x))
    decreases steps
  {
    UnderLevel(b, x);
    if steps > 0 {
      UnderChild(b, x);
      var c := if Under(2 * b + 1, x) then 2 * b + 1 else 2 * b + 2;
      ChildPlace(p, b, c);
      RangeNested(p, c, x);
      LocateFinds(p, x, steps - 1, c);
    }
  }

  /** One step of the search, whichever way it goes. */
  lemma SearchStep(p: nat, k: nat, live: set<nat>, pool: seq<nat>, block: nat, level: nat, b: nat) returns (c: nat)
    requires Even(p, k, Nodes(k)) && p > 0 && Antichain(live, Nodes(k)) && pool == PoolOf(p, k, live)
    requires block >= 1 && Halve(p, level) >= block && level < k
    requires Searching(p, Nodes(k), live, block, level, b) && Level(b) < level
    ensures 2 * b + 2 < |pool| && c == (if pool[2 * b + 1] >= block then 2 * b + 1 else 2 * b + 2) && pool[c] >= block
    ensures Searching(p, Nodes(k), live, block, level, c) && Level(c) == Level(b) + 1 && Size(p, c) == Size(p, b) / 2
    ensures Offset(p, c) == Offset(p, b) + if c == 2 * b + 1 then 0 else Size(p, b) / 2
  {
    SearchChildren(p, k, Nodes(k), live, block, level, b);
    ChildGeometry(p, k, Nodes(k), b);
    if pool[2 * b + 1] >= block {
      c := 2 * b + 1;
      SearchLeft(p, k, Nodes(k), live, block, level, b);
    } else {
      c := 2 * b + 2;
      SearchRight(p, k, Nodes(k), live, block, level, b);
    }
  }

  /** Once the root test has passed, the descent runs to the target level without a failing check. */
  lemma {:induction false} DescentReaches(p: nat, k: nat, live: set<nat>, pool: seq<nat>, block: nat, level: nat,
        steps: nat, b: nat) returns (x: nat)
    requires Even(p, k, Nodes(k)) && p > 0 && Antichain(live, Nodes(k)) && pool == PoolOf(p, k, live)
    requires block >= 1 && Halve(p, level) >= block && level < k
    requires Searching(p, Nodes(k), live, block, level, b) && steps == level - Level(b)
    ensures ChecksHold(pool, block, steps, b)
    ensures Descent(pool, block, steps, b, Offset(p, b), Size(p, b)) == (x, Offset(p, x))
    ensures Searching(p, Nodes(k), live, block, level, x) && Level(x) == level
    decreases steps
  {
    if steps == 0 {
      x := b;
    } else {
      var c := SearchStep(p, k, live, pool, block, level, b);
      x := DescentReaches(p, k, live, pool, block, level, steps - 1, c);
      DescentStep(pool, block, steps, b, Offset(p, b), Size(p, b), c, Offset(p, c), Size(p, c));
    }
  }

  lemma {:induction false} DescentStep(pool: seq<nat>, block: nat, steps: nat, b: nat, addr: nat, size: nat, c: nat,
        addr': nat, size': nat)
    requires steps > 0 && 2 * b + 2 < |pool|
    requires c == (if pool[2 * b + 1] >= block then 2 * b + 1 else 2 * b + 2) && pool[c] >= block
    requires size' == size / 2 && addr' == addr + if c == 2 * b + 1 then 0 else size / 2
    ensures Descent(pool, block, steps, b, addr, size) == Descent(pool, block, steps - 1, c, addr', size')
    ensures ChecksHold(pool, block, steps, b) <==> ChecksHold(pool, block, steps - 1, c)
  {}

  /** At the target level the block found is wholly free and has the lowest address. */
  lemma CellLarge(p: nat, k: nat, n: nat, live: set<nat>, block: nat, b: nat)
    requires Even(p, k, n) && p > 0 && Antichain(live, n) && b < n
    requires block >= 1 && Size(p, b) / 2 < block <= Cell(p, n, live, b)
    ensures Clear(live, b)
  {
    CellFull(p, k, n, live, b);
    CellBound(p, k, n, live, b);
    if 2 * b + 2 < n {
      var l, r := 2 * b + 1, 2 * b + 2;
      assert Parent(l) == b && Parent(r) == b;
      CellBound(p, k, n, live, l);
      CellBound(p, k, n, live, r);
    }
  }

  lemma SearchEnd(p: nat, k: nat, n: nat, live: set<nat>, block: nat, b: nat)
    requires Even(p, k, n) && p > 0 && Antichain(live, n) && block >= 1 && LevelFor(p, block) < k
    requires Searching(p, n, live, block, LevelFor(p, block), b) && Level(b) == LevelFor(p, block)
    ensures Chosen(p, n, live, block, b)
  {
    LevelForBounds(p, block);
    SizeHalve(p, b);
    SizeMono(p, 0, b);
    CellBound(p, k, n, live, b);
    CellLarge(p, k, n, live, block, b);
    assert Under(b, b);
    forall j: nat | j < n && Free(live, j) && Level(j) == Level(b) ensures Offset(p, b) <= Offset(p, j) {
      if Under(b, j) { UnderLevel(b, j); }
    }
  }

  lemma SearchFinds(p: nat, k: nat, live: set<nat>, pool: seq<nat>, block: nat) returns (x: nat)
    requires Even(p, k, Nodes(k)) && Antichain(live, Nodes(k)) && pool == PoolOf(p, k, live)
    requires 1 <= block <= pool[0] && LevelFor(p, block) < k
    ensures p > 0 && ChecksHold(pool, block, LevelFor(p, block), 0)
    ensures Descent(pool, block, LevelFor(p, block), 0, 0, p) == (x, Offset(p, x))
    ensures Chosen(p, Nodes(k), live, block, x)
  {
    CellBound(p, k, Nodes(k), live, 0);
    LevelForBounds(p, block);
    var level, root := LevelFor(p, block), 0;
    SearchStart(p, Nodes(k), live, block, level);
    x := DescentReaches(p, k, live, pool, block, level, level, root);
    assert Offset(p, root) == 0 && Size(p, root) == p;
    SearchEnd(p, k, Nodes(k), live, block, x);
  }

  // ---------- repairing the path to the root ----------

  /** Every cell is right, except perhaps those of the proper ancestors of `b`. */
  ghost predicate RightExceptAbove(p: nat, k: nat, live: set<nat>, pool: seq<nat>, b: nat) {
    && |pool| == Pow2(k) && pool[Nodes(k)] == 0
    && forall i: nat :: i < Nodes(k) && !(Under(i, b) && i != b) ==> pool[i] == Cell(p, Nodes(k), live, i)
  }

  /** Changing which of `x` itself is live disturbs only the cells above `x`. */
  lemma OnlyAbove(p: nat, k: nat, live: set<nat>, live': set<nat>, pool: seq<nat>, x: nat, v: nat)
    requires pool == PoolOf(p, k, live) && x < Nodes(k)
    requires forall a :: a != x ==> (a in live <==> a in live')
    requires v == Cell(p, Nodes(k), live', x)
    ensures RightExceptAbove(p, k, live', pool[x := v], x)
  {
    forall i: nat | i < Nodes(k) && !Under(i, x)
      ensures Cell(p, Nodes(k), live, i) == Cell(p, Nodes(k), live', i)
    {
      CellLocal(p, Nodes(k), live, live', i);
    }
  }

  lemma StepUp(p: nat, k: nat, live: set<nat>, pool: seq<nat>, block: nat, b: nat)
    requires Even(p, k, Nodes(k)) && 0 < b < Nodes(k) && Under(b, block)
    requires forall a :: a in live && Under(a, block) ==> a == block
    requires RightExceptAbove(p, k, live, pool, b)
    ensures 2 * Parent(b) + 2 < Nodes(k) && Size(p, Parent(b)) == 2 * Size(p, b) && Under(Parent(b), block)
    ensures RightExceptAbove(p, k, live,
              pool[Parent(b) := Merge(2 * Size(p, b), pool[2 * Parent(b) + 1], pool[2 * Parent(b) + 2])], Parent(b))
  {
    var q := Parent(b);
    UnderTrans(q, b, block);
    UnderLevel(b, block);
    ChildGeometry(p, k, Nodes(k), q);
    NewlyRight(p, k, live, pool, b);
  }

  lemma NewlyRight(p: nat, k: nat, live: set<nat>, pool: seq<nat>, b: nat)
    requires 0 < b < Nodes(k) && RightExceptAbove(p, k, live, pool, b)
    requires 2 * Parent(b) + 2 < Nodes(k) && Parent(b) !in live
    ensures pool[2 * Parent(b) + 1] == Cell(p, Nodes(k), live, 2 * Parent(b) + 1)
    ensures pool[2 * Parent(b) + 2] == Cell(p, Nodes(k), live, 2 * Parent(b) + 2)
    ensures RightExceptAbove(p, k, live, pool[Parent(b) := Cell(p, Nodes(k), live, Parent(b))], Parent(b))
  {
    var q := Parent(b);
    assert !(Under(2 * q + 1, b) && 2 * q + 1 != b) by { UnderChild(q, b); if b == 2 * q + 2 { SiblingsApart(q, b); } }
  }

  lemma NothingAboveRoot(p: nat, k: nat, live: set<nat>, pool: seq<nat>)
    requires RightExceptAbove(p, k, live, pool, 0)
    ensures pool == PoolOf(p, k, live)
  {}

  /** `update_pool` on values: the path from node `b`, of block size `size`, to the root. */
  ghost function Repaired(pool: seq<nat>, size: nat, b: nat): (r: seq<nat>)
    requires b + 1 < |pool|
    ensures |r| == |pool|
    decreases |pool|, b
  {
    if b == 0 then pool
    else
      var q := Parent(b);
      Repaired(pool[q := Merge(2 * size, pool[2 * q + 1], pool[2 * q + 2])], 2 * size, q)
  }

  lemma RepairedStep(pool: seq<nat>, size: nat, b: nat, cell: nat)
    requires 0 < b && b + 1 < |pool| && cell == Merge(2 * size, pool[2 * Parent(b) + 1], pool[2 * Parent(b) + 2])
    ensures Repaired(pool, size, b) == Repaired(pool[Parent(b) := cell], 2 * size, Parent(b))
  {}

  /** The repair changes only cells above its node. */
  lemma {:induction false} RepairedOff(pool: seq<nat>, size: nat, b: nat, i: nat)
    requires b + 1 < |pool| && i < |pool| && (i == b || !Under(i, b))
    ensures Repaired(pool, size, b)[i] == pool[i]
    decreases b
  {
    if b > 0 {
      var q := Parent(b);
      if i == b { UnderAbove(b, q); }
      RepairedOff(pool[q := Merge(2 * size, pool[2 * q + 1], pool[2 * q + 2])], 2 * size, q, i);
    }
  }

  lemma UnderAbove(b: nat, q: nat)
    requires q < b
    ensures !Under(b, q)
  {}

  /** The arrays agree except perhaps above `b`. */
  ghost predicate SameOff(pool: seq<nat>, other: seq<nat>, b: nat) {
    |pool| == |other| && forall i: nat {:trigger Under(i, b)} :: i < |pool| && (i == b || !Under(i, b)) ==>
        pool[i] == other[i]
  }

  /** What was above its node before plays no part in the repair. */
  lemma {:induction false} RepairedBlind(pool: seq<nat>, other: seq<nat>, size: nat, b: nat)
    requires b + 1 < |pool| && SameOff(pool, other, b)
    ensures Repaired(pool, size, b) == Repaired(other, size, b)
    decreases b
  {
    if b > 0 {
      var q := Parent(b);
      var v := Merge(2 * size, pool[2 * q + 1], pool[2 * q + 2]);
      BlindStep(pool, other, b, v);
      RepairedStep(pool, size, b, v);
      RepairedStep(other, size, b, v);
      RepairedBlind(pool[q := v], other[q := v], 2 * size, q);
    } else {
      forall i: nat | i < |pool| ensures pool[i] == other[i] {
        if i > 0 { UnderAbove(i, b); } else { assert Under(b, b); }
      }
    }
  }

  lemma BlindStep(pool: seq<nat>, other: seq<nat>, b: nat, v: nat)
    requires 0 < b && b + 1 < |pool| && SameOff(pool, other, b)
    ensures var q := Parent(b);
            && pool[2 * q + 1] == other[2 * q + 1] && pool[2 * q + 2] == other[2 * q + 2]
            && SameOff(pool[q := v], other[q := v], q)
  {
    var q := Parent(b);
    SiblingsApart(q, b);
    assert Under(b, b);
    assert Under(2 * q + 1, b) || !Under(2 * q + 1, b);
    assert Under(2 * q + 2, b) || !Under(2 * q + 2, b);
    forall i: nat | i < |pool| && (i == q || !Under(i, q)) ensures pool[q := v][i] == other[q := v][i] {
      assert i == b || i == q || (Under(i, b) <==> Under(i, q));
    }
  }

  /** For every array: marking a node and giving it back restores the array if and only if its cell
      showed its size and the cells above were already as the repair leaves them. */
  lemma RestoredIff(pool: seq<nat>, size: nat, b: nat)
    requires b + 1 < |pool|
    ensures Repaired(Repaired(pool[b := 0], size, b)[b := size], size, b) == pool
       <==> pool[b] == size && Repaired(pool, size, b) == pool
  {
    var taken := Repaired(pool[b := 0], size, b);
    forall i: nat | i < |pool| && (i == b || !Under(i, b)) ensures taken[b := size][i] == pool[b := size][i] {
      RepairedOff(pool[b := 0], size, b, i);
    }
    RepairedBlind(taken[b := size], pool[b := size], size, b);
    RepairedOff(pool[b := size], size, b, b);
    if pool[b] == size { assert pool[b := size] == pool; }
  }

  /** Whatever changed at `block`, the repair makes the array the function of the live blocks. */
  lemma {:induction false} RepairedRight(p: nat, k: nat, live: set<nat>, pool: seq<nat>, block: nat, b: nat)
    requires Even(p, k, Nodes(k)) && b < Nodes(k) && Under(b, block) && RightExceptAbove(p, k, live, pool, b)
    requires forall a :: a in live && Under(a, block) ==> a == block
    ensures Repaired(pool, Size(p, b), b) == PoolOf(p, k, live)
    decreases b
  {
    if b == 0 {
      NothingAboveRoot(p, k, live, pool);
    } else {
      var q := Parent(b);
      StepUp(p, k, live, pool, block, b);
      RepairedRight(p, k, live, pool[q := Merge(2 * Size(p, b), pool[2 * q + 1], pool[2 * q + 2])], block, q);
    }
  }

  /** The search lambda of `allocate`; it fails where a CHECK_GE of the source does. */
  method SearchSuitableBlock(poolSize: nat, pool: seq<nat>, level: nat, size: nat) returns (ok: bool, blockIdx: nat,
        addr: nat)
    requires |pool| >= Pow2(level + 1)
    ensures ok <==> ChecksHold(pool, size, level, 0)
    ensures ok ==> (blockIdx, addr) == Descent(pool, size, level, 0, 0, poolSize) && blockIdx + 1 < |pool|
  {
    addr, blockIdx := 0, 0;
    var blockSize: nat, cur: nat := poolSize, 0;
    while cur < level
      invariant cur <= level && blockIdx + 2 <= Pow2(cur + 1) <= |pool|
      invariant ChecksHold(pool, size, level - cur, blockIdx) <==> ChecksHold(pool, size, level, 0)
      invariant Descent(pool, size, level - cur, blockIdx, addr, blockSize) ==
                Descent(pool, size, level, 0, 0, poolSize)
    {
      Pow2Mono(cur + 2, level + 1);
      cur := cur + 1;
      var childSize := blockSize / 2;
      var leftIdx := 2 * blockIdx + 1;
      if pool[leftIdx] >= size {
        blockIdx := leftIdx;
      } else {
        var rightIdx := leftIdx + 1;
        if pool[rightIdx] < size {
          return false, rightIdx, addr;
        }
        blockIdx := rightIdx;
        addr := addr + childSize;
      }
      blockSize := childSize;
    }
    ok := true;
  }

  /** A null pointer, a block, or a failed CHECK_GE, which ends the program. */
  datatype Allocation = Null | Address(addr: nat) | CheckFailed

  class BuddyMemoryAllocator {
    const poolSize: nat
    const numOrder: nat
    var minBlockSize: nat
    var pool: seq<nat>
    ghost var live: set<nat>

    ghost predicate Valid()
      reads this
    {
      && Even(poolSize, numOrder, Nodes(numOrder))
      && minBlockSize == MinBlock(poolSize, numOrder)
      && Antichain(live, Nodes(numOrder)) && (poolSize == 0 ==> live == {})
      && pool == PoolOf(poolSize, numOrder, live)
    }

    /** What holds of the array whatever the pool size. */
    ghost predicate Shape()
      reads this
    {
      numOrder >= 1 && |pool| == Pow2(numOrder) && minBlockSize == MinBlock(poolSize, numOrder)
    }

    ghost function Block(size: nat): nat
      reads this
    {
      BlockFor(minBlockSize, size)
    }

    /** For every pool size and every number of levels the array is the fresh one; where the blocks
        split evenly, that is the array of no live block. */
    constructor (pool_size: nat, num_order: nat)
      ensures poolSize == pool_size && numOrder == num_order && live == {}
      ensures pool == FreshPool(pool_size, num_order) && minBlockSize == MinBlock(pool_size, num_order)
      ensures Even(pool_size, num_order, Nodes(num_order)) ==> Valid()
    {
      poolSize := pool_size;
      numOrder := num_order;
      pool := [];
      minBlockSize := 0;
      live := {};
      new;
      InitPool();
      if Even(poolSize, numOrder, Nodes(numOrder)) { Coalesced(poolSize, numOrder); }
    }

    method InitPool()
      modifies this`pool, this`minBlockSize
      ensures pool == FreshPool(poolSize, numOrder) && minBlockSize == MinBlock(poolSize, numOrder)
    {
      pool := seq(Pow2(numOrder), _ => 0);
      var cursor: nat, size: nat := 0, poolSize;
      for order := 0 to numOrder
        invariant |pool| == Pow2(numOrder) && cursor == Pow2(order) - 1 <= |pool| && size == Halve(poolSize, order)
        invariant forall i: nat :: i < cursor ==> pool[i] == Size(poolSize, i)
        invariant forall i :: cursor <= i < |pool| ==> pool[i] == 0
      {
        var count := Pow2(order);
        Pow2Mono(order + 1, numOrder);
        assert Pow2(order + 1) == 2 * Pow2(order);
        while count > 0
          invariant 0 <= count && cursor + count == 2 * Pow2(order) - 1 && |pool| == Pow2(numOrder)
          invariant Pow2(order) - 1 <= cursor <= |pool|
          invariant forall i: nat :: i < cursor ==> pool[i] == Size(poolSize, i)
          invariant forall i :: cursor <= i < |pool| ==> pool[i] == 0
        {
          count := count - 1;
          LevelUnique(cursor, order);
          SizeHalve(poolSize, cursor);
          pool := pool[cursor := size];
          cursor := cursor + 1;
        }
        size := size / 2;
      }
      minBlockSize := size * 2;
    }

    /** The path from `block` to the root, recomputed from the bottom up. */
    method UpdatePool(block: nat)
      requires block + 1 < |pool|
      modifies this`pool
      ensures pool == Repaired(old(pool), Size(poolSize, block), block)
    {
      var blockIdx: nat := block;
      var blockSize := ComputeBlockSize(poolSize, blockIdx);
      while blockIdx != 0
        invariant blockIdx + 1 < |pool|
        invariant Repaired(pool, blockSize, blockIdx) == Repaired(old(pool), Size(poolSize, block), block)
        decreases blockIdx
      {
        var parentIdx := (blockIdx - 1) / 2;
        var parentSize := blockSize * 2;
        var left, right := pool[parentIdx * 2 + 1], pool[parentIdx * 2 + 2];
        RepairedStep(pool, blockSize, blockIdx, Merge(parentSize, left, right));
        if left + right == parentSize {
          pool := pool[parentIdx := parentSize];
        } else {
          pool := pool[parentIdx := if left > right then left else right];
        }
        blockIdx := parentIdx;
        blockSize := parentSize;
      }
    }

    /** `allocate` on every pool: the root test and the descent decide, and the path is repaired. */
    method Take(size: nat) returns (r: Allocation, ghost x: nat)
      requires Shape()
      modifies this`pool, this`live
      ensures Shape() && Block(size) >= 1
      ensures r.Null? <==> old(pool)[0] < Block(size)
      ensures r.CheckFailed? <==>
                old(pool)[0] >= Block(size) && !ChecksHold(old(pool), Block(size), LevelFor(poolSize, Block(size)), 0)
      ensures !r.Address? ==> live == old(live) && pool == old(pool)
      ensures r.Address? ==>
                (x, r.addr) == Descent(old(pool), Block(size), LevelFor(poolSize, Block(size)), 0, 0, poolSize)
      ensures r.Address? ==>
                r.addr == Offset(poolSize, x) && Level(x) == LevelFor(poolSize, Block(size)) && x < Nodes(numOrder)
      ensures r.Address? ==> live == old(live) + {x} && pool == Repaired(old(pool)[x := 0], Size(poolSize, x), x)
    {
      LevelForInTree(poolSize, numOrder, size);
      var up := RoundedUp(size);
      var blockSize := if up > minBlockSize then up else minBlockSize;
      var level := ComputeLevel(poolSize, blockSize);
      x := 0;
      if pool[0] < blockSize {
        return Null, 0;
      }
      Pow2Mono(level + 1, numOrder);
      var ok, blockIdx, a := SearchSuitableBlock(poolSize, pool, level, blockSize);
      if !ok {
        return CheckFailed, 0;
      }
      DescentPlace(poolSize, pool, blockSize, level, 0);
      x := blockIdx;
      live := live + {x};
      pool := pool[blockIdx := 0];
      UpdatePool(blockIdx);
      r := Address(a);
    }

    /** The same, and what it means where blocks split evenly: null exactly when no wholly free block is
        large enough; otherwise the lowest-addressed free block of the computed level, and nothing else
        changes hands. */
    method Allocate(size: nat) returns (r: Allocation, ghost x: nat)
      requires Shape()
      modifies this`pool, this`live
      ensures Shape() && Block(size) >= 1
      ensures r.Null? <==> old(pool)[0] < Block(size)
      ensures r.CheckFailed? <==>
                old(pool)[0] >= Block(size) && !ChecksHold(old(pool), Block(size), LevelFor(poolSize, Block(size)), 0)
      ensures !r.Address? ==> live == old(live) && pool == old(pool)
      ensures r.Address? ==>
                (x, r.addr) == Descent(old(pool), Block(size), LevelFor(poolSize, Block(size)), 0, 0, poolSize)
      ensures r.Address? ==>
                r.addr == Offset(poolSize, x) && Level(x) == LevelFor(poolSize, Block(size)) && x < Nodes(numOrder)
      ensures r.Address? ==> live == old(live) + {x} && pool == Repaired(old(pool)[x := 0], Size(poolSize, x), x)
      ensures old(Valid()) ==> Valid() && !r.CheckFailed?
      ensures old(Valid()) ==> (r.Null? <==> !AnyFree(old(live), size))
      ensures old(Valid()) && r.Address? ==> Best(old(live), size, x) && x !in old(live)
      ensures old(Valid()) && r.Address? ==>
                Chosen(poolSize, Nodes(numOrder), old(live), Block(size), x)
      ensures old(Valid()) && r.Address? ==> size <= Size(poolSize, x) && r.addr + Size(poolSize, x) <= poolSize
    {
      ghost var plan, valid := 0, Valid();
      if valid {
        plan := AllocatePlan(poolSize, numOrder, live, pool, minBlockSize, size);
        AnyFreeIff(live, size);
      }
      ghost var was := live;
      r, x := Take(size);
      if r.Address? && valid { BestChosen(was, size, x); }
    }

    /** Some wholly free block will do. */
    ghost predicate AnyFree(live: set<nat>, size: nat)
      reads this`minBlockSize
    {
      exists j: nat :: j < Nodes(numOrder) && Free(live, j) && Suffices(minBlockSize, size, Size(poolSize, j))
    }

    /** `x` is free and will do, half of it would not, and no free block of its level is at a lower
        address. */
    ghost predicate Best(live: set<nat>, size: nat, x: nat)
      reads this`minBlockSize
    {
      && x < Nodes(numOrder) && Free(live, x) && Suffices(minBlockSize, size, Size(poolSize, x))
      && !Suffices(minBlockSize, size, Size(poolSize, x) / 2)
      && forall j: nat {:trigger Free(live, j)} ::
           j < Nodes(numOrder) && Free(live, j) && Level(j) == Level(x) ==> Offset(poolSize, x) <= Offset(poolSize, j)
    }

    lemma AnyFreeIff(live: set<nat>, size: nat)
      ensures AnyFree(live, size) <==> Fits(poolSize, Nodes(numOrder), live, Block(size))
    {
      BlockForIs(minBlockSize, size);
    }

    lemma BestChosen(live: set<nat>, size: nat, x: nat)
      requires Chosen(poolSize, Nodes(numOrder), live, Block(size), x)
      ensures Best(live, size, x)
    {
      BlockForIs(minBlockSize, size);
      LevelForBounds(poolSize, Block(size));
      SizeHalve(poolSize, x);
    }

    /** On every pool: the descent by address finds the node to give back, which is the node that was
        handed out at that address and level, and the path is repaired.  Where blocks split evenly,
        exactly that node is taken back. */
    method Deallocate(addr: nat, size: nat) returns (ghost x: nat)
      requires Shape()
      modifies this`pool, this`live
      ensures Shape() && x < Nodes(numOrder) && Block(size) >= 1
      ensures Locate(addr, LevelFor(poolSize, Block(size)), 0, poolSize, 0) == (x, Size(poolSize, x))
      ensures live == old(live) - {x} && pool == Repaired(old(pool)[x := Size(poolSize, x)], Size(poolSize, x), x)
      ensures forall y: nat {:trigger Offset(poolSize, y)} ::
                (Offset(poolSize, y) == addr && Size(poolSize, y) > 0 && Level(y) == LevelFor(poolSize, Block(size)))
                ==> x == y
      ensures old(Valid()) && x in old(live) ==> Valid()
    {
      LevelForInTree(poolSize, numOrder, size);
      var up := RoundedUp(size);
      var allocSize := if up > minBlockSize then up else minBlockSize;
      var level := ComputeLevel(poolSize, allocSize);
      var blockIdx, blockSize := FindByAddress(addr, level);
      LevelInTree(blockIdx, numOrder);
      x := blockIdx;
      if Valid() && x in live { ReturnKeeps(poolSize, numOrder, live, pool, x); }
      live := live - {x};
      pool := pool[blockIdx := blockSize];
      UpdatePool(blockIdx);
    }

    /** The descent by address. */
    method FindByAddress(addr: nat, level: nat) returns (blockIdx: nat, blockSize: nat)
      ensures (blockIdx, blockSize) == Locate(addr, level, 0, poolSize, 0)
      ensures Level(blockIdx) == level && blockSize == Size(poolSize, blockIdx)
      ensures forall y: nat {:trigger Offset(poolSize, y)} ::
                (Offset(poolSize, y) == addr && Size(poolSize, y) > 0 && Level(y) == level) ==> blockIdx == y
    {
      blockIdx, blockSize := 0, poolSize;
      var curOffset: nat, cur: nat := 0, 0;
      while cur < level
        invariant cur <= level
        invariant Locate(addr, level - cur, blockIdx, blockSize, curOffset) == Locate(addr, level, 0, poolSize, 0)
      {
        cur := cur + 1;
        var childSize := blockSize / 2;
        if addr < curOffset + childSize {
          blockIdx := blockIdx * 2 + 1;
        } else {
          blockIdx := blockIdx * 2 + 2;
          curOffset := curOffset + childSize;
        }
        blockSize := childSize;
      }
      LocatePlace(poolSize, addr, level, 0);
      forall y: nat | Offset(poolSize, y) == addr && Size(poolSize, y) > 0 && Level(y) == level ensures blockIdx == y {
        UnderRoot(y);
        LocateFinds(poolSize, y, level, 0);
      }
    }

    /** Allocating and freeing again finds the same node and restores the array exactly when its cell
        showed its size and the cells above were as the repair leaves them; where blocks split
        evenly, always. */
    method AllocateThenFree(size: nat) returns (r: Allocation, ghost x: nat)
      requires Shape()
      modifies this`pool, this`live
      ensures Shape()
      ensures !r.Address? ==> live == old(live) && pool == old(pool)
      ensures r.Address? ==> x < Nodes(numOrder) && live == old(live) - {x}
      ensures r.Address? ==> (pool == old(pool) <==>
                old(pool)[x] == Size(poolSize, x) && Repaired(old(pool), Size(poolSize, x), x) == old(pool))
      ensures old(Valid()) ==> Valid() && live == old(live) && pool == old(pool)
    {
      r, x := Allocate(size);
      if r.Address? {
        ghost var y := Deallocate(r.addr, size);
        LevelForSize(poolSize, Block(size), x);
        UnderRoot(x);
        LocateFinds(poolSize, x, Level(x), 0);
        RestoredIff(old(pool), Size(poolSize, x), x);
      }
    }
  }

  /** A node of a level computed below the root is not empty. */
  lemma LevelForSize(p: nat, block: nat, x: nat)
    requires block >= 1 && Level(x) == LevelFor(p, block)
    ensures Level(x) > 0 ==> Size(p, x) > 0
  {
    if Level(x) > 0 {
      LevelForFits(p, block);
      LevelForBounds(p, block);
      SizeHalve(p, x);
    }
  }

  /** Marking a free block and repairing the path. */
  lemma GrantKeeps(p: nat, k: nat, live: set<nat>, pool: seq<nat>, x: nat)
    requires Even(p, k, Nodes(k)) && pool == PoolOf(p, k, live) && x < Nodes(k) && Free(live, x)
    requires Antichain(live, Nodes(k))
    ensures x !in live && Antichain(live + {x}, Nodes(k))
    ensures Repaired(pool[x := 0], Size(p, x), x) == PoolOf(p, k, live + {x})
  {
    assert Under(x, x);
    OnlyAbove(p, k, live, live + {x}, pool, x, 0);
    RepairedRight(p, k, live + {x}, pool[x := 0], x, x);
  }

  /** What `allocate` will find, before it changes anything. */
  lemma AllocatePlan(p: nat, k: nat, live: set<nat>, pool: seq<nat>, min: nat, size: nat) returns (x: nat)
    requires Even(p, k, Nodes(k)) && Antichain(live, Nodes(k)) && pool == PoolOf(p, k, live) && min == MinBlock(p, k)
    ensures var block := BlockFor(min, size);
            && block >= 1 && |pool| > 0 && (pool[0] < block <==> !Fits(p, Nodes(k), live, block))
            && (pool[0] >= block ==>
                  && p > 0 && ChecksHold(pool, block, LevelFor(p, block), 0)
                  && Descent(pool, block, LevelFor(p, block), 0, 0, p) == (x, Offset(p, x)) && x + 1 < |pool|
                  && Chosen(p, Nodes(k), live, block, x) && x !in live && Antichain(live + {x}, Nodes(k))
                  && Repaired(pool[x := 0], Size(p, x), x) == PoolOf(p, k, live + {x})
                  && size <= Size(p, x) && Offset(p, x) + Size(p, x) <= p)
  {
    var n, block := Nodes(k), BlockFor(min, size);
    BlockForBounds(min, size);
    LevelForInTree(p, k, size);
    FitsRoot(p, k, n, live, block);
    x := 0;
    if pool[0] >= block {
      x := SearchFinds(p, k, live, pool, block);
      GrantKeeps(p, k, live, pool, x);
      UnderRoot(x);
      RangeNested(p, 0, x);
    }
  }

  /** Giving a live block its size back and repairing the path. */
  lemma ReturnKeeps(p: nat, k: nat, live: set<nat>, pool: seq<nat>, x: nat)
    requires Even(p, k, Nodes(k)) && p > 0 && pool == PoolOf(p, k, live) && x in live && Antichain(live, Nodes(k))
    ensures x < Nodes(k) && Antichain(live - {x}, Nodes(k))
    ensures Repaired(pool[x := Size(p, x)], Size(p, x), x) == PoolOf(p, k, live - {x})
  {
    assert Under(x, x);
    CellFull(p, k, Nodes(k), live - {x}, x);
    OnlyAbove(p, k, live, live - {x}, pool, x, Size(p, x));
    RepairedRight(p, k, live - {x}, pool[x := Size(p, x)], x, x);
  }
}
