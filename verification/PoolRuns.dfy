/** Whole runs of the allocator on pools of any size.  Where block sizes were halved with a remainder,
    the repair can take two cells for a whole block that is not free, and a live block is handed out
    again; this module says for exactly which allocators that can happen. */
module PoolRuns {
  import opened Powers
  import opened ImplicitTree
  import opened BuddyTree
  import opened BuddyAllocator

  datatype PoolState = PoolState(pool: seq<nat>, live: set<nat>)

  datatype Action = Get(size: nat) | Put(x: nat)

  /** The node that the search gives to a request. */
  ghost function Target(p: nat, pool: seq<nat>, block: nat): nat
    requires block >= 1
  {
    Descent(pool, block, LevelFor(p, block), 0, 0, p).0
  }

  /** The root test passes, and every check of the search holds. */
  ghost predicate Grants(p: nat, pool: seq<nat>, block: nat)
    requires block >= 1
  {
    |pool| > 0 && pool[0] >= block && ChecksHold(pool, block, LevelFor(p, block), 0)
  }

  ghost function Request(p: nat, k: nat, size: nat): (block: nat)
    ensures block >= 1
  {
    BlockForBounds(MinBlock(p, k), size);
    BlockFor(MinBlock(p, k), size)
  }

  /** A request that is granted, or the release of a live block. */
  ghost predicate Next(p: nat, k: nat, s: PoolState, a: Action, t: PoolState) {
    match a
    case Get(size) =>
      && Grants(p, s.pool, Request(p, k, size))
      && var x := Target(p, s.pool, Request(p, k, size));
         x + 1 < |s.pool| && t == PoolState(Repaired(s.pool[x := 0], Size(p, x), x), s.live + {x})
    case Put(x) =>
      && x in s.live && x + 1 < |s.pool|
      && t == PoolState(Repaired(s.pool[x := Size(p, x)], Size(p, x), x), s.live - {x})
  }

  ghost predicate Run(p: nat, k: nat, states: seq<PoolState>, acts: seq<Action>) {
    && |states| == |acts| + 1 && states[0] == PoolState(FreshPool(p, k), {})
    && forall i :: 0 <= i < |acts| ==> Next(p, k, states[i], acts[i], states[i + 1])
  }

  /** The request would be answered with a node that is live, or above or below a live one. */
  ghost predicate Collides(p: nat, k: nat, s: PoolState, size: nat) {
    Grants(p, s.pool, Request(p, k, size)) && !Free(s.live, Target(p, s.pool, Request(p, k, size)))
  }

  ghost predicate CollidesInRun(p: nat, k: nat, states: seq<PoolState>, acts: seq<Action>, size: nat) {
    Run(p, k, states, acts) && Collides(p, k, states[|acts|], size)
  }

  // ---------- when a repair can be wrong ----------

  /** The sizes of levels l + 1 and l + 2 add up to what a repair that starts at level `y` takes for a
      block of level `l`. */
  ghost predicate FalseSumAt(p: nat, l: nat, y: nat) {
    l + 2 <= y && Halve(p, y) >= 1 && Halve(p, l + 1) + Halve(p, l + 2) == Pow2(y - l) * Halve(p, y)
  }

  ghost predicate FalseSum(p: nat, k: nat) {
    exists l: nat, y: nat :: y < k && FalseSumAt(p, l, y)
  }

  lemma {:induction false} HalveAdd(p: nat, a: nat, b: nat)
    ensures Halve(p, a + b) == Halve(Halve(p, a), b)
  {
    if b > 0 { HalveAdd(p, a, b - 1); }
  }

  lemma {:induction false} HalveBounds(h: nat, e: nat)
    ensures Pow2(e) * Halve(h, e) <= h < Pow2(e) * (Halve(h, e) + 1)
  {
    if e > 0 {
      HalveBounds(h, e - 1);
      HalfBounds(h, Pow2(e - 1), Halve(h, e - 1));
    }
  }

  lemma HalfBounds(h: nat, q: nat, a: nat)
    requires q >= 1 && q * a <= h < q * (a + 1)
    ensures 2 * q * (a / 2) <= h < 2 * q * (a / 2 + 1)
  {
    var c := a / 2;
    assert 2 * c <= a <= 2 * c + 1;
    Monotone(q, 2 * c, a);
    Monotone(q, a + 1, 2 * c + 2);
    assert q * (2 * c) == 2 * q * c && q * (2 * c + 2) == 2 * q * (c + 1);
  }

  lemma Monotone(q: nat, a: nat, b: nat)
    requires a <= b
    ensures q * a <= q * b
  {}

  /** A number whose digits are at least 101010... has a prefix that, with its half, makes a power of
      two: 11, 1011, 101011 and so on. */
  lemma {:induction false} GoldenPrefix(h: nat, n: nat) returns (r: nat)
    requires Pow2(n) <= h < 2 * Pow2(n) && h + h / 2 >= 2 * Pow2(n)
    ensures r + 1 <= n && Halve(h, r) + Halve(h, r + 1) == Pow2(n - r + 1)
    decreases n
  {
    if h + h / 2 == 2 * Pow2(n) {
      r := 0;
      assert Halve(h, 1) == h / 2;
    } else {
      r := GoldenPrefix(h / 2, n - 1);
      HalveShift(h, r + 1);
      HalveShift(h, r + 2);
      r := r + 1;
    }
  }

  /** If what the loop takes for a block lies above one child but within reach of two honest cells,
      the allocator has a false sum. */
  lemma {:induction false} TooLarge(p: nat, k: nat, m: nat, y: nat)
    requires m < y < k && Halve(p, y) >= 1
    requires Halve(p, m + 1) < Pow2(y - m) * Halve(p, y) <= Halve(p, m + 1) + Halve(p, m + 2)
    ensures FalseSum(p, k)
  {
    var h, e := Halve(p, m + 1), y - m - 1;
    HalveAdd(p, m + 1, e);
    assert Pow2(y - m) == 2 * Pow2(e);
    var r := FindSum(h, e);
    HalveAdd(p, m + 1, r);
    HalveAdd(p, m + 1, r + 1);
    assert Pow2(e - r + 1) * Halve(h, e) == Pow2(y - (m + r)) * Halve(p, y);
    assert FalseSumAt(p, m + r, y);
  }

  lemma {:induction false} FindSum(h: nat, e: nat) returns (r: nat)
    requires Halve(h, e) >= 1 && h < 2 * Pow2(e) * Halve(h, e) <= h + h / 2
    ensures r + 1 <= e && Halve(h, r) + Halve(h, r + 1) == Pow2(e - r + 1) * Halve(h, e)
  {
    var a := Halve(h, e);
    HalveBounds(h, e);
    Few(h, Pow2(e), a);
    assert Pow2(e + 1) == 2 * Pow2(e);
    if a == 1 {
      r := GoldenPrefix(h, e);
    } else {
      assert Halve(h, e + 1) == 1;
      r := GoldenPrefix(h, e + 1);
      assert Pow2(e + 1 - r + 1) == 2 * Pow2(e - r + 1);
    }
  }

  /** Twice the truncated size is within reach only if at most two digits are left. */
  lemma Few(h: nat, q: nat, a: nat)
    requires q >= 1 && a >= 1 && q * a <= h < q * (a + 1) && 2 * q * a <= h + h / 2
    ensures a <= 2
  {
    assert 4 * (q * a) <= 3 * h;
    assert q * (a + 1) == q * a + q;
    if a >= 3 { Monotone(q, 3, a); }
  }

  // ---------- what holds as long as no repair is wrong ----------

  /** A block is live strictly below `q`. */
  ghost predicate LiveBelow(live: set<nat>, q: nat) { exists a :: a in live && a != q && Under(q, a) }

  /** A cell never shows more than its block, nothing while the block is live, and at most one child
      while something below is. */
  ghost predicate Honest(p: nat, live: set<nat>, q: nat, cell: nat) {
    && cell <= Size(p, q) && (q in live ==> cell == 0)
    && (LiveBelow(live, q) ==> cell <= Size(p, q) / 2)
  }

  /** A request that fits a child of `q`, and that `q` promises with `cell`, is kept by a child. */
  ghost predicate Keeps(p: nat, k: nat, pool: seq<nat>, q: nat, cell: nat) {
    2 * q + 2 < Nodes(k) && 2 * q + 2 < |pool| ==>
      forall size: nat {:trigger Request(p, k, size)} ::
        Request(p, k, size) <= Size(p, q) / 2 && Request(p, k, size) <= cell
        ==> pool[2 * q + 1] >= Request(p, k, size) || pool[2 * q + 2] >= Request(p, k, size)
  }

  /** Both at node `q`; a live node is to promise its full size when it comes back. */
  ghost predicate Sound(p: nat, k: nat, pool: seq<nat>, live: set<nat>, q: nat)
    requires q < |pool|
  {
    Honest(p, live, q, pool[q]) && Keeps(p, k, pool, q, if q in live then Size(p, q) else pool[q])
  }

  /** Every node is sound, except perhaps those above `b`. */
  ghost predicate SoundOff(p: nat, k: nat, pool: seq<nat>, live: set<nat>, b: nat) {
    && |pool| == Pow2(k)
    && forall q: nat {:trigger Under(q, b)} :: q < Nodes(k) && (q == b || !Under(q, b)) ==> Sound(p, k, pool, live, q)
  }

  ghost predicate Good(p: nat, k: nat, s: PoolState) {
    && |s.pool| == Pow2(k) && Antichain(s.live, Nodes(k)) && (forall a :: a in s.live ==> Size(p, a) >= 1)
    && forall q: nat :: q < Nodes(k) ==> Sound(p, k, s.pool, s.live, q)
  }

  lemma FreshGood(p: nat, k: nat)
    ensures Good(p, k, PoolState(FreshPool(p, k), {}))
  {
    var pool := FreshPool(p, k);
    forall q: nat | q < Nodes(k) ensures Sound(p, k, pool, {}, q) {
      ChildPlace(p, q, 2 * q + 1);
    }
  }

  /** Live below a node means live in one of its children or below it. */
  lemma {:induction false} LiveBelowChild(live: set<nat>, q: nat, a: nat)
    requires a in live && a != q && Under(q, a)
    ensures 2 * q + 1 in live || LiveBelow(live, 2 * q + 1) || 2 * q + 2 in live || LiveBelow(live, 2 * q + 2)
  {
    UnderChild(q, a);
  }

  /** What the loop takes for a block is never more than the block. */
  lemma {:induction false} LoopSize(p: nat, m: nat, y: nat)
    requires m <= y
    ensures Pow2(y - m) * Halve(p, y) <= Halve(p, m)
  {
    HalveAdd(p, m, y - m);
    HalveBounds(Halve(p, m), y - m);
  }

  /** The cell computed from two honest children, one of which is short if something is live below,
      is honest unless the allocator has a false sum. */
  lemma MergeBound(p: nat, k: nat, m: nat, y: nat, size: nat, v: nat, w: nat, below: bool)
    requires !FalseSum(p, k) && m < y < k && Halve(p, y) >= 1 && size == Pow2(y - m) * Halve(p, y)
    requires v <= Halve(p, m + 1) && w <= Halve(p, m + 1)
    requires below ==> v <= Halve(p, m + 1) / 2 || w <= Halve(p, m + 1) / 2
    ensures Merge(size, v, w) <= Halve(p, m) && (below ==> Merge(size, v, w) <= Halve(p, m + 1))
  {
    LoopSize(p, m, y);
    HalveMono(p, m, m + 1);
    if below && size == v + w && size > Halve(p, m + 1) { TooLarge(p, k, m, y); }
  }

  /** What the loop takes for a block is at least twice any request that fits a child. */
  lemma {:induction false} RequestFits(p: nat, k: nat, m: nat, y: nat, size: nat)
    requires m < y < k && Halve(p, y) >= 1 && Request(p, k, size) <= Halve(p, m + 1)
    ensures Pow2(y - m) * Halve(p, y) >= 2 * Request(p, k, size)
  {
    var e := y - m - 1;
    Doubled(e, Halve(p, y));
    var f := RoundUpLeast(0, size);
    if Request(p, k, size) == MinBlock(p, k) {
      HalveMono(p, y, k - 1);
      LeastBlock(p, k, Pow2(e), Halve(p, y));
    } else {
      HalveAdd(p, m + 1, e);
      PowerBelow(Halve(p, m + 1), e, f);
    }
  }

  lemma LeastBlock(p: nat, k: nat, q: nat, a: nat)
    requires k >= 1 && q >= 1 && a >= Halve(p, k - 1)
    ensures q * a >= MinBlock(p, k)
  {
    Monotone(a, 1, q);
    assert q * a == a * q;
  }

  /** Truncating a number keeps it at or above every power of two that it is at or above. */
  lemma {:induction false} PowerBelow(h: nat, e: nat, f: nat)
    requires Pow2(f) <= h && Halve(h, e) >= 1
    ensures Pow2(e) * Halve(h, e) >= Pow2(f)
  {
    var a := Halve(h, e);
    Monotone(Pow2(e), 1, a);
    if f >= e {
      HalveBounds(h, e);
      Pow2Add(e, f - e);
      if a < Pow2(f - e) { Monotone(Pow2(e), a + 1, Pow2(f - e)); }
      Monotone(Pow2(e), Pow2(f - e), a);
    } else {
      Pow2Mono(f, e);
    }
  }

  lemma MergeKeeps(p: nat, k: nat, m: nat, y: nat, size: nat, v: nat, w: nat, request: nat)
    requires m < y < k && Halve(p, y) >= 1 && size == Pow2(y - m) * Halve(p, y)
    requires Request(p, k, request) <= Halve(p, m + 1) && Request(p, k, request) <= Merge(size, v, w)
    ensures v >= Request(p, k, request) || w >= Request(p, k, request)
  {
    RequestFits(p, k, m, y, request);
  }

  /** A node is honest with a cell computed from honest children. */
  lemma HonestMerge(p: nat, k: nat, live: set<nat>, q: nat, y: nat, size: nat, v: nat, w: nat)
    requires !FalseSum(p, k) && Level(q) < y < k && Halve(p, y) >= 1 && size == Pow2(y - Level(q)) * Halve(p, y)
    requires q !in live && Honest(p, live, 2 * q + 1, v) && Honest(p, live, 2 * q + 2, w)
    ensures Honest(p, live, q, Merge(size, v, w))
  {
    ParentSizes(p, q);
    if LiveBelow(live, q) {
      var a :| a in live && a != q && Under(q, a);
      LiveBelowChild(live, q, a);
    }
    MergeBound(p, k, Level(q), y, size, v, w, LiveBelow(live, q));
  }

  /** And it keeps what it promises. */
  lemma KeepsMerge(p: nat, k: nat, pool: seq<nat>, q: nat, y: nat, size: nat, cell: nat)
    requires Level(q) < y < k && Halve(p, y) >= 1 && size == Pow2(y - Level(q)) * Halve(p, y)
    requires 2 * q + 2 < |pool| && cell == Merge(size, pool[2 * q + 1], pool[2 * q + 2])
    ensures Keeps(p, k, pool, q, cell)
  {
    ParentSizes(p, q);
    forall request: nat | Request(p, k, request) <= Size(p, q) / 2 && Request(p, k, request) <= cell
      ensures pool[2 * q + 1] >= Request(p, k, request) || pool[2 * q + 2] >= Request(p, k, request)
    {
      MergeKeeps(p, k, Level(q), y, size, pool[2 * q + 1], pool[2 * q + 2], request);
    }
  }

  /** The node above `b` is sound once its cell is computed from its children; `y` is the level where
      the repair started. */
  lemma MergeSound(p: nat, k: nat, pool: seq<nat>, live: set<nat>, y: nat, size: nat, b: nat, cell: nat)
    requires !FalseSum(p, k) && y < k && Halve(p, y) >= 1 && 0 < b < Nodes(k) && SoundOff(p, k, pool, live, b)
    requires Level(Parent(b)) < y && size == Pow2(y - Level(Parent(b))) * Halve(p, y) && Parent(b) !in live
    requires b + 1 < |pool| && cell == Merge(size, pool[2 * Parent(b) + 1], pool[2 * Parent(b) + 2])
    ensures Sound(p, k, pool[Parent(b) := cell], live, Parent(b))
  {
    var q := Parent(b);
    SoundChildren(p, k, pool, live, b);
    HonestMerge(p, k, live, q, y, size, pool[2 * q + 1], pool[2 * q + 2]);
    KeepsMerge(p, k, pool, q, y, size, cell);
  }

  lemma {:induction false} ParentSizes(p: nat, q: nat)
    ensures Size(p, q) == Halve(p, Level(q)) && Size(p, q) / 2 == Halve(p, Level(q) + 1)
    ensures Size(p, 2 * q + 1) == Size(p, q) / 2 && Size(p, 2 * q + 2) == Size(p, q) / 2
  {
    SizeHalve(p, q);
    ChildPlace(p, q, 2 * q + 1);
    ChildPlace(p, q, 2 * q + 2);
  }

  lemma SoundChildren(p: nat, k: nat, pool: seq<nat>, live: set<nat>, b: nat)
    requires 0 < b < Nodes(k) && SoundOff(p, k, pool, live, b)
    ensures var q := Parent(b);
            && 2 * q + 2 < Nodes(k) && 2 * q + 2 < |pool|
            && Honest(p, live, 2 * q + 1, pool[2 * q + 1]) && Honest(p, live, 2 * q + 2, pool[2 * q + 2])
  {
    var q := Parent(b);
    ChildPlace(p, q, 2 * q + 1);
    ChildPlace(p, q, 2 * q + 2);
    LevelBelow(b);
    LevelInTree(b, k);
    LevelInTree(2 * q + 1, k);
    LevelInTree(2 * q + 2, k);
    SiblingsApart(q, b);
    assert Under(b, b);
    assert Under(2 * q + 1, b) || !Under(2 * q + 1, b);
    assert Under(2 * q + 2, b) || !Under(2 * q + 2, b);
  }

  lemma SoundUp(p: nat, k: nat, pool: seq<nat>, live: set<nat>, b: nat, cell: nat)
    requires 0 < b < Nodes(k) && SoundOff(p, k, pool, live, b) && Sound(p, k, pool[Parent(b) := cell], live, Parent(b))
    ensures SoundOff(p, k, pool[Parent(b) := cell], live, Parent(b))
  {
    var q := Parent(b);
    var pool' := pool[q := cell];
    forall i: nat | i < Nodes(k) && (i == q || !Under(i, q)) ensures Sound(p, k, pool', live, i) {
      if i != q {
        assert i == b || !Under(i, b);
        assert Under(b, b) && Sound(p, k, pool, live, i);
        NotAbove(i, q);
      }
    }
  }

  /** A node that is not above `q` does not have `q` as a child. */
  lemma {:induction false} NotAbove(i: nat, q: nat)
    requires !Under(i, q)
    ensures q != 2 * i + 1 && q != 2 * i + 2
  {
    if q == 2 * i + 1 || q == 2 * i + 2 { ChildPlace(0, i, q); }
  }

  /** The repair that started at `x` has come up to `b`, with `size` for its size. */
  ghost predicate Repairing(p: nat, k: nat, pool: seq<nat>, live: set<nat>, x: nat, size: nat, b: nat) {
    && x < Nodes(k) && b < Nodes(k) && Under(b, x) && Halve(p, Level(x)) >= 1
    && SoundOff(p, k, pool, live, b) && Level(b) <= Level(x)
    && size == Pow2(Level(x) - Level(b)) * Halve(p, Level(x))
    && forall a :: a in live && Under(a, x) ==> a == x
  }

  lemma RepairingUp(p: nat, k: nat, pool: seq<nat>, live: set<nat>, x: nat, size: nat, b: nat, cell: nat)
    requires !FalseSum(p, k) && Repairing(p, k, pool, live, x, size, b) && b > 0
    requires cell == Merge(2 * size, pool[2 * Parent(b) + 1], pool[2 * Parent(b) + 2])
    ensures Repairing(p, k, pool[Parent(b) := cell], live, x, 2 * size, Parent(b))
  {
    var q := Parent(b);
    UnderTrans(q, b, x);
    UnderLevel(b, x);
    LevelBelow(b);
    LevelInTree(x, k);
    Doubled(Level(x) - Level(b), Halve(p, Level(x)));
    MergeSound(p, k, pool, live, Level(x), 2 * size, b, cell);
    SoundUp(p, k, pool, live, b, cell);
  }

  lemma {:induction false} Doubled(n: nat, a: nat)
    ensures Pow2(n + 1) * a == 2 * (Pow2(n) * a)
  {}

  /** The repair leaves every node sound. */
  lemma {:induction false} RepairSound(p: nat, k: nat, pool: seq<nat>, live: set<nat>, x: nat, size: nat, b: nat)
    requires !FalseSum(p, k) && Repairing(p, k, pool, live, x, size, b)
    ensures var r := Repaired(pool, size, b);
            |r| == |pool| && forall q: nat :: q < Nodes(k) ==> Sound(p, k, r, live, q)
    decreases b
  {
    if b == 0 {
      forall q: nat | q < Nodes(k) ensures Sound(p, k, pool, live, q) {
        if q > 0 { UnderAbove(q, b); } else { assert Under(b, b); }
      }
    } else {
      var q := Parent(b);
      var cell := Merge(2 * size, pool[2 * q + 1], pool[2 * q + 2]);
      RepairingUp(p, k, pool, live, x, size, b, cell);
      RepairedStep(pool, size, b, cell);
      RepairSound(p, k, pool[q := cell], live, x, 2 * size, q);
    }
  }

  // ---------- the two steps ----------

  /** Changing what is live at `x` only, to a sound cell there. */
  lemma SoundElsewhere(p: nat, k: nat, s: PoolState, live: set<nat>, x: nat, cell: nat)
    requires Good(p, k, s) && x < Nodes(k) && (forall a :: a != x ==> (a in live <==> a in s.live))
    requires Sound(p, k, s.pool[x := cell], live, x)
    ensures SoundOff(p, k, s.pool[x := cell], live, x)
  {
    var pool := s.pool[x := cell];
    forall q: nat | q < Nodes(k) && (q == x || !Under(q, x)) ensures Sound(p, k, pool, live, q) {
      if q != x {
        assert Sound(p, k, s.pool, s.live, q);
        NotAbove(q, x);
        if LiveBelow(live, q) {
          var a :| a in live && a != q && Under(q, a);
          assert a in s.live;
        }
      }
    }
  }

  /** A cell that shows a request not yet at its level: one child does too. */
  lemma DescentChild(p: nat, k: nat, s: PoolState, size: nat, b: nat) returns (c: nat)
    requires Good(p, k, s) && b < Nodes(k) && s.pool[b] >= Request(p, k, size) && p >= Request(p, k, size)
    requires Level(b) < LevelFor(p, Request(p, k, size)) < k
    ensures 2 * b + 2 < Nodes(k) && 2 * b + 2 < |s.pool|
    ensures c == if s.pool[2 * b + 1] >= Request(p, k, size) then 2 * b + 1 else 2 * b + 2
    ensures Level(c) == Level(b) + 1 && s.pool[c] >= Request(p, k, size)
  {
    var block := Request(p, k, size);
    assert Sound(p, k, s.pool, s.live, b);
    LevelForBounds(p, block);
    ParentSizes(p, b);
    ChildPlace(p, b, 2 * b + 1);
    ChildPlace(p, b, 2 * b + 2);
    LevelInTree(2 * b + 1, k);
    LevelInTree(2 * b + 2, k);
    HalveMono(p, Level(b) + 1, LevelFor(p, block));
    c := if s.pool[2 * b + 1] >= block then 2 * b + 1 else 2 * b + 2;
  }

  /** A node that shows a request of its own level is free, if nothing above it is live. */
  lemma ShownFree(p: nat, k: nat, s: PoolState, size: nat, b: nat)
    requires Good(p, k, s) && b < Nodes(k) && s.pool[b] >= Request(p, k, size)
    requires Level(b) == LevelFor(p, Request(p, k, size)) && forall a :: a in s.live && Under(a, b) ==> a == b
    ensures Free(s.live, b) && Size(p, b) / 2 < Request(p, k, size)
  {
    assert Sound(p, k, s.pool, s.live, b);
    LevelForBounds(p, Request(p, k, size));
    ParentSizes(p, b);
  }

  /** The descent passes no live node and ends at a free one, and no check fails. */
  lemma {:induction false} DescentFree(p: nat, k: nat, s: PoolState, size: nat, steps: nat, b: nat, addr: nat,
        bytes: nat)
    requires Good(p, k, s) && b < Nodes(k) && s.pool[b] >= Request(p, k, size) && p >= Request(p, k, size)
    requires Level(b) + steps == LevelFor(p, Request(p, k, size)) < k
    requires forall a :: a in s.live && Under(a, b) ==> a == b
    ensures ChecksHold(s.pool, Request(p, k, size), steps, b)
    ensures var x := Descent(s.pool, Request(p, k, size), steps, b, addr, bytes).0;
            && x < Nodes(k) && Level(x) == LevelFor(p, Request(p, k, size)) && s.pool[x] >= Request(p, k, size)
            && Free(s.live, x) && Size(p, x) / 2 < Request(p, k, size)
    decreases steps
  {
    if steps == 0 {
      ShownFree(p, k, s, size, b);
    } else {
      var c := DescentChild(p, k, s, size, b);
      assert Sound(p, k, s.pool, s.live, b);
      NothingLiveAbove(s.live, b, c);
      DescentFree(p, k, s, size, steps - 1, c, if c == 2 * b + 1 then addr else addr + bytes / 2, bytes / 2);
    }
  }

  lemma NothingLiveAbove(live: set<nat>, b: nat, c: nat)
    requires (c == 2 * b + 1 || c == 2 * b + 2) && b !in live && forall a :: a in live && Under(a, b) ==> a == b
    ensures forall a :: a in live && Under(a, c) ==> a == c
  {
    ParentOf(b, c);
  }

  /** In a good state the root test decides: no check fails, and what is handed out is free. */
  lemma GoodSearch(p: nat, k: nat, s: PoolState, size: nat)
    requires k >= 1 && Good(p, k, s) && s.pool[0] >= Request(p, k, size)
    ensures Grants(p, s.pool, Request(p, k, size))
    ensures var x := Target(p, s.pool, Request(p, k, size));
            && x < Nodes(k) && Level(x) == LevelFor(p, Request(p, k, size)) && s.pool[x] >= Request(p, k, size)
            && Free(s.live, x) && Size(p, x) / 2 < Request(p, k, size) <= Size(p, x)
  {
    assert Sound(p, k, s.pool, s.live, 0);
    LevelForInTree(p, k, size);
    DescentFree(p, k, s, size, LevelFor(p, Request(p, k, size)), 0, 0, p);
    assert Sound(p, k, s.pool, s.live, Target(p, s.pool, Request(p, k, size)));
  }

  lemma GetGood(p: nat, k: nat, s: PoolState, size: nat, t: PoolState)
    requires k >= 1 && !FalseSum(p, k) && Good(p, k, s) && Next(p, k, s, Get(size), t)
    ensures Good(p, k, t)
  {
    GoodSearch(p, k, s, size);
    var x := Target(p, s.pool, Request(p, k, size));
    assert Sound(p, k, s.pool, s.live, x);
    assert Under(x, x);
    var pool, live := s.pool[x := 0], s.live + {x};
    assert !LiveBelow(live, x);
    assert Sound(p, k, pool, live, x);
    SoundElsewhere(p, k, s, live, x, 0);
    SizeHalve(p, x);
    RepairSound(p, k, pool, live, x, Size(p, x), x);
  }

  lemma PutGood(p: nat, k: nat, s: PoolState, x: nat, t: PoolState)
    requires !FalseSum(p, k) && Good(p, k, s) && Next(p, k, s, Put(x), t)
    ensures Good(p, k, t)
  {
    assert Sound(p, k, s.pool, s.live, x);
    assert Under(x, x);
    var pool, live := s.pool[x := Size(p, x)], s.live - {x};
    assert !LiveBelow(live, x);
    assert Sound(p, k, pool, live, x);
    SoundElsewhere(p, k, s, live, x, Size(p, x));
    SizeHalve(p, x);
    RepairSound(p, k, pool, live, x, Size(p, x), x);
  }

  lemma {:induction false} RunGood(p: nat, k: nat, states: seq<PoolState>, acts: seq<Action>, n: nat)
    requires k >= 1 && !FalseSum(p, k) && Run(p, k, states, acts) && n <= |acts|
    ensures Good(p, k, states[n])
  {
    if n == 0 {
      FreshGood(p, k);
    } else {
      RunGood(p, k, states, acts, n - 1);
      var s, t := states[n - 1], states[n];
      assert Next(p, k, s, acts[n - 1], t);
      match acts[n - 1]
      case Get(size) => GetGood(p, k, s, size, t);
      case Put(x) => PutGood(p, k, s, x, t);
    }
  }

  /** Without a false sum, in every state of every run: live blocks are disjoint, the root test alone
      decides whether a request is granted, no check of the search ever fails, and what is handed out
      is wholly free. */
  lemma SafeRuns(p: nat, k: nat, states: seq<PoolState>, acts: seq<Action>, size: nat)
    requires k >= 1 && !FalseSum(p, k) && Run(p, k, states, acts)
    ensures Antichain(states[|acts|].live, Nodes(k)) && |states[|acts|].pool| > 0
    ensures states[|acts|].pool[0] >= Request(p, k, size) ==> Grants(p, states[|acts|].pool, Request(p, k, size))
    ensures !Collides(p, k, states[|acts|], size)
  {
    var s := states[|acts|];
    RunGood(p, k, states, acts, |acts|);
    if s.pool[0] >= Request(p, k, size) { GoodSearch(p, k, s, size); }
  }

  // ---------- with a false sum, two requests collide ----------

  /** The leftmost node of level `i`. */
  ghost function Left(i: nat): nat { Pow2(i) - 1 }

  lemma {:induction false} LeftPlace(i: nat)
    ensures Level(Left(i)) == i
    ensures Left(i + 1) == 2 * Left(i) + 1 && Parent(Left(i + 1)) == Left(i)
  {
    LevelUnique(Left(i), i);
    ParentOf(Left(i), Left(i + 1));
  }

  lemma {:induction false} LeftUnder(i: nat, y: nat)
    requires i <= y
    ensures Under(Left(i), Left(y))
    decreases y
  {
    if i < y {
      LeftUnder(i, y - 1);
      LeftPlace(y - 1);
      UnderTrans(Left(i), Left(y - 1), Left(y));
    }
  }

  lemma {:induction false} LeftInTree(i: nat, k: nat)
    requires i < k
    ensures Left(i) + 1 < Pow2(k) && Left(i) < Nodes(k)
  {
    Pow2Mono(i + 1, k);
  }

  /** If the cells on the left edge show the request, the search follows the edge. */
  lemma {:induction false} EdgeDescent(pool: seq<nat>, block: nat, steps: nat, i: nat, addr: nat, bytes: nat)
    requires forall t: nat :: i < t <= i + steps ==> Left(t) + 1 < |pool| && pool[Left(t)] >= block
    ensures ChecksHold(pool, block, steps, Left(i))
    ensures Descent(pool, block, steps, Left(i), addr, bytes).0 == Left(i + steps)
    decreases steps
  {
    if steps > 0 {
      LeftPlace(i);
      EdgeDescent(pool, block, steps - 1, i + 1, addr, bytes / 2);
    }
  }

  /** The cells of the left edge after its node at level `y` was handed out of a fresh pool. */
  ghost function Edge(p: nat, y: nat, i: nat): nat
    decreases y - i
  {
    if i >= y then 0 else Merge(Pow2(y - i) * Halve(p, y), Edge(p, y, i + 1), Halve(p, i + 1))
  }

  /** The repair along the edge has come up to level `i`. */
  ghost predicate EdgeAt(p: nat, k: nat, pool: seq<nat>, y: nat, i: nat) {
    && |pool| == Pow2(k) && y < k && i <= y
    && (forall t: nat {:trigger Left(t)} :: i <= t <= y ==> Left(t) < |pool| && pool[Left(t)] == Edge(p, y, t))
    && (forall t: nat {:trigger Left(t)} :: 1 <= t <= i ==> Left(t) + 1 < |pool| && pool[Left(t) + 1] == Halve(p, t))
  }

  lemma EdgeUp(p: nat, k: nat, pool: seq<nat>, y: nat, i: nat)
    requires EdgeAt(p, k, pool, y, i) && i > 0
    ensures Left(i) + 1 < |pool| && pool[Left(i)] == Edge(p, y, i) && pool[Left(i) + 1] == Halve(p, i)
    ensures EdgeAt(p, k, pool[Left(i - 1) := Edge(p, y, i - 1)], y, i - 1)
  {
    var pool' := pool[Left(i - 1) := Edge(p, y, i - 1)];
    forall t: nat | i - 1 <= t <= y ensures Left(t) < |pool'| && pool'[Left(t)] == Edge(p, y, t) {
      if t >= i { Pow2Mono(i, t); }
    }
    forall t: nat | 1 <= t <= i - 1 ensures Left(t) + 1 < |pool'| && pool'[Left(t) + 1] == Halve(p, t) {
      OffEdge(t, i - 1);
    }
  }

  lemma {:induction false} EdgeCell(p: nat, y: nat, size: nat, i: nat)
    requires 0 < i <= y && size == Pow2(y - i) * Halve(p, y)
    ensures 2 * size == Pow2(y - (i - 1)) * Halve(p, y)
    ensures Edge(p, y, i - 1) == Merge(2 * size, Edge(p, y, i), Halve(p, i))
  {
    Doubled(y - i, Halve(p, y));
  }

  lemma {:induction false} LeftStep(pool: seq<nat>, size: nat, i: nat, cell: nat)
    requires i > 0 && Left(i) + 1 < |pool| && cell == Merge(2 * size, pool[Left(i)], pool[Left(i) + 1])
    ensures Left(i - 1) + 1 < |pool|
    ensures Repaired(pool, size, Left(i)) == Repaired(pool[Left(i - 1) := cell], 2 * size, Left(i - 1))
  {
    var q, b := Left(i - 1), Left(i);
    LeftPlace(i - 1);
    assert b == 2 * q + 1 && Parent(b) == q;
    RepairedStep(pool, size, b, cell);
  }

  lemma EdgeStep(p: nat, k: nat, pool: seq<nat>, y: nat, size: nat, i: nat) returns (next: seq<nat>)
    requires EdgeAt(p, k, pool, y, i) && i > 0 && size == Pow2(y - i) * Halve(p, y)
    ensures EdgeAt(p, k, next, y, i - 1) && 2 * size == Pow2(y - (i - 1)) * Halve(p, y)
    ensures Left(i) + 1 < |pool| && Left(i - 1) + 1 < |next|
    ensures Repaired(pool, size, Left(i)) == Repaired(next, 2 * size, Left(i - 1))
  {
    EdgeUp(p, k, pool, y, i);
    EdgeCell(p, y, size, i);
    next := pool[Left(i - 1) := Edge(p, y, i - 1)];
    LeftStep(pool, size, i, Edge(p, y, i - 1));
  }

  lemma {:induction false} EdgeRepaired(p: nat, k: nat, pool: seq<nat>, y: nat, size: nat, i: nat)
    requires EdgeAt(p, k, pool, y, i) && size == Pow2(y - i) * Halve(p, y) && Left(i) + 1 < |pool|
    ensures EdgeAt(p, k, Repaired(pool, size, Left(i)), y, 0)
    decreases i
  {
    if i > 0 {
      var next := EdgeStep(p, k, pool, y, size, i);
      EdgeRepaired(p, k, next, y, 2 * size, i - 1);
    }
  }

  /** The node next to the edge at level `t`. */
  lemma {:induction false} BesideEdge(p: nat, k: nat, t: nat)
    requires 1 <= t < k
    ensures Left(t) + 1 < Nodes(k) && Size(p, Left(t) + 1) == Halve(p, t)
  {
    LeftPlace(t - 1);
    LeftPlace(t);
    ParentOf(Left(t - 1), Left(t) + 1);
    LevelBelow(Left(t));
    LevelBelow(Left(t) + 1);
    LevelInTree(Left(t) + 1, k);
    SizeHalve(p, Left(t) + 1);
  }

  lemma EdgeFresh(p: nat, k: nat, y: nat)
    requires y < k
    ensures Left(y) + 1 < Pow2(k) && EdgeAt(p, k, FreshPool(p, k)[Left(y) := 0], y, y)
  {
    var pool := FreshPool(p, k)[Left(y) := 0];
    LeftInTree(y, k);
    forall t: nat | 1 <= t <= y ensures Left(t) + 1 < |pool| && pool[Left(t) + 1] == Halve(p, t) {
      BesideEdge(p, k, t);
      OffEdge(t, y);
    }
  }

  lemma {:induction false} OffEdge(t: nat, i: nat)
    requires t >= 1
    ensures Left(t) + 1 != Left(i)
  {
    if i >= 1 {
      var a, b := Pow2(t - 1), Pow2(i - 1);
      assert Left(t) + 1 == 2 * a && Left(i) == 2 * b - 1;
    }
  }

  /** Below the first false sum on the way up, each cell of the edge shows one child. */
  lemma {:induction false} EdgeBelow(p: nat, y: nat, i: nat)
    requires i < y && Halve(p, y) >= 1
    requires forall m: nat :: i <= m ==> !FalseSumAt(p, m, y)
    ensures Edge(p, y, i) == Halve(p, i + 1)
    decreases y - i
  {
    if i + 1 < y {
      EdgeBelow(p, y, i + 1);
      assert !FalseSumAt(p, i, y);
      HalveMono(p, i + 1, i + 2);
    } else {
      assert Pow2(1) == 2;
      assert Edge(p, y, y) == 0;
    }
  }

  /** At and above a false sum, the cells of the edge show at least what the loop took for a block. */
  lemma {:induction false} EdgeAbove(p: nat, y: nat, l: nat, i: nat)
    requires i <= l && FalseSumAt(p, l, y) && forall m: nat :: l < m ==> !FalseSumAt(p, m, y)
    ensures Edge(p, y, i) >= Pow2(y - l) * Halve(p, y)
    decreases l - i
  {
    if i == l {
      EdgeBelow(p, y, l + 1);
    } else {
      EdgeAbove(p, y, l, i + 1);
      Pow2Mono(y - l, y - i);
      Monotone(Halve(p, y), Pow2(y - l), Pow2(y - i));
    }
  }

  /** The false sum nearest to the level where the repair starts. */
  lemma {:induction false} Nearest(p: nat, y: nat, l: nat) returns (m: nat)
    requires FalseSumAt(p, l, y)
    ensures l <= m && FalseSumAt(p, m, y) && forall i: nat :: m < i ==> !FalseSumAt(p, i, y)
    decreases y - l
  {
    m := l;
    if i: nat :| l < i && FalseSumAt(p, i, y) { m := Nearest(p, y, i); }
  }

  lemma {:induction false} LevelForIs(p: nat, block: nat, l: nat)
    requires block >= 1 && Halve(p, l) >= block > Halve(p, l + 1)
    ensures LevelFor(p, block) == l
  {
    HalveMono(p, 0, l);
    if l > 0 {
      HalveMono(p, 1, l);
      HalveShift(p, l);
      HalveShift(p, l + 1);
      LevelForIs(p / 2, block, l - 1);
    }
  }

  lemma {:induction false} RoundPower(e: nat, f: nat)
    requires e <= f
    ensures RoundUpFrom(Pow2(e), Pow2(f)) == Pow2(f)
    decreases f - e
  {
    Pow2Mono(e, f);
    if e < f {
      Pow2Mono(e + 1, f);
      RoundPower(e + 1, f);
    }
  }

  /** A power of two that is at least the smallest block is looked for as it is. */
  lemma RequestPower(p: nat, k: nat, f: nat)
    requires MinBlock(p, k) <= Pow2(f)
    ensures Request(p, k, Pow2(f)) == Pow2(f)
  {
    RoundPower(0, f);
  }

  /** The first request of the colliding run: the size of level `y`, which is one or two. */
  lemma {:induction false} FirstRequest(p: nat, k: nat, l: nat, y: nat) returns (f: nat)
    requires y < k && FalseSumAt(p, l, y)
    ensures Halve(p, y) == Pow2(f) && Request(p, k, Pow2(f)) == Pow2(f) && LevelFor(p, Pow2(f)) == y
  {
    SmallSum(p, l, y);
    f := if Halve(p, y) == 1 then 0 else 1;
    assert Pow2(1) == 2;
    HalveMono(p, y + 1, k);
    RequestPower(p, k, f);
    LevelForIs(p, Pow2(f), y);
  }

  /** The second: what the loop takes for the block of level `l`. */
  lemma {:induction false} SecondRequest(p: nat, k: nat, l: nat, y: nat, f: nat) returns (g: nat)
    requires y < k && FalseSumAt(p, l, y) && Halve(p, y) == Pow2(f)
    ensures Pow2(g) == Pow2(y - l) * Halve(p, y) && Request(p, k, Pow2(g)) == Pow2(g) && LevelFor(p, Pow2(g)) == l
  {
    g := y - l + f;
    Pow2Add(y - l, f);
    LoopSize(p, l, y);
    HalveMono(p, l + 2, y);
    HalveMono(p, y + 1, k);
    Monotone(Halve(p, y), 1, Pow2(y - l));
    RequestPower(p, k, g);
    LevelForIs(p, Pow2(g), l);
  }

  /** The state after the first request: the leftmost block of level `y` is live. */
  lemma EdgeState(p: nat, k: nat, y: nat, f: nat) returns (t: PoolState)
    requires y < k && Halve(p, y) == Pow2(f) && Request(p, k, Pow2(f)) == Pow2(f) && LevelFor(p, Pow2(f)) == y
    ensures Next(p, k, PoolState(FreshPool(p, k), {}), Get(Pow2(f)), t)
    ensures t.live == {Left(y)} && EdgeAt(p, k, t.pool, y, 0)
  {
    var pool := FreshPool(p, k);
    forall i: nat | 0 <= i <= y ensures Left(i) + 1 < |pool| && pool[Left(i)] >= Pow2(f) {
      LeftInTree(i, k);
      LeftPlace(i);
      SizeHalve(p, Left(i));
      HalveMono(p, i, y);
    }
    assert Left(0) == 0;
    EdgeDescent(pool, Pow2(f), y, 0, 0, p);
    LeftPlace(y);
    SizeHalve(p, Left(y));
    EdgeFresh(p, k, y);
    EdgeRepaired(p, k, pool[Left(y) := 0], y, Halve(p, y), y);
    t := PoolState(Repaired(pool[Left(y) := 0], Size(p, Left(y)), Left(y)), {} + {Left(y)});
  }

  /** The second request is answered with the node of level `l` above it. */
  lemma EdgeCollides(p: nat, k: nat, l: nat, y: nat, g: nat, t: PoolState)
    requires y < k && FalseSumAt(p, l, y) && forall m: nat :: l < m ==> !FalseSumAt(p, m, y)
    requires t.live == {Left(y)} && EdgeAt(p, k, t.pool, y, 0)
    requires Pow2(g) == Pow2(y - l) * Halve(p, y) && Request(p, k, Pow2(g)) == Pow2(g) && LevelFor(p, Pow2(g)) == l
    ensures Collides(p, k, t, Pow2(g))
  {
    forall i: nat | 0 <= i <= l ensures Left(i) + 1 < |t.pool| && t.pool[Left(i)] >= Pow2(g) {
      LeftInTree(i, k);
      EdgeAbove(p, y, l, i);
    }
    assert Left(0) == 0;
    EdgeDescent(t.pool, Pow2(g), l, 0, 0, p);
    LeftUnder(l, y);
    assert Related(Left(y), Left(l));
  }

  lemma CollidingRun(p: nat, k: nat) returns (states: seq<PoolState>, acts: seq<Action>, size: nat)
    requires FalseSum(p, k)
    ensures CollidesInRun(p, k, states, acts, size)
  {
    var l0: nat, y: nat :| y < k && FalseSumAt(p, l0, y);
    var l := Nearest(p, y, l0);
    var f := FirstRequest(p, k, l, y);
    var g := SecondRequest(p, k, l, y, f);
    var t := EdgeState(p, k, y, f);
    EdgeCollides(p, k, l, y, g, t);
    states, acts, size := [PoolState(FreshPool(p, k), {}), t], [Get(Pow2(f))], Pow2(g);
  }

  /** For every pool size and number of levels: some run hands out a block that touches a live one if and
      only if the allocator has a false sum. */
  lemma OverlapIff(p: nat, k: nat)
    requires k >= 1
    ensures (exists states, acts, size :: CollidesInRun(p, k, states, acts, size)) <==> FalseSum(p, k)
  {
    if FalseSum(p, k) { var states, acts, size := CollidingRun(p, k); }
    if states, acts, size :| CollidesInRun(p, k, states, acts, size) {
      if !FalseSum(p, k) { SafeRuns(p, k, states, acts, size); }
    }
  }

  /** An allocator whose blocks split evenly has none. */
  lemma EvenHasNone(p: nat, k: nat)
    requires Even(p, k, Nodes(k))
    ensures !FalseSum(p, k)
  {
    forall l: nat, y: nat | y < k ensures !FalseSumAt(p, l, y) {
      if l + 2 <= y && Halve(p, y) >= 1 { EvenNoSum(p, k, l, y); }
    }
  }

  lemma {:induction false} EvenNoSum(p: nat, k: nat, l: nat, y: nat)
    requires Even(p, k, Nodes(k)) && l + 2 <= y < k && Halve(p, y) >= 1
    ensures Halve(p, l + 1) + Halve(p, l + 2) < Pow2(y - l) * Halve(p, y)
  {
    EvenSizes(p, k, l + 1, y);
    Doubled(y - l - 1, Halve(p, y));
    HalveMono(p, l + 1, y);
    assert Halve(p, l + 2) == Halve(p, l + 1) / 2;
  }

  lemma {:induction false} EvenSizes(p: nat, k: nat, m: nat, y: nat)
    requires Even(p, k, Nodes(k)) && m <= y < k
    ensures Halve(p, m) == Pow2(y - m) * Halve(p, y)
    decreases y - m
  {
    if m < y {
      EvenSizes(p, k, m + 1, y);
      HalveEven(p, k - 1, m);
      Doubled(y - m - 1, Halve(p, y));
    }
  }

  /** Nor has one whose smallest blocks have three bytes or more. */
  lemma LargeHasNone(p: nat, k: nat)
    requires k >= 1 && Halve(p, k - 1) >= 3
    ensures !FalseSum(p, k)
  {
    forall l: nat, y: nat | y < k ensures !FalseSumAt(p, l, y) {
      HalveMono(p, y, k - 1);
      if FalseSumAt(p, l, y) { SmallSum(p, l, y); }
    }
  }

  lemma {:induction false} SmallSum(p: nat, l: nat, y: nat)
    requires FalseSumAt(p, l, y)
    ensures Halve(p, y) <= 2
  {
    var h, e := Halve(p, l + 1), y - l - 1;
    HalveAdd(p, l + 1, e);
    HalveBounds(h, e);
    assert Pow2(y - l) == 2 * Pow2(e);
    Few(h, Pow2(e), Halve(p, y));
  }

  // ---------- the object ----------

  /** A state in which nothing has gone wrong, of an allocator in which nothing can. */
  ghost predicate Safe(p: nat, k: nat, s: PoolState) { k >= 1 && !FalseSum(p, k) && Good(p, k, s) }

  lemma SafeStart(p: nat, k: nat)
    requires k >= 1 && !FalseSum(p, k)
    ensures Safe(p, k, PoolState(FreshPool(p, k), {}))
  {
    FreshGood(p, k);
  }

  lemma SafeNext(p: nat, k: nat, s: PoolState, a: Action, t: PoolState)
    requires Safe(p, k, s) && Next(p, k, s, a, t)
    ensures Safe(p, k, t)
  {
    match a
    case Get(size) => GetGood(p, k, s, size, t);
    case Put(x) => PutGood(p, k, s, x, t);
  }

  /** What a granted request gets: a free block of the computed level, large enough and in the pool. */
  lemma SafeGrant(p: nat, k: nat, s: PoolState, size: nat)
    requires Safe(p, k, s) && s.pool[0] >= Request(p, k, size)
    ensures Grants(p, s.pool, Request(p, k, size))
    ensures var x := Target(p, s.pool, Request(p, k, size));
            && x < Nodes(k) && x + 1 < |s.pool| && Level(x) == LevelFor(p, Request(p, k, size)) && Free(s.live, x)
            && size <= Size(p, x) && Offset(p, x) + Size(p, x) <= p
  {
    GoodSearch(p, k, s, size);
    var x := Target(p, s.pool, Request(p, k, size));
    BlockForBounds(MinBlock(p, k), size);
    UnderRoot(x);
    RangeNested(p, 0, x);
  }

  ghost function StateOf(a: BuddyMemoryAllocator): PoolState
    reads a
  {
    PoolState(a.pool, a.live)
  }

  /** `allocate` takes a step, or nothing changes; no check fails. */
  method Allocated(a: BuddyMemoryAllocator, size: nat) returns (r: Allocation, ghost x: nat)
    requires a.Shape() && Safe(a.poolSize, a.numOrder, StateOf(a))
    modifies a
    ensures a.Shape() && Safe(a.poolSize, a.numOrder, StateOf(a)) && !r.CheckFailed?
    ensures r.Address? <==> Grants(a.poolSize, old(a.pool), Request(a.poolSize, a.numOrder, size))
    ensures r.Null? ==> StateOf(a) == old(StateOf(a))
    ensures r.Address? ==> Next(a.poolSize, a.numOrder, old(StateOf(a)), Get(size), StateOf(a))
    ensures r.Address? ==> x == Target(a.poolSize, old(a.pool), Request(a.poolSize, a.numOrder, size))
    ensures r.Address? ==> r.addr == Offset(a.poolSize, x) && r.addr + size <= a.poolSize
    ensures old(a.Valid()) ==> (r.Address? <==> a.AnyFree(old(a.live), size))
  {
    ghost var s := StateOf(a);
    if s.pool[0] >= Request(a.poolSize, a.numOrder, size) { SafeGrant(a.poolSize, a.numOrder, s, size); }
    r, x := a.Allocate(size);
    if r.Address? { SafeNext(a.poolSize, a.numOrder, s, Get(size), StateOf(a)); }
  }

  /** `deallocate` finds the live block by its address and size, and takes a step. */
  method Released(a: BuddyMemoryAllocator, addr: nat, size: nat, ghost x: nat)
    requires a.Shape() && Safe(a.poolSize, a.numOrder, StateOf(a)) && x in a.live && addr == Offset(a.poolSize, x)
    requires Level(x) == LevelFor(a.poolSize, Request(a.poolSize, a.numOrder, size))
    modifies a
    ensures a.Shape() && Safe(a.poolSize, a.numOrder, StateOf(a))
    ensures Next(a.poolSize, a.numOrder, old(StateOf(a)), Put(x), StateOf(a))
  {
    ghost var s := StateOf(a);
    assert Size(a.poolSize, x) >= 1;
    ghost var y := a.Deallocate(addr, size);
    assert y == x;
    SafeNext(a.poolSize, a.numOrder, s, Put(x), StateOf(a));
  }
}
