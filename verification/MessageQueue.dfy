/** cpp/examples/shm_msg_queue.cc: the intrusive chunk lists and the queue built on them.  Each
    method of the queue is one critical section of its mutex, and refines one step of the
    transition system. */
module MessageQueue {
  import opened Powers
  import opened Wrappers
  import opened ImplicitTree
  import opened BuddyTree
  import opened BuddyAllocator
  import opened UnevenPool
  import PoolRuns
  import opened MessageQueueModel

  /** `data` is an offset into the byte pool; a null `next` ends a list. */
  datatype ListNode = ListNode(size: nat, data: Option<nat>, next: Option<nat>)

  ghost function NextIn(s: seq<nat>, i: nat): Option<nat> { if i + 1 < |s| then Some(s[i + 1]) else None }

  /** Following `next` from `head` visits exactly `s`, in order, and ends. */
  ghost predicate Chain(nodes: seq<ListNode>, head: Option<nat>, s: seq<nat>) {
    && head == (if s == [] then None else Some(s[0]))
    && forall i :: 0 <= i < |s| ==>
         s[i] < |nodes| && nodes[s[i]].next == NextIn(s, i)
  }

  lemma ChainTail(nodes: seq<ListNode>, head: Option<nat>, s: seq<nat>)
    requires Chain(nodes, head, s) && s != []
    ensures s[0] < |nodes| && Chain(nodes, nodes[s[0]].next, s[1..])
    ensures nodes[s[0]].next.None? <==> |s| == 1
  {
    var t := s[1..];
    assert nodes[s[0]].next == NextIn(s, 0);
    forall i | 0 <= i < |t| ensures t[i] < |nodes| && nodes[t[i]].next == NextIn(t, i) {
      assert t[i] == s[i + 1] && NextIn(t, i) == NextIn(s, i + 1);
    }
  }

  /** A list does not notice changes to nodes outside it. */
  lemma ChainFrame(nodes: seq<ListNode>, nodes': seq<ListNode>, head: Option<nat>, s: seq<nat>)
    requires Chain(nodes, head, s) && |nodes'| == |nodes|
    requires forall i :: 0 <= i < |s| ==> nodes'[s[i]].next == nodes[s[i]].next
    ensures Chain(nodes', head, s)
  {}

  lemma ChainPush(nodes: seq<ListNode>, head: Option<nat>, s: seq<nat>, node: nat)
    requires Chain(nodes, head, s) && node < |nodes| && nodes[node].next == head
    ensures Chain(nodes, Some(node), [node] + s)
  {
    var t := [node] + s;
    forall i | 0 <= i < |t| ensures t[i] < |nodes| && nodes[t[i]].next == NextIn(t, i) {
      if i > 0 { assert t[i] == s[i - 1] && NextIn(t, i) == NextIn(s, i - 1); }
    }
  }

  /** Linking the old last node to a new one appends it. */
  lemma ChainAppend(nodes: seq<ListNode>, nodes': seq<ListNode>, head: Option<nat>, s: seq<nat>, node: nat)
    requires Chain(nodes, head, s) && NoDup(s) && node < |nodes| == |nodes'| && nodes'[node].next == None
    requires forall i :: 0 <= i < |s| - 1 ==> nodes'[s[i]].next == nodes[s[i]].next
    requires s != [] ==> nodes'[s[|s| - 1]].next == Some(node)
    ensures Chain(nodes', if s == [] then Some(node) else head, s + [node])
  {
    var t := s + [node];
    forall i | 0 <= i < |t| ensures t[i] < |nodes'| && nodes'[t[i]].next == NextIn(t, i) {
      if i < |s| { assert t[i] == s[i] && nodes[s[i]].next == NextIn(s, i); }
    }
  }

  /** Both lists after the links of `put` are set. */
  lemma PutLinks(nodes: seq<ListNode>, nodes': seq<ListNode>, freeHead: Option<nat>, free: seq<nat>, head: Option<nat>,
        fifo: seq<nat>, node: nat)
    requires Chain(nodes, freeHead, free) && Chain(nodes, head, fifo) && NoDup(fifo) && node < |nodes|
    requires node !in free && node !in fifo && forall x :: x in free ==> x !in fifo
    requires |nodes'| == |nodes| && nodes'[node].next == None
    requires fifo != [] ==> nodes'[fifo[|fifo| - 1]].next == Some(node)
    requires forall i :: 0 <= i < |nodes| && i != node && (fifo == [] || i != fifo[|fifo| - 1]) ==>
              nodes'[i] == nodes[i]
    ensures Chain(nodes', freeHead, free) && Chain(nodes', if fifo == [] then Some(node) else head, fifo + [node])
    ensures NoDup(fifo + [node]) && forall x :: x in free ==> x !in fifo + [node]
  {
    assert forall i :: 0 <= i < |free| ==> free[i] in free;
    assert forall i :: 0 <= i < |fifo| ==> fifo[i] in fifo;
    ChainFrame(nodes, nodes', freeHead, free);
    ChainAppend(nodes, nodes', head, fifo, node);
  }

  /** Both lists are acyclic and disjoint, and `tail` is the last node of the FIFO list, null
      exactly when `head` is. */
  ghost predicate Lists(nodes: seq<ListNode>, freeHead: Option<nat>, free: seq<nat>, head: Option<nat>,
        tail: Option<nat>, fifo: seq<nat>) {
    && Chain(nodes, freeHead, free) && Chain(nodes, head, fifo)
    && tail == (if fifo == [] then None else Some(fifo[|fifo| - 1]))
    && NoDup(free) && NoDup(fifo) && (forall x :: x in free ==> x !in fifo)
  }

  /** The nodes after the links of `put` are set. */
  ghost function Linked(nodes: seq<ListNode>, tail: Option<nat>, node: nat): seq<ListNode>
    requires node < |nodes| && (tail.Some? ==> tail.value < |nodes|)
  {
    var last := nodes[node := nodes[node].(next := None)];
    if tail.Some? then last[tail.value := last[tail.value].(next := Some(node))] else last
  }

  lemma PutLists(nodes: seq<ListNode>, freeHead: Option<nat>, free: seq<nat>, head: Option<nat>, tail: Option<nat>,
        fifo: seq<nat>, node: nat)
    requires Lists(nodes, freeHead, free, head, tail, fifo) && node < |nodes| && node !in free && node !in fifo
    ensures tail.Some? ==> tail.value < |nodes|
    ensures Lists(Linked(nodes, tail, node), freeHead, free, if head.None? then Some(node)
              else head, Some(node), fifo + [node])
    ensures SameChunks(Linked(nodes, tail, node), nodes, None)
  {
    if fifo != [] {
      var last := fifo[|fifo| - 1];
      assert last in fifo;
    }
    PutLinks(nodes, Linked(nodes, tail, node), freeHead, free, head, fifo, node);
  }

  lemma TakeLists(nodes: seq<ListNode>, freeHead: Option<nat>, free: seq<nat>, head: Option<nat>, tail: Option<nat>,
        fifo: seq<nat>)
    requires Lists(nodes, freeHead, free, head, tail, fifo) && freeHead.Some?
    ensures free != [] && freeHead.value == free[0] < |nodes|
    ensures Lists(nodes, nodes[free[0]].next, free[1..], head, tail, fifo)
  {
    ChainTail(nodes, freeHead, free);
  }

  lemma PushLists(nodes: seq<ListNode>, freeHead: Option<nat>, free: seq<nat>, head: Option<nat>, tail: Option<nat>,
        fifo: seq<nat>, node: nat)
    requires Lists(nodes, freeHead, free, head, tail, fifo) && node < |nodes| && node !in free && node !in fifo
    ensures Lists(nodes[node := nodes[node].(next := freeHead)], Some(node), [node] + free, head, tail, fifo)
  {
    var nodes' := nodes[node := nodes[node].(next := freeHead)];
    ChainFrame(nodes, nodes', freeHead, free);
    ChainFrame(nodes, nodes', head, fifo);
    ChainPush(nodes', freeHead, free, node);
  }

  lemma DescribeLists(nodes: seq<ListNode>, freeHead: Option<nat>, free: seq<nat>, head: Option<nat>, tail: Option<nat>,
        fifo: seq<nat>, node: nat, n: ListNode)
    requires Lists(nodes, freeHead, free, head, tail, fifo) && node < |nodes| && n.next == nodes[node].next
    ensures Lists(nodes[node := n], freeHead, free, head, tail, fifo)
  {
    ChainFrame(nodes, nodes[node := n], freeHead, free);
    ChainFrame(nodes, nodes[node := n], head, fifo);
  }

  class ShmMsgChunkList {
    var nodes: seq<ListNode>
    var head: Option<nat>
    var tail: Option<nat>
    var freeListHead: Option<nat>
    ghost var free: seq<nat>
    ghost var fifo: seq<nat>

    ghost predicate Valid()
      reads this
    {
      Lists(nodes, freeListHead, free, head, tail, fifo)
    }

    constructor (capacity: nat)
      requires capacity >= 1
      ensures Valid() && free == seq(capacity, i => i) && fifo == [] && |nodes| == capacity
    {
      head, tail, freeListHead := None, None, Some(0);
      free, fifo := seq(capacity, i => i), [];
      nodes := seq(capacity, i => ListNode(0, None, None));
      new;
      for i := 0 to capacity - 1
        invariant |nodes| == capacity && head == None && tail == None && freeListHead == Some(0)
        invariant free == seq(capacity, i => i) && fifo == []
        invariant forall j :: 0 <= j < i ==> nodes[j].next == Some(j + 1)
      {
        nodes := nodes[i := ListNode(0, None, Some(i + 1))];
      }
      nodes := nodes[capacity - 1 := ListNode(0, None, None)];
    }

    method AllocateNode() returns (node: Option<nat>)
      requires Valid()
      modifies this`freeListHead, this`free
      ensures Valid()
      ensures old(free) == [] ==> node == None && free == []
      ensures old(free) != [] ==> node == Some(old(free)[0]) && free == old(free)[1..]
    {
      node := None;
      if freeListHead.Some? {
        TakeLists(nodes, freeListHead, free, head, tail, fifo);
        node := freeListHead;
        freeListHead := nodes[node.value].next;
        free := free[1..];
      }
    }

    method DeallocateNode(node: nat)
      requires Valid() && node < |nodes| && node !in free && node !in fifo
      modifies this`nodes, this`freeListHead, this`free
      ensures Valid() && free == [node] + old(free)
      ensures nodes == old(nodes)[node := old(nodes)[node].(next := old(freeListHead))]
    {
      PushLists(nodes, freeListHead, free, head, tail, fifo, node);
      nodes := nodes[node := nodes[node].(next := freeListHead)];
      freeListHead := Some(node);
      free := [node] + free;
    }

    method Put(node: nat)
      requires Valid() && node < |nodes| && node !in free && node !in fifo
      modifies this`nodes, this`head, this`tail, this`fifo
      ensures Valid() && fifo == old(fifo) + [node] && SameChunks(nodes, old(nodes), None)
    {
      PutLists(nodes, freeListHead, free, head, tail, fifo, node);
      ghost var linked := Linked(nodes, tail, node);
      nodes := nodes[node := nodes[node].(next := None)];
      if tail.Some? {
        nodes := nodes[tail.value := nodes[tail.value].(next := Some(node))];
      }
      assert nodes == linked;
      tail := Some(node);
      if head.None? {
        head := Some(node);
      }
      fifo := fifo + [node];
    }

    method Pop() returns (node: Option<nat>)
      requires Valid()
      modifies this`head, this`tail, this`fifo
      ensures Valid()
      ensures old(fifo) == [] ==> node == None && fifo == []
      ensures old(fifo) != [] ==> node == Some(old(fifo)[0]) && fifo == old(fifo)[1..]
    {
      if head.None? {
        return None;
      }
      ChainTail(nodes, head, fifo);
      node := head;
      head := nodes[node.value].next;
      if nodes[node.value].next.None? {
        tail := None;
      }
      fifo := fifo[1..];
    }

    /** Recording the block of a node the caller holds; the links stay as they are. */
    method Describe(node: nat, data: nat, size: nat)
      requires Valid() && node < |nodes|
      modifies this`nodes
      ensures Valid() && nodes == old(nodes)[node := old(nodes)[node].(data := Some(data), size := size)]
    {
      DescribeLists(nodes, freeListHead, free, head, tail, fifo, node, nodes[node].(data := Some(data), size := size));
      nodes := nodes[node := nodes[node].(data := Some(data), size := size)];
    }
  }

  // ---------- the size of the tree ----------

  /** How often `p` can be halved (rounding down) before it drops below `m`. */
  function NumOrder(p: nat, m: nat): nat
    requires m >= 1
    decreases p
  {
    if p >= m then 1 + NumOrder(p / 2, m) else 0
  }

  method ComputeNumOrder(poolSize: nat, minBlockSize: nat) returns (numOrder: nat)
    requires minBlockSize >= 1
    ensures numOrder == NumOrder(poolSize, minBlockSize)
  {
    numOrder := 0;
    var size: nat := poolSize;
    while size >= minBlockSize
      invariant numOrder + NumOrder(size, minBlockSize) == NumOrder(poolSize, minBlockSize)
      decreases size
    {
      numOrder := numOrder + 1;
      size := size / 2;
    }
  }

  lemma {:induction false} NumOrderUnits(p: nat)
    ensures NumOrder(p, 512) == NumOrder(p / 512, 1)
  {
    if p >= 512 {
      NumOrderUnits(p / 2);
      assert p / 2 / 512 == p / 512 / 2;
    }
  }

  lemma {:induction false} NumOrderShift(q: nat, e: nat)
    requires q >= 1
    ensures NumOrder(q * Pow2(e), 1) == e + NumOrder(q, 1)
  {
    if e > 0 {
      var y := q * Pow2(e - 1);
      Regroup(q, Pow2(e - 1));
      assert q * Pow2(e) == 2 * y;
      Positive(q, Pow2(e - 1));
      NumOrderTwice(y);
      NumOrderShift(q, e - 1);
    }
  }

  lemma {:induction false} NumOrderTwice(y: nat)
    requires y >= 1
    ensures NumOrder(2 * y, 1) == 1 + NumOrder(y, 1)
  {
    assert 2 * y / 2 == y;
  }

  lemma Positive(q: nat, s: nat)
    requires q >= 1 && s >= 1
    ensures q * s >= 1
  {}

  lemma {:induction false} SplitsTwice(y: nat, d: nat)
    requires d > 0
    ensures Splits(2 * y, d) <==> Splits(y, d - 1)
  {}

  lemma {:induction false} SplitsShift(q: nat, e: nat, d: nat)
    ensures Splits(q * Pow2(e), d) <==> d <= e || Splits(q, d - e)
  {
    if d > 0 && e > 0 {
      var y := q * Pow2(e - 1);
      Regroup(q, Pow2(e - 1));
      assert q * Pow2(e) == 2 * y;
      SplitsTwice(y, d);
      SplitsShift(q, e - 1, d - 1);
    }
  }

  /** What the allocator asks of a pool of `p` bytes with `k` levels. */
  ghost predicate SplitsEvenly(p: nat, k: nat) { k >= 1 && Splits(p, k - 1) }

  const MEGABYTE: nat := 0x10_0000

  /** A pool of q times 2^e bytes is halved e - 9 times more often than `q`, down to 512 = 2^9. */
  lemma {:induction false} OrderOf(q: nat, e: nat)
    requires q >= 1 && e >= 9
    ensures NumOrder(q * Pow2(e), 512) == e - 9 + NumOrder(q, 1)
  {
    NumOrderUnits(q * Pow2(e));
    Pow2Add(e - 9, 9);
    assert Pow2(9) == 512 by { assert Pow2(5) == 32; }
    Quotient(q, Pow2(e - 9));
    NumOrderShift(q, e - 9);
  }

  lemma Quotient(q: nat, s: nat)
    ensures q * (s * 512) / 512 == q * s
  {
    assert q * (s * 512) == (q * s) * 512;
  }

  lemma {:induction false} EvenOrder(q: nat, e: nat)
    requires q >= 1 && e >= 10
    ensures var p, digits := q * Pow2(e), NumOrder(q, 1);
            NumOrder(p, 512) >= 1 && (SplitsEvenly(p, NumOrder(p, 512)) <==> digits <= 10 || Splits(q, digits - 10))
  {
    OrderOf(q, e);
    SplitsShift(q, e, e - 10 + NumOrder(q, 1));
  }

  lemma {:induction false} Megabyte() returns (e: nat)
    ensures e >= 10 && Pow2(e) == MEGABYTE
  {
    e := 20;
    Kilo();
    Pow2Add(10, 10);
  }

  /** `init` sizes the tree by halving the buffer of `mb` megabytes down to 512 bytes.  The blocks
      split evenly, as the allocator needs, exactly when `mb` has at most ten binary digits or all
      digits below the first ten are zero. */
  lemma InitSplits(mb: nat)
    requires mb >= 1
    ensures var p, digits := mb * MEGABYTE, NumOrder(mb, 1);
            NumOrder(p, 512) >= 1 && (SplitsEvenly(p, NumOrder(p, 512)) <==> digits <= 10 || Splits(mb, digits - 10))
  {
    var e := Megabyte();
    EvenOrder(mb, e);
  }

  /** What the condition decides: whether every block of the tree, handed out and given back, leaves
      the root showing the whole buffer again. */
  lemma InitRestores(mb: nat)
    requires mb >= 1
    ensures var p, digits := mb * MEGABYTE, NumOrder(mb, 1);
            var k := NumOrder(p, 512);
            (forall b: nat :: b < Nodes(k) ==> Returned(p, k, b)[0] == p) <==> digits <= 10 || Splits(mb, digits - 10)
  {
    var p := mb * MEGABYTE;
    InitSplits(mb);
    EvenIffReturned(p, NumOrder(p, 512));
  }

  /** So every buffer up to 1024 megabytes splits evenly, and 1025 megabytes is the first not to. */
  lemma FirstUnevenBuffer(mb: nat)
    requires 1 <= mb <= 1025
    ensures SplitsEvenly(mb * MEGABYTE, NumOrder(mb * MEGABYTE, 512)) <==> mb < 1025
  {
    InitSplits(mb);
    Kilo();
    if mb < 1024 { FewDigits(mb, 10); } else { ManyDigits(mb, 10); FewDigits(mb, 11); }
    assert Splits(mb, 1) <==> mb % 2 == 0;
  }

  lemma Kilo()
    ensures Pow2(10) == 1024 && Pow2(11) == 2048
  {
    Pow2Add(5, 5);
    assert Pow2(5) == 32;
    assert Pow2(11) == 2 * Pow2(10);
  }

  lemma {:induction false} FewDigits(q: nat, e: nat)
    requires q < Pow2(e)
    ensures NumOrder(q, 1) <= e
  {
    if e > 0 && q > 0 { FewDigits(q / 2, e - 1); }
  }

  lemma {:induction false} ManyDigits(q: nat, e: nat)
    requires q >= Pow2(e)
    ensures NumOrder(q, 1) > e
  {
    if e > 0 { ManyDigits(q / 2, e - 1); }
  }

  /** The halving stops before blocks get small, so no buffer has a false sum: however unevenly its
      blocks split, none is handed out twice. */
  lemma NeverOverlaps(p: nat)
    requires p >= 512
    ensures NumOrder(p, 512) >= 1 && !PoolRuns.FalseSum(p, NumOrder(p, 512))
  {
    LeafSize(p, 512);
    PoolRuns.LargeHasNone(p, NumOrder(p, 512));
  }

  lemma {:induction false} LeafSize(p: nat, m: nat)
    requires p >= m >= 1
    ensures NumOrder(p, m) >= 1 && Halve(p, NumOrder(p, m) - 1) >= m
  {
    if p / 2 >= m {
      LeafSize(p / 2, m);
      HalveShift(p, NumOrder(p, m) - 1);
    }
  }

  /** The allocator answers a request for `size` bytes with a block. */
  ghost predicate Grantable(p: nat, k: nat, pool: seq<nat>, size: nat) {
    PoolRuns.Grants(p, pool, PoolRuns.Request(p, k, size))
  }

  datatype Status = Ok | Closed | Empty

  /** The two node arrays agree except on links, and on the block of node `but`. */
  ghost predicate SameChunks(a: seq<ListNode>, b: seq<ListNode>, but: Option<nat>) {
    |a| == |b| && forall i :: 0 <= i < |a| && but != Some(i) ==> a[i].data == b[i].data && a[i].size == b[i].size
  }

  /** The head of a list is in no list once it is taken off. */
  lemma FirstTaken(f: seq<nat>, rest: seq<nat>, fifo: seq<nat>)
    requires f != [] && rest == f[1..] && NoDup(f) && (forall x :: x in f ==> x !in fifo)
    ensures f == [f[0]] + rest && f[0] !in rest && f[0] !in fifo
  {
    assert f[0] in f;
  }

  class SharedMemoryMessageQueue {
    const list: ShmMsgChunkList
    const allocator: BuddyMemoryAllocator
    var activeProducers: int
    var buffer: seq<Byte>

    ghost predicate Valid()
      reads this, list, allocator
    {
      && list.Valid() && allocator.Shape()
      && PoolRuns.Safe(allocator.poolSize, allocator.numOrder, PoolRuns.StateOf(allocator))
    }

    /** The queue's lists, counter, bytes and allocator are those of the abstract state. */
    ghost predicate Represents(s: State)
      reads this, list, allocator
    {
      && list.free == s.free && list.fifo == s.fifo && |list.nodes| == s.capacity
      && PoolRuns.StateOf(allocator) == s.alloc && allocator.poolSize == s.p && allocator.numOrder == s.k
      && activeProducers == s.count && buffer == s.mem && Described(list.nodes, s)
    }

    /** The queue after `init` and `set_preducer_count(count)`, for every buffer with room for a block. */
    constructor (capacity: nat, bytes: seq<Byte>, count: nat)
      requires capacity >= 1
      ensures fresh(list) && fresh(allocator) && list.Valid()
      ensures allocator.poolSize == |bytes| && allocator.numOrder == NumOrder(|bytes|, 512)
      ensures PoolRuns.StateOf(allocator) == PoolRuns.PoolState(FreshPool(|bytes|, NumOrder(|bytes|, 512)), {})
      ensures |bytes| >= 512 ==> Valid()
      ensures forall s, producers ::
                (&& Init(s, producers) && s.p == |bytes| && s.k == NumOrder(|bytes|, 512) && s.capacity == capacity
                 && s.mem == bytes && |producers| == count)
                ==> Represents(s)
    {
      list := new ShmMsgChunkList(capacity);
      var numOrder := ComputeNumOrder(|bytes|, 512);
      allocator := new BuddyMemoryAllocator(|bytes|, numOrder);
      activeProducers := -1;
      buffer := bytes;
      new;
      activeProducers := count;
      if |bytes| >= 512 {
        NeverOverlaps(|bytes|);
        PoolRuns.SafeStart(|bytes|, numOrder);
      }
    }

    // ---------- the critical sections ----------

    /** One attempt of `allocate`; a node taken without a block is given back.  It succeeds exactly when a
        node is free and the allocator grants the request: where blocks split evenly, when one fits. */
    method TryAllocate(size: nat) returns (id: Option<nat>, addr: nat, ghost x: nat)
      requires Valid() && size <= allocator.poolSize
      modifies list, allocator
      ensures Valid() && list.fifo == old(list.fifo)
      ensures id.Some? <==>
                old(list.free) != [] && Grantable(allocator.poolSize, allocator.numOrder, old(allocator.pool), size)
      ensures old(allocator.Valid()) && old(list.free) != [] ==>
          (id.Some? <==> allocator.AnyFree(old(allocator.live), size))
      ensures id.None? ==> list.free == old(list.free) && SameChunks(list.nodes, old(list.nodes), None)
      ensures id.None? ==> PoolRuns.StateOf(allocator) == old(PoolRuns.StateOf(allocator))
      ensures id.Some? ==> id.value == old(list.free)[0] && list.free == old(list.free)[1..]
      ensures id.Some? ==> SameChunks(list.nodes, old(list.nodes), id) && Assigned(id.value, size, addr)
      ensures id.Some? ==> Taken(old(PoolRuns.StateOf(allocator)), size, addr, x)
    {
      addr, x := 0, 0;
      ghost var f := list.free;
      var node := list.AllocateNode();
      if node.None? {
        return None, 0, 0;
      }
      FirstTaken(f, list.free, list.fifo);
      var ok;
      ok, addr, x := FillNode(node.value, size);
      id := if ok then node else None;
    }

    /** The allocator has taken the step for `size` bytes and given out node `x` at `addr`. */
    ghost predicate Taken(s: PoolRuns.PoolState, size: nat, addr: nat, x: nat)
      reads allocator
    {
      && PoolRuns.Next(allocator.poolSize, allocator.numOrder, s, PoolRuns.Get(size), PoolRuns.StateOf(allocator))
      && x ==
          PoolRuns.Target(allocator.poolSize, s.pool, PoolRuns.Request(allocator.poolSize, allocator.numOrder, size))
      && addr == Offset(allocator.poolSize, x) && addr + size <= allocator.poolSize
    }

    /** Node `id` records the block. */
    ghost predicate Assigned(id: nat, size: nat, addr: nat)
      reads this, list
    {
      id < |list.nodes| && list.nodes[id].data == Some(addr) && list.nodes[id].size == size
    }

    /** The rest of the attempt, once a node is taken. */
    method FillNode(node: nat, size: nat) returns (ok: bool, addr: nat, ghost x: nat)
      requires Valid() && node < |list.nodes| && node !in list.free && node !in list.fifo
      modifies list, allocator
      ensures Valid() && list.fifo == old(list.fifo)
      ensures ok <==> Grantable(allocator.poolSize, allocator.numOrder, old(allocator.pool), size)
      ensures old(allocator.Valid()) ==> (ok <==> allocator.AnyFree(old(allocator.live), size))
      ensures !ok ==> list.free == [node] + old(list.free) && SameChunks(list.nodes, old(list.nodes), None)
      ensures !ok ==> PoolRuns.StateOf(allocator) == old(PoolRuns.StateOf(allocator))
      ensures ok ==> list.free == old(list.free) && SameChunks(list.nodes, old(list.nodes), Some(node))
      ensures ok ==> Assigned(node, size, addr) && Taken(old(PoolRuns.StateOf(allocator)), size, addr, x)
    {
      var a;
      a, x := PoolRuns.Allocated(allocator, size);
      if a.Address? {
        list.Describe(node, a.addr, size);
        return true, a.addr, x;
      }
      list.DeallocateNode(node);
      return false, 0, x;
    }

    method Enqueue(id: nat)
      requires Valid() && id < |list.nodes| && id !in list.free && id !in list.fifo
      modifies list
      ensures Valid() && list.free == old(list.free) && list.fifo == old(list.fifo) + [id]
      ensures SameChunks(list.nodes, old(list.nodes), None)
    {
      list.Put(id);
    }

    /** One pass of the `dequeue` loop. */
    method TryDequeue() returns (status: Status, id: nat)
      requires Valid()
      modifies list
      ensures Valid() && list.free == old(list.free) && list.nodes == old(list.nodes)
      ensures status == Ok <==> old(list.fifo) != []
      ensures status == Closed <==> old(list.fifo) == [] && activeProducers == 0
      ensures status == Ok ==> id == old(list.fifo)[0] && list.fifo == old(list.fifo)[1..]
      ensures status != Ok ==> list.fifo == old(list.fifo)
    {
      id := 0;
      var node := list.Pop();
      if node.Some? {
        return Ok, node.value;
      }
      status := if activeProducers == 0 then Closed else Empty;
    }

    method ReleaseChunk(id: nat, ghost x: nat)
      requires Valid() && id < |list.nodes| && id !in list.free && id !in list.fifo
      requires list.nodes[id].data == Some(Offset(allocator.poolSize, x)) && x in allocator.live
      requires Level(x) == LevelFor(allocator.poolSize,
                                    PoolRuns.Request(allocator.poolSize, allocator.numOrder, list.nodes[id].size))
      modifies list, allocator
      ensures Valid() && list.free == [id] + old(list.free) && list.fifo == old(list.fifo)
      ensures PoolRuns.Next(allocator.poolSize, allocator.numOrder, old(PoolRuns.StateOf(allocator)), PoolRuns.Put(x),
                            PoolRuns.StateOf(allocator))
      ensures SameChunks(list.nodes, old(list.nodes), None)
    {
      PoolRuns.Released(allocator, list.nodes[id].data.value, list.nodes[id].size, x);
      list.DeallocateNode(id);
    }

    method SignalProducingComplete()
      modifies this`activeProducers
      ensures activeProducers == old(activeProducers) - 1
    {
      activeProducers := activeProducers - 1;
    }

    // ---------- each critical section refines a step ----------

    method AllocateStep(size: nat, ghost pid: Pid, ghost s: State) returns (id: Option<nat>, addr: nat, ghost t: State)
      requires Valid() && Represents(s) && Inv(s) && size <= s.p
      modifies list, allocator
      ensures Valid() && Represents(t) && Next(s, Allocate(pid, size), t)
      ensures id == if s.free != [] && Grantable(s.p, s.k, s.alloc.pool, size) then Some(s.free[0]) else None
      ensures id.Some? ==> id.value in t.chunk && addr == t.Addr(id.value) && t.chunk[id.value].size == size
      ensures id.Some? ==> id.value in t.producing && t.producing[id.value] == pid
      ensures id.None? ==> t == s
    {
      ghost var x, nodes;
      t, nodes := s, list.nodes;
      id, addr, x := TryAllocate(size);
      if id.None? {
        DescribedKept(nodes, list.nodes, s, s);
        return;
      }
      t := GrantStep(s, pid, size, x, PoolRuns.StateOf(allocator));
      DescribedGrant(nodes, list.nodes, s, t, pid, size, x);
    }

    method EnqueueStep(id: nat, ghost pid: Pid, ghost s: State) returns (ghost t: State)
      requires Valid() && Represents(s) && Inv(s) && pid in s.active && id in s.producing && s.producing[id] == pid
      modifies list
      ensures Valid() && Represents(t) && Next(s, MessageQueueModel.Enqueue(pid, id), t)
    {
      HeldReads(s, id);
      t := EnqueueTo(s, pid, id);
      EnqueueHeld(id, s, t);
    }

    method EnqueueHeld(id: nat, ghost s: State, ghost t: State)
      requires Valid() && Represents(s) && id < s.capacity && id !in s.free && id !in s.fifo
      requires t == s.(producing := t.producing, fifo := s.fifo + [id], sent := t.sent)
      modifies list
      ensures Valid() && Represents(t)
    {
      ghost var nodes := list.nodes;
      Enqueue(id);
      DescribedKept(nodes, list.nodes, s, t);
    }

    /** The consumer gets the chunk at the front, its address and size; `closed` means drained. */
    method DequeueStep(ghost s: State) returns (status: Status, id: nat, addr: nat, size: nat, ghost t: State)
      requires Valid() && Represents(s) && Inv(s)
      modifies list
      ensures Valid() && Represents(t) && Next(s, Dequeue, t)
      ensures status == Closed <==> MessageQueueModel.Closed(s)
      ensures status == Ok <==> s.fifo != []
      ensures status == Ok ==> id == s.fifo[0] && id in s.chunk && addr == s.Addr(id) && size == s.chunk[id].size
    {
      t, addr, size := s, 0, 0;
      status, id := TryDequeue();
      if status == Ok {
        t := DequeueTo(s);
        addr := list.nodes[id].data.value;
        size := list.nodes[id].size;
      }
    }

    method ReleaseStep(id: nat, ghost s: State) returns (ghost t: State)
      requires Valid() && Represents(s) && Inv(s) && (id in s.consuming || id in s.producing)
      modifies list, allocator
      ensures Valid() && Represents(t) && Next(s, Release(id), t)
    {
      HeldReads(s, id);
      t := s.(consuming := s.consuming - {id}, producing := s.producing - {id}, free := [id] + s.free,
              chunk := s.chunk - {id}, draft := s.draft - {id});
      ReleaseHeld(id, s, t);
      t := t.(alloc := PoolRuns.StateOf(allocator));
    }

    method ReleaseHeld(id: nat, ghost s: State, ghost t: State)
      requires Valid() && Represents(s) && id < s.capacity && id !in s.free && id !in s.fifo
      requires id in s.chunk && OwnsBlock(s, id)
      requires t == s.(consuming := t.consuming, producing := t.producing, free := [id] + s.free,
                       chunk := s.chunk - {id}, draft := t.draft)
      modifies list, allocator
      ensures Valid() && Represents(t.(alloc := PoolRuns.StateOf(allocator)))
      ensures PoolRuns.Next(s.p, s.k, s.alloc, PoolRuns.Put(s.chunk[id].node), PoolRuns.StateOf(allocator))
    {
      ghost var nodes := list.nodes;
      ReleaseChunk(id, s.chunk[id].node);
      DescribedKept(nodes, list.nodes, s, t.(alloc := PoolRuns.StateOf(allocator)));
    }

    /** One byte of the producer's memcpy into the chunk it holds. */
    method StoreStep(id: nat, at: nat, byte: Byte, ghost pid: Pid, ghost s: State) returns (ghost t: State)
      requires Represents(s) && id in s.producing && s.producing[id] == pid && id in s.chunk && at < s.chunk[id].size
      requires IntactAt(s, id)
      modifies this`buffer
      ensures Represents(t) && Next(s, Store(pid, id, at, byte), t)
    {
      ghost var a;
      a, t := StoreTo(list.nodes, s, pid, id, at, byte);
      StoreByte(list.nodes[id].data.value + at, byte, s, t);
    }

    method StoreByte(addr: nat, byte: Byte, ghost s: State, ghost t: State)
      requires Represents(s) && addr < |s.mem| && Described(list.nodes, t)
      requires t == s.(mem := s.mem[addr := byte], draft := t.draft)
      modifies this`buffer
      ensures Represents(t)
    {
      buffer := buffer[addr := byte];
    }

    method SignalStep(ghost pid: Pid, ghost s: State) returns (ghost t: State)
      requires Represents(s) && pid in s.active
      modifies this`activeProducers
      ensures Represents(t) && Next(s, Signal(pid), t)
    {
      SignalProducingComplete();
      t := s.(active := s.active - {pid}, count := s.count - 1);
    }
  }

  /** The nodes of chunks in use record the address and size of their blocks. */
  ghost predicate Described(nodes: seq<ListNode>, s: State) {
    forall id :: id in s.chunk ==>
        id < |nodes| && nodes[id].data == Some(s.Addr(id)) && nodes[id].size == s.chunk[id].size
  }

  lemma GrantStep(s: State, pid: Pid, size: nat, x: nat, alloc: PoolRuns.PoolState) returns (t: State)
    requires s.free != [] && x == PoolRuns.Target(s.p, s.alloc.pool, s.Block(size)) && Offset(s.p, x) + size <= |s.mem|
    requires PoolRuns.Next(s.p, s.k, s.alloc, PoolRuns.Get(size), alloc)
    ensures Granted(s, t, pid, size, x) && t.alloc == alloc
  {
    var id := s.free[0];
    t := s.(free := s.free[1..], producing := s.producing[id := pid], chunk := s.chunk[id := Chunk(x, size)],
            alloc := alloc, draft := s.draft[id := s.mem[Offset(s.p, x)..Offset(s.p, x) + size]]);
  }

  lemma DescribedGrant(nodes: seq<ListNode>, nodes': seq<ListNode>, s: State, t: State, pid: Pid, size: nat, x: nat)
    requires Described(nodes, s) && Granted(s, t, pid, size, x) && SameChunks(nodes', nodes, Some(s.free[0]))
    requires s.free[0] < |nodes'| && nodes'[s.free[0]].data == Some(Offset(s.p, x)) && nodes'[s.free[0]].size == size
    ensures Described(nodes', t)
  {}

  lemma DescribedKept(nodes: seq<ListNode>, nodes': seq<ListNode>, s: State, t: State)
    requires Described(nodes, s) && SameChunks(nodes', nodes, None) && t.p == s.p
    requires forall i :: i in t.chunk ==> i in s.chunk && t.chunk[i] == s.chunk[i]
    ensures Described(nodes', t)
  {}

  lemma EnqueueTo(s: State, pid: Pid, id: nat) returns (t: State)
    requires pid in s.active && id in s.producing && s.producing[id] == pid && id in s.draft
    ensures Next(s, Enqueue(pid, id), t) && t == s.(producing := t.producing, fifo := s.fifo + [id], sent := t.sent)
  {
    t := s.(producing := s.producing - {id}, fifo := s.fifo + [id], sent := s.sent + [s.draft[id]]);
  }

  lemma StoreTo(nodes: seq<ListNode>, s: State, pid: Pid, id: nat, at: nat, byte: Byte) returns (a: nat, t: State)
    requires Described(nodes, s) && id in s.producing && s.producing[id] == pid && id in s.chunk
    requires at < s.chunk[id].size && IntactAt(s, id)
    ensures Next(s, Store(pid, id, at, byte), t) && Described(nodes, t)
    ensures id < |nodes| && nodes[id].data == Some(a) && a + at < |s.mem|
    ensures t == s.(mem := s.mem[a + at := byte], draft := t.draft)
  {
    a := s.Addr(id);
    t := s.(mem := s.mem[a + at := byte], draft := s.draft[id := s.draft[id][at := byte]]);
    DescribedKept(nodes, nodes, s, t);
  }

  /** The chunk at the front can be read. */
  lemma DequeueTo(s: State) returns (t: State)
    requires Owners(s) && Intact(s) && s.fifo != []
    ensures s.fifo[0] in s.chunk && Next(s, Dequeue, t)
    ensures t == s.(fifo := s.fifo[1..], consuming := t.consuming, received := t.received)
  {
    var id := s.fifo[0];
    assert IntactAt(s, id);
    t := s.(fifo := s.fifo[1..], consuming := s.consuming + {id}, received := s.received + [s.Bytes(id)]);
  }

  /** A chunk held by a producer or a consumer is in no list and owns its block. */
  lemma HeldReads(s: State, id: nat)
    requires Inv(s) && (id in s.consuming || id in s.producing)
    ensures id < s.capacity && id in s.chunk && id in s.draft && OwnsBlock(s, id) && IntactAt(s, id) && id !in s.free
    ensures id !in s.fifo
  {
    assert s.Homes(id) == 1;
  }
}
