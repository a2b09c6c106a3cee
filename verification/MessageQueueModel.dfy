/** The shared-memory message queue as a transition system.  One step is one critical section of
    the queue's mutex, or one byte a producer stores into a chunk it holds; any number of
    producers and consumers take steps in any order. */
module MessageQueueModel {
  import opened ImplicitTree
  import opened BuddyTree
  import opened BuddyAllocator
  import PoolRuns

  newtype Byte = b: int | 0 <= b < 256
  type Pid = nat

  /** The block behind a chunk and the number of bytes asked for. */
  datatype Chunk = Chunk(node: nat, size: nat)

  /** `draft` records, per chunk, the bytes its own producer left in it; `sent` and `received`
      record the messages enqueued and dequeued so far. */
  datatype State = State(
    p: nat, k: nat, capacity: nat,
    free: seq<nat>, fifo: seq<nat>, producing: map<nat, Pid>, consuming: set<nat>,
    chunk: map<nat, Chunk>, alloc: PoolRuns.PoolState, mem: seq<Byte>,
    count: int, active: set<Pid>,
    draft: map<nat, seq<Byte>>, sent: seq<seq<Byte>>, received: seq<seq<Byte>>)
  {
    ghost function Block(size: nat): nat { PoolRuns.Request(p, k, size) }

    ghost function Addr(id: nat): nat
      requires id in chunk
    {
      Offset(p, chunk[id].node)
    }

    /** The bytes a consumer sees in a chunk. */
    ghost function Bytes(id: nat): seq<Byte>
      requires id in chunk && Addr(id) + chunk[id].size <= |mem|
    {
      mem[Addr(id)..Addr(id) + chunk[id].size]
    }

    /** In how many places a chunk is. */
    ghost function Homes(id: nat): nat {
      (if id in free then 1 else 0) + (if id in fifo then 1 else 0)
      + (if id in producing then 1 else 0) + (if id in consuming then 1 else 0)
    }
  }

  datatype Step =
    | Allocate(pid: Pid, size: nat)
    | Store(pid: Pid, id: nat, at: nat, byte: Byte)
    | Enqueue(pid: Pid, id: nat)
    | Dequeue
    | Release(id: nat)
    | Signal(pid: Pid)

  /** The queue after `init` and `set_preducer_count(|producers|)`. */
  ghost predicate Init(s: State, producers: set<Pid>) {
    && s.k >= 1 && !PoolRuns.FalseSum(s.p, s.k) && |s.mem| == s.p
    && s.free == seq(s.capacity, i => i) && s.fifo == [] && s.producing == map[] && s.consuming == {}
    && s.chunk == map[] && s.alloc == PoolRuns.PoolState(FreshPool(s.p, s.k), {}) && s.draft == map[]
    && s.active == producers && s.count == |producers| && s.sent == [] && s.received == []
  }

  /** `allocate` succeeds: a free chunk node and a block from the allocator. */
  ghost predicate Granted(s: State, t: State, pid: Pid, size: nat, x: nat) {
    && s.free != [] && x == PoolRuns.Target(s.p, s.alloc.pool, s.Block(size)) && Offset(s.p, x) + size <= |s.mem|
    && PoolRuns.Next(s.p, s.k, s.alloc, PoolRuns.Get(size), t.alloc)
    && var id := s.free[0];
       t == s.(free := s.free[1..], producing := s.producing[id := pid], chunk := s.chunk[id := Chunk(x, size)],
               alloc := t.alloc, draft := s.draft[id := s.mem[Offset(s.p, x)..Offset(s.p, x) + size]])
  }

  ghost predicate Next(s: State, step: Step, t: State) {
    match step
    case Allocate(pid, size) =>
      if s.free != [] && PoolRuns.Grants(s.p, s.alloc.pool, s.Block(size))
      then Granted(s, t, pid, size, PoolRuns.Target(s.p, s.alloc.pool, s.Block(size)))
      else t == s
    case Store(pid, id, at, byte) =>
      && id in s.producing && s.producing[id] == pid && id in s.chunk && id in s.draft
      && at < s.chunk[id].size && at < |s.draft[id]| && s.Addr(id) + at < |s.mem|
      && t == s.(mem := s.mem[s.Addr(id) + at := byte], draft := s.draft[id := s.draft[id][at := byte]])
    case Enqueue(pid, id) =>
      && pid in s.active && id in s.producing && s.producing[id] == pid && id in s.draft
      && t == s.(producing := s.producing - {id}, fifo := s.fifo + [id], sent := s.sent + [s.draft[id]])
    case Dequeue =>
      if s.fifo == [] then t == s
      else
        var id := s.fifo[0];
        && id in s.chunk && s.Addr(id) + s.chunk[id].size <= |s.mem|
        && t == s.(fifo := s.fifo[1..], consuming := s.consuming + {id}, received := s.received + [s.Bytes(id)])
    case Release(id) =>
      && (id in s.consuming || id in s.producing) && id in s.chunk
      && PoolRuns.Next(s.p, s.k, s.alloc, PoolRuns.Put(s.chunk[id].node), t.alloc)
      && t == s.(consuming := s.consuming - {id}, producing := s.producing - {id}, free := [id] + s.free,
                 alloc := t.alloc, chunk := s.chunk - {id}, draft := s.draft - {id})
    case Signal(pid) =>
      pid in s.active && t == s.(active := s.active - {pid}, count := s.count - 1)
  }

  // ---------- invariants ----------

  ghost predicate NoDup(s: seq<nat>) { forall i, j :: 0 <= i < j < |s| ==> s[i] != s[j] }

  /** Every chunk is in exactly one place. */
  ghost predicate OnePlace(s: State) {
    && NoDup(s.free) && NoDup(s.fifo)
    && forall id: nat :: s.Homes(id) == if id < s.capacity then 1 else 0
  }

  /** Exactly the chunks that are not free have bytes of their own. */
  ghost predicate Owners(s: State) {
    && (forall id: nat :: id in s.chunk <==> id in s.fifo || id in s.producing || id in s.consuming)
    && s.draft.Keys == s.chunk.Keys
  }

  /** The allocator's state, as its own contract describes it. */
  ghost predicate Pool(s: State) {
    |s.mem| == s.p && PoolRuns.Safe(s.p, s.k, s.alloc)
  }

  /** Each such chunk owns a live block, large enough, and no other chunk owns the same; and every live
      block is owned, so none is lost. */
  ghost predicate Blocks(s: State) {
    && (forall id :: id in s.chunk ==> OwnsBlock(s, id))
    && (forall i, j :: i in s.chunk && j in s.chunk && i != j ==> s.chunk[i].node != s.chunk[j].node)
    && (forall x :: x in s.alloc.live ==> OwnedBySome(s, x))
  }

  ghost predicate OwnedBySome(s: State, x: nat) { exists id :: id in s.chunk && s.chunk[id].node == x }

  ghost predicate OwnsBlock(s: State, id: nat)
    requires id in s.chunk
  {
    var c := s.chunk[id];
    && c.node in s.alloc.live && c.size <= Size(s.p, c.node) && Offset(s.p, c.node) + Size(s.p, c.node) <= |s.mem|
    && Level(c.node) == LevelFor(s.p, s.Block(c.size))
  }

  /** Nobody but its producer ever changed a chunk's bytes. */
  ghost predicate Intact(s: State) { forall id :: id in s.chunk ==> IntactAt(s, id) }

  ghost predicate IntactAt(s: State, id: nat)
    requires id in s.chunk
  {
    s.Addr(id) + s.chunk[id].size <= |s.mem| && id in s.draft && s.draft[id] == s.Bytes(id)
  }

  /** The messages in `ids`, in order. */
  ghost function Messages(draft: map<nat, seq<Byte>>, ids: seq<nat>): seq<seq<Byte>> {
    if ids == [] then [] else [if ids[0] in draft then draft[ids[0]] else []] + Messages(draft, ids[1..])
  }

  /** What was received, followed by what is queued, is what was sent. */
  ghost predicate InOrder(s: State) { s.sent == s.received + Messages(s.draft, s.fifo) }

  ghost predicate Inv(s: State) {
    OnePlace(s) && Owners(s) && Pool(s) && Blocks(s) && Intact(s) && InOrder(s) && s.count == |s.active|
  }

  lemma {:induction false} MessagesAppend(draft: map<nat, seq<Byte>>, a: seq<nat>, b: seq<nat>)
    ensures Messages(draft, a + b) == Messages(draft, a) + Messages(draft, b)
  {
    if a == [] {
      assert a + b == b;
    } else {
      assert (a + b)[1..] == a[1..] + b;
      MessagesAppend(draft, a[1..], b);
    }
  }

  lemma {:induction false} MessagesLocal(d: map<nat, seq<Byte>>, e: map<nat, seq<Byte>>, ids: seq<nat>)
    requires forall i :: 0 <= i < |ids| ==> (ids[i] in d <==> ids[i] in e) && (ids[i] in d ==> d[ids[i]] == e[ids[i]])
    ensures Messages(d, ids) == Messages(e, ids)
  {
    if ids != [] { MessagesLocal(d, e, ids[1..]); }
  }

  lemma InitInv(s: State, producers: set<Pid>)
    requires Init(s, producers)
    ensures Inv(s)
  {
    forall id: nat ensures id in s.free <==> id < s.capacity {
      if id < s.capacity { assert s.free[id] == id; }
    }
    PoolRuns.SafeStart(s.p, s.k);
  }

  // ---------- allocate ----------

  lemma GrantPlace(s: State, t: State, pid: Pid, size: nat, x: nat)
    requires OnePlace(s) && Owners(s) && Granted(s, t, pid, size, x)
    ensures OnePlace(t) && Owners(t) && s.free[0] !in s.chunk && s.free[0] !in s.fifo
  {
    var id := s.free[0];
    assert s.Homes(id) == 1;
    assert s.free == [id] + t.free;
    forall i: nat ensures t.Homes(i) == s.Homes(i) {}
    assert t.draft.Keys == s.draft.Keys + {id} && t.chunk.Keys == s.chunk.Keys + {id};
  }

  lemma GrantBlocks(s: State, t: State, pid: Pid, size: nat, x: nat)
    requires Pool(s) && Blocks(s) && Granted(s, t, pid, size, x) && s.free[0] !in s.chunk
    ensures Pool(t) && Blocks(t)
  {
    var id := s.free[0];
    PoolRuns.SafeGrant(s.p, s.k, s.alloc, size);
    PoolRuns.SafeNext(s.p, s.k, s.alloc, PoolRuns.Get(size), t.alloc);
    assert Under(x, x);
    forall i | i in t.chunk ensures OwnsBlock(t, i) {
      if i != id { assert OwnsBlock(s, i); }
    }
    GrantOwners(s, t, pid, size, x);
  }

  lemma GrantOwners(s: State, t: State, pid: Pid, size: nat, x: nat)
    requires Blocks(s) && Granted(s, t, pid, size, x) && s.free[0] !in s.chunk
    ensures forall y :: y in t.alloc.live ==> OwnedBySome(t, y)
  {
    var id := s.free[0];
    forall y | y in t.alloc.live ensures OwnedBySome(t, y) {
      if y == x {
        assert t.chunk[id].node == x;
      } else {
        assert OwnedBySome(s, y);
        var i :| i in s.chunk && s.chunk[i].node == y;
        assert t.chunk[i].node == y;
      }
    }
  }

  lemma GrantBytes(s: State, t: State, pid: Pid, size: nat, x: nat)
    requires Intact(s) && Granted(s, t, pid, size, x)
    ensures Intact(t)
  {
    forall id | id in t.chunk ensures IntactAt(t, id) {
      if id != s.free[0] { IntactLocal(s, t, id); }
    }
  }

  /** A chunk's bytes stay intact while its block, its draft and the memory stay the same. */
  lemma IntactLocal(s: State, t: State, id: nat)
    requires id in s.chunk && IntactAt(s, id) && t.p == s.p && t.mem == s.mem
    requires id in t.chunk && t.chunk[id] == s.chunk[id] && id in t.draft && t.draft[id] == s.draft[id]
    ensures IntactAt(t, id)
  {}

  /** Blocks stay owned while no chunk gains a block and no owned block is taken back. */
  lemma BlocksLocal(s: State, t: State)
    requires Blocks(s) && t.p == s.p && t.k == s.k && |t.mem| == |s.mem|
    requires forall id :: id in t.chunk ==>
              id in s.chunk && t.chunk[id] == s.chunk[id] && t.chunk[id].node in t.alloc.live
    requires forall x :: x in t.alloc.live ==> OwnedBySome(t, x)
    ensures Blocks(t)
  {
    forall id | id in t.chunk ensures OwnsBlock(t, id) { assert OwnsBlock(s, id); }
  }

  lemma SameOwners(s: State, t: State)
    requires Blocks(s) && t.chunk == s.chunk && t.alloc == s.alloc
    ensures forall x :: x in t.alloc.live ==> OwnedBySome(t, x)
  {
    forall x | x in t.alloc.live ensures OwnedBySome(t, x) {
      assert OwnedBySome(s, x);
      var i :| i in s.chunk && s.chunk[i].node == x;
      assert t.chunk[i].node == x;
    }
  }

  lemma AllocateInv(s: State, t: State, pid: Pid, size: nat, x: nat)
    requires Inv(s) && Granted(s, t, pid, size, x)
    ensures Inv(t)
  {
    GrantPlace(s, t, pid, size, x);
    GrantBlocks(s, t, pid, size, x);
    GrantBytes(s, t, pid, size, x);
    GrantOrder(s, t, pid, size, x);
  }

  lemma GrantOrder(s: State, t: State, pid: Pid, size: nat, x: nat)
    requires InOrder(s) && Granted(s, t, pid, size, x) && s.free[0] !in s.fifo
    ensures InOrder(t)
  {
    MessagesLocal(s.draft, t.draft, s.fifo);
  }

  // ---------- store ----------

  /** The regions of two chunks in use never overlap. */
  lemma RegionsApart(s: State, i: nat, j: nat)
    requires Pool(s) && Blocks(s) && i in s.chunk && j in s.chunk && i != j
    ensures s.Addr(i) + s.chunk[i].size <= s.Addr(j) || s.Addr(j) + s.chunk[j].size <= s.Addr(i)
  {
    assert OwnsBlock(s, i) && OwnsBlock(s, j);
    LiveApart(s.p, Nodes(s.k), s.alloc.live, s.chunk[i].node, s.chunk[j].node);
  }

  lemma StoreAt(s: State, t: State, pid: Pid, id: nat, at: nat, byte: Byte, i: nat)
    requires Next(s, Store(pid, id, at, byte), t) && i in s.chunk && IntactAt(s, i)
    requires i != id ==> s.Addr(i) + s.chunk[i].size <= s.Addr(id) || s.Addr(id) + s.chunk[id].size <= s.Addr(i)
    ensures IntactAt(t, i)
  {
    var a, z := s.Addr(i), s.Addr(i) + s.chunk[i].size;
    if i == id {
      assert s.mem[a + at := byte][a..z] == s.mem[a..z][at := byte];
    } else {
      assert s.mem[s.Addr(id) + at := byte][a..z] == s.mem[a..z];
    }
  }

  lemma StoreInv(s: State, t: State, pid: Pid, id: nat, at: nat, byte: Byte)
    requires Inv(s) && Next(s, Store(pid, id, at, byte), t)
    ensures Inv(t)
  {
    StorePlace(s, t, pid, id, at, byte);
    StoreBytes(s, t, pid, id, at, byte);
    StoreOrder(s, t, pid, id, at, byte);
  }

  lemma StoreOrder(s: State, t: State, pid: Pid, id: nat, at: nat, byte: Byte)
    requires InOrder(s) && id !in s.fifo && Next(s, Store(pid, id, at, byte), t)
    ensures InOrder(t)
  {
    MessagesLocal(s.draft, t.draft, s.fifo);
  }

  lemma StoreBytes(s: State, t: State, pid: Pid, id: nat, at: nat, byte: Byte)
    requires Pool(s) && Blocks(s) && Intact(s) && Next(s, Store(pid, id, at, byte), t)
    ensures Pool(t) && Blocks(t) && Intact(t)
  {
    forall i | i in t.chunk ensures IntactAt(t, i) {
      if i != id { RegionsApart(s, i, id); }
      StoreAt(s, t, pid, id, at, byte, i);
    }
    SameOwners(s, t);
    BlocksLocal(s, t);
  }

  lemma StorePlace(s: State, t: State, pid: Pid, id: nat, at: nat, byte: Byte)
    requires OnePlace(s) && Owners(s) && Next(s, Store(pid, id, at, byte), t)
    ensures OnePlace(t) && Owners(t) && id !in s.fifo
  {
    assert s.Homes(id) == 1;
    forall i: nat ensures t.Homes(i) == s.Homes(i) {}
    assert t.draft.Keys == s.draft.Keys;
  }

  // ---------- enqueue and dequeue ----------

  /** Steps that leave memory, blocks and drafts alone keep what is said about them. */
  lemma SameBytes(s: State, t: State)
    requires Pool(s) && Blocks(s) && Intact(s)
    requires t.p == s.p && t.k == s.k && t.mem == s.mem && t.alloc == s.alloc && t.chunk == s.chunk
    requires t.draft == s.draft
    ensures Pool(t) && Blocks(t) && Intact(t)
  {
    SameOwners(s, t);
    BlocksLocal(s, t);
    forall i | i in t.chunk ensures IntactAt(t, i) { IntactLocal(s, t, i); }
  }

  lemma EnqueuePlace(s: State, t: State, pid: Pid, id: nat)
    requires OnePlace(s) && Owners(s) && Next(s, Enqueue(pid, id), t)
    ensures OnePlace(t) && Owners(t)
  {
    assert s.Homes(id) == 1;
    forall i: nat ensures t.Homes(i) == s.Homes(i) {
      assert i in t.fifo <==> i in s.fifo || i == id;
    }
  }

  lemma EnqueueInv(s: State, t: State, pid: Pid, id: nat)
    requires Inv(s) && Next(s, Enqueue(pid, id), t)
    ensures Inv(t)
  {
    EnqueuePlace(s, t, pid, id);
    SameBytes(s, t);
    EnqueueOrder(s, t, pid, id);
  }

  lemma EnqueueOrder(s: State, t: State, pid: Pid, id: nat)
    requires InOrder(s) && Next(s, Enqueue(pid, id), t)
    ensures InOrder(t)
  {
    MessagesAppend(s.draft, s.fifo, [id]);
    assert Messages(s.draft, [id]) == [s.draft[id]];
  }

  lemma DequeuePlace(s: State, t: State)
    requires OnePlace(s) && Owners(s) && Next(s, Dequeue, t) && s.fifo != []
    ensures OnePlace(t) && Owners(t)
  {
    var id := s.fifo[0];
    assert s.Homes(id) == 1;
    assert s.fifo == [id] + t.fifo;
    forall i: nat ensures t.Homes(i) == s.Homes(i) {}
  }

  lemma DequeueInv(s: State, t: State)
    requires Inv(s) && Next(s, Dequeue, t)
    ensures Inv(t)
  {
    if s.fifo != [] {
      DequeuePlace(s, t);
      SameBytes(s, t);
      DequeueOrder(s, t);
    }
  }

  lemma DequeueOrder(s: State, t: State)
    requires InOrder(s) && Intact(s) && Next(s, Dequeue, t) && s.fifo != []
    ensures InOrder(t)
  {
    assert IntactAt(s, s.fifo[0]);
  }

  // ---------- release and signal ----------

  lemma ReleasePlace(s: State, t: State, id: nat)
    requires OnePlace(s) && Owners(s) && Next(s, Release(id), t)
    ensures OnePlace(t) && Owners(t) && id !in s.fifo
  {
    assert s.Homes(id) == 1;
    forall i: nat ensures t.Homes(i) == s.Homes(i) {
      assert i in t.free <==> i == id || i in s.free;
    }
    assert t.draft.Keys == s.draft.Keys - {id} && t.chunk.Keys == s.chunk.Keys - {id};
  }

  lemma ReleaseInv(s: State, t: State, id: nat)
    requires Inv(s) && Next(s, Release(id), t)
    ensures Inv(t)
  {
    ReleasePlace(s, t, id);
    ReleaseBytes(s, t, id);
    ReleaseOrder(s, t, id);
  }

  lemma ReleaseOrder(s: State, t: State, id: nat)
    requires InOrder(s) && id !in s.fifo && Next(s, Release(id), t)
    ensures InOrder(t)
  {
    MessagesLocal(s.draft, t.draft, s.fifo);
  }

  lemma ReleaseBytes(s: State, t: State, id: nat)
    requires Pool(s) && Blocks(s) && Intact(s) && Next(s, Release(id), t)
    ensures Pool(t) && Blocks(t) && Intact(t)
  {
    PoolRuns.SafeNext(s.p, s.k, s.alloc, PoolRuns.Put(s.chunk[id].node), t.alloc);
    forall i | i in t.chunk ensures t.chunk[i].node in t.alloc.live { assert OwnsBlock(s, i); }
    ReleaseOwners(s, t, id);
    BlocksLocal(s, t);
    forall i | i in t.chunk ensures IntactAt(t, i) { IntactLocal(s, t, i); }
  }

  lemma ReleaseOwners(s: State, t: State, id: nat)
    requires Blocks(s) && Next(s, Release(id), t)
    ensures forall x :: x in t.alloc.live ==> OwnedBySome(t, x)
  {
    forall x | x in t.alloc.live ensures OwnedBySome(t, x) {
      assert OwnedBySome(s, x);
      var i :| i in s.chunk && s.chunk[i].node == x;
      assert t.chunk[i].node == x;
    }
  }

  lemma SignalPlace(s: State, t: State, pid: Pid)
    requires OnePlace(s) && Owners(s) && Next(s, Signal(pid), t)
    ensures OnePlace(t) && Owners(t)
  {
    forall i: nat ensures t.Homes(i) == s.Homes(i) {}
  }

  lemma SignalInv(s: State, t: State, pid: Pid)
    requires Inv(s) && Next(s, Signal(pid), t)
    ensures Inv(t)
  {
    SignalPlace(s, t, pid);
    SameBytes(s, t);
  }

  /** Every step of every participant keeps the invariant. */
  lemma NextInv(s: State, step: Step, t: State)
    requires Inv(s) && Next(s, step, t)
    ensures Inv(t)
  {
    match step
    case Allocate(pid, size) =>
      if s.free != [] && PoolRuns.Grants(s.p, s.alloc.pool, s.Block(size)) {
        AllocateInv(s, t, pid, size, PoolRuns.Target(s.p, s.alloc.pool, s.Block(size)));
      }
    case Store(pid, id, at, byte) => StoreInv(s, t, pid, id, at, byte);
    case Enqueue(pid, id) => EnqueueInv(s, t, pid, id);
    case Dequeue => DequeueInv(s, t);
    case Release(id) => ReleaseInv(s, t, id);
    case Signal(pid) => SignalInv(s, t, pid);
  }

  // ---------- whole runs ----------

  ghost predicate Run(states: seq<State>, steps: seq<Step>, producers: set<Pid>) {
    && |states| == |steps| + 1 && Init(states[0], producers)
    && forall i :: 0 <= i < |steps| ==> Next(states[i], steps[i], states[i + 1])
  }

  lemma {:induction false} RunInv(states: seq<State>, steps: seq<Step>, producers: set<Pid>, n: nat)
    requires Run(states, steps, producers) && n < |states|
    ensures Inv(states[n])
  {
    if n == 0 {
      InitInv(states[0], producers);
    } else {
      RunInv(states, steps, producers, n - 1);
      NextInv(states[n - 1], steps[n - 1], states[n]);
    }
  }

  /** Messages arrive in the order sent, byte for byte: what has been received is a prefix of what
      has been sent, and the rest is still queued. */
  lemma Fifo(states: seq<State>, steps: seq<Step>, producers: set<Pid>, n: nat)
    requires Run(states, steps, producers) && n < |states|
    ensures states[n].received <= states[n].sent
    ensures |states[n].sent| == |states[n].received| + |states[n].fifo|
  {
    RunInv(states, steps, producers, n);
    MessagesLength(states[n].draft, states[n].fifo);
  }

  lemma {:induction false} MessagesLength(draft: map<nat, seq<Byte>>, ids: seq<nat>)
    ensures |Messages(draft, ids)| == |ids|
  {
    if ids != [] { MessagesLength(draft, ids[1..]); }
  }

  /** No block is lost: in every run, what the allocator has handed out is exactly what the chunks in use
      hold; with all chunks free again, nothing. */
  lemma NoLeak(states: seq<State>, steps: seq<Step>, producers: set<Pid>, n: nat)
    requires Run(states, steps, producers) && n < |states|
    ensures forall x :: x in states[n].alloc.live <==> OwnedBySome(states[n], x)
    ensures states[n].chunk == map[] ==> states[n].alloc.live == {}
  {
    RunInv(states, steps, producers, n);
    var s := states[n];
    forall x ensures x in s.alloc.live <==> OwnedBySome(s, x) {
      if OwnedBySome(s, x) {
        var id :| id in s.chunk && s.chunk[id].node == x;
        assert OwnsBlock(s, id);
      }
    }
  }

  /** Chunk `id` is queued or being consumed and holds message number `j`. */
  ghost predicate Holds(s: State, id: nat, j: nat) {
    && (id in s.fifo || id in s.consuming) && id in s.chunk && s.Addr(id) + s.chunk[id].size <= |s.mem|
    && j < |s.sent| && s.Bytes(id) == s.sent[j]
  }

  /** From its enqueue to its release, through whatever else happens in between, a chunk holds the
      message it was sent with: the next one in the order of sending. */
  lemma {:induction false} HeldBytes(states: seq<State>, steps: seq<Step>, producers: set<Pid>, m: nat, n: nat,
        pid: Pid, id: nat)
    requires Run(states, steps, producers) && m < n < |states| && steps[m] == Enqueue(pid, id)
    requires forall i :: m < i < n ==> steps[i] != Release(id)
    ensures Holds(states[n], id, |states[m].sent|)
    decreases n
  {
    if n == m + 1 {
      HeldStart(states, steps, producers, m, pid, id);
    } else {
      HeldBytes(states, steps, producers, m, n - 1, pid, id);
      RunInv(states, steps, producers, n - 1);
      RunInv(states, steps, producers, n);
      HeldNext(states[n - 1], steps[n - 1], states[n], id, |states[m].sent|);
    }
  }

  lemma HeldStart(states: seq<State>, steps: seq<Step>, producers: set<Pid>, m: nat, pid: Pid, id: nat)
    requires Run(states, steps, producers) && m + 1 < |states| && steps[m] == Enqueue(pid, id)
    ensures Holds(states[m + 1], id, |states[m].sent|)
  {
    RunInv(states, steps, producers, m + 1);
    HeldFirst(states[m], steps[m], states[m + 1], pid, id);
  }

  lemma HeldFirst(s: State, step: Step, t: State, pid: Pid, id: nat)
    requires Owners(t) && Intact(t) && Next(s, step, t) && step == Enqueue(pid, id)
    ensures Holds(t, id, |s.sent|)
  {
    assert t.fifo[|s.fifo|] == id;
    assert IntactAt(t, id);
  }

  lemma HeldNext(s: State, step: Step, t: State, id: nat, j: nat)
    requires OnePlace(s) && Owners(s) && Intact(s) && Owners(t) && Intact(t) && Next(s, step, t)
    requires Holds(s, id, j) && step != Release(id)
    ensures Holds(t, id, j)
  {
    assert IntactAt(s, id);
    DraftKept(s, step, t, id);
    SentKept(s, step, t);
    assert IntactAt(t, id);
  }

  lemma SentKept(s: State, step: Step, t: State)
    requires Next(s, step, t)
    ensures s.sent <= t.sent
  {}

  lemma DraftKept(s: State, step: Step, t: State, id: nat)
    requires OnePlace(s) && Owners(s) && Next(s, step, t) && (id in s.fifo || id in s.consuming) && step != Release(id)
    ensures id in s.draft && (id in t.fifo || id in t.consuming) && id in t.draft && t.draft[id] == s.draft[id]
  {
    assert s.Homes(id) <= 1;
    if step.Allocate? && s.free != [] { assert s.Homes(s.free[0]) == 1; }
    if step.Dequeue? && s.fifo != [] { assert s.fifo == [s.fifo[0]] + t.fifo; }
  }

  /** `dequeue` reports `closed`: nothing queued and the producer count is zero. */
  ghost predicate Closed(s: State) { s.fifo == [] && s.count == 0 }

  /** Once the count has reached zero nothing is sent any more. */
  lemma {:induction false} NothingSentLater(states: seq<State>, steps: seq<Step>, producers: set<Pid>, n: nat, m: nat)
    requires Run(states, steps, producers) && n <= m < |states| && states[n].count == 0
    ensures states[m].sent == states[n].sent && states[m].count == 0
  {
    if n < m {
      NothingSentLater(states, steps, producers, n, m - 1);
      NothingSentNext(states, steps, producers, m - 1);
    }
  }

  lemma NothingSentNext(states: seq<State>, steps: seq<Step>, producers: set<Pid>, n: nat)
    requires Run(states, steps, producers) && n < |steps| && states[n].count == 0
    ensures states[n + 1].sent == states[n].sent && states[n + 1].count == 0
  {
    CountMatches(states, steps, producers, n);
    NobodyActive(states[n], steps[n], states[n + 1]);
  }

  lemma NobodyActive(s: State, step: Step, t: State)
    requires Next(s, step, t) && s.count == |s.active| == 0
    ensures t.sent == s.sent && t.count == 0
  {
    assert s.active == {};
  }

  lemma CountMatches(states: seq<State>, steps: seq<Step>, producers: set<Pid>, n: nat)
    requires Run(states, steps, producers) && n < |states|
    ensures states[n].count == |states[n].active|
  {
    RunInv(states, steps, producers, n);
  }

  /** `closed` is reported only when every message ever sent, also later in the run, has already
      been dequeued. */
  lemma ClosedMeansDrained(states: seq<State>, steps: seq<Step>, producers: set<Pid>, n: nat, m: nat)
    requires Run(states, steps, producers) && n < |states| && m < |states| && Closed(states[n])
    ensures states[n].received == states[n].sent
    ensures states[m].sent <= states[n].received
  {
    RunInv(states, steps, producers, n);
    if n <= m {
      NothingSentLater(states, steps, producers, n, m);
    } else {
      SentGrows(states, steps, producers, m, n);
    }
  }

  lemma {:induction false} SentGrows(states: seq<State>, steps: seq<Step>, producers: set<Pid>, m: nat, n: nat)
    requires Run(states, steps, producers) && m <= n < |states|
    ensures states[m].sent <= states[n].sent
  {
    if m < n {
      SentGrows(states, steps, producers, m, n - 1);
      assert Next(states[n - 1], steps[n - 1], states[n]);
    }
  }
}
