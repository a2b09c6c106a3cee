# Verified core of cpp-learn

A Dafny model of the stateful algorithms of the cpp-learn repository, with proofs of what they are
for: the red-black tree, the buddy allocator, the shared-memory message queue built on it, the lazy
segment tree, the double Fenwick tree, union-find, Bellman-Ford, streaming MD5, the thread pool, and
the KMP prefix function and automaton.  `dafny verify dfyconfig.toml` checks everything.

Each source object that updates fields is a class here, each loop is a loop, and each method is
proved against a specification on values; the lemmas are about those specifications.  Parameters
marked `ghost` name the abstract value an object stands for and take no part in the computation.

| files | source | idea of the proof |
|---|---|---|
| `RBNodes`, `RBShape`, `RBSteps`, `RBTree` | red_black_tree.h | nodes live in a map from references to cells, one map update per pointer assignment, with the sentinel at `NIL`; a ghost zipper (subtree under the cursor, context around it) follows the fixup cursor; the erase loop carries "one black short at the cursor" |
| `ImplicitTree`, `BuddyTree`, `BuddyAllocator`, `UnevenPool`, `PoolRuns` | buddy_memory_allocator.cc | `PoolOf(live)` gives the whole array as a function of the set of live nodes; `update_pool` restores it bottom-up; `UnevenPool` and `PoolRuns` are about pool sizes that do not split evenly, in one call and over whole runs |
| `MessageQueueModel`, `MessageQueue` | shm_msg_queue.cc | a transition system over critical sections and single stored bytes, any number of producers and consumers; the intrusive lists and the allocator object refine it step by step |
| `Sums`, `SegmentTree` | segment_tree.h | a node holds the sum of its range short of what its ancestors' tags still owe |
| `Bits`, `Fenwick` | binary_index_tree.h | the upward chain from `i` meets exactly the cells that cover `i`; children tile their parent |
| `UnionFind` | UFS.h | ghost ranks bounded by class sizes; connection is defined by paths over the joined pairs |
| `Walks`, `BellmanFord` | bellman_ford.h | walks all of whose prefixes weigh less than INT32_MAX, which is what the code can see; lassos for negative cycles |
| `Bits`, `Md5Spec`, `Md5Sine`, `Md5Examples`, `Md5Words`, `Md5` | md5.cc | `Md5Spec` is RFC 1321 on 32-bit words, with its table of constants derived from the sine series and one digest of the standard's test suite worked out; the 64-bit words of the source are compared by their lower halves |
| `ThreadPool` | thread_pool.cc | a transition system with notifications as separate steps, an invariant counting attention, and a budget that every internal step spends |
| `Kmp` | kmp.h | borders of prefixes; the automaton state is the longest pattern prefix that ends the text |

Notes on what the code does where its comments or its callers suggest otherwise:

- Fenwick `init` adds to what is there: on a tree that stood for an array it represents the input
  exactly when that array was zero as far as the input goes, and building twice is a failing case
  (`Fenwick.BinaryIndexTree.Init`, `Fenwick.InitTwice`).
- Segment tree `init` keeps old tags: it represents the input exactly when none is pending, and after
  any non-zero addition to the whole of two or more elements it does not
  (`SegmentTree.BuiltIffNoTags`, `SegmentTree.InitAgain`).
- `init_pool` halves block sizes rounding down and `update_pool` doubles them going up, so on pools that
  do not split evenly two things can go wrong.
  - Capacity is lost: a block of a fresh pool that is handed out and freed leaves the array as it was if
    and only if the pool size was halved evenly down to the block's level (`UnevenPool.ReturnedIff`);
    with three bytes in two levels the root goes from 3 to 2 (`UnevenPool.ThreeBytes`).  From any array,
    it is restored if and only if the block's cell showed its size and the cells above were as the
    repair leaves them (`BuddyAllocator.RestoredIff`).
  - Live blocks are handed out again: with six bytes in three levels, after one byte is taken the root
    shows 1 + 3 = 4, and a request for four bytes gets the whole pool (`UnevenPool.Overlap`).  Some run
    does this if and only if the sizes of two neighbouring levels add up to what a repair from further
    down takes for a block of the level above them (`PoolRuns.OverlapIff`).  Evenly split pools have no such sum
    (`PoolRuns.EvenHasNone`), nor have pools whose smallest blocks have three bytes or more
    (`PoolRuns.LargeHasNone`).  Where there is none, no run hands out a live block and no CHECK_GE fails
    (`PoolRuns.SafeRuns`).
- The queue's `init` picks the number of allocator levels by repeated halving down to 512 bytes, so none
  of its buffers ever hands out a live block (`MessageQueue.NeverOverlaps`), and the queue's proofs hold
  for every buffer.  Capacity can be lost: all blocks come back without trace exactly under the condition
  of `MessageQueue.InitSplits` (`MessageQueue.InitRestores`), and 1025 megabytes is the first size to
  fail it.
- Bellman-Ford cannot see walks that reach INT32_MAX.  Its verdict is right if and only if, when some
  negative cycle is reachable, some negative cycle has all its vertices seen; and without negative cycles
  its answers are the distances if and only if every reachable vertex is nearer than INT32_MAX
  (`BellmanFord.RightOutcome`).  `BellmanFord.HeavyEdge` and `BellmanFord.HiddenCycle` are failing graphs,
  and a bound on the weights rules both out (`BellmanFord.BoundedOutcome`).
- A second call of Bellman-Ford on the same object starts from the old answers.  Without
  a cycle, its answers are right if and only if for every old answer some walk from the new start is no
  heavier (`BellmanFord.DominatedOutcome`, with `BellmanFord.RunTwice` as a failing case); its verdict is right whenever the first call returned
  false (`BellmanFord.SecondVerdict`).
- The thread pool takes every task if and only if none is handed over after the last worker has
  returned; those that are stay in the queue for good (`ThreadPool.EveryTaskOnce`,
  `ThreadPool.LateTaskIsLost`, with `ThreadPool.LateRun` as the smallest such run that has a worker).
  Tasks handed over between the stop and that moment are still taken.
- The automaton is right for every pattern, not only lowercase ones; texts are lowercase.
- The comment above the new node in red-black `insert` calls it black; the code makes it red.

## Model

| member | source | states |
|---|---|---|
| RedBlackTree.RBTree.Insert | cpp/datastructure/tree/red_black_tree.h:98-140 | the tree means the old map updated at the key, also when the key was present and is erased and reinserted; order, black root, no red-red edge, equal black heights, parent links and the black sentinel are kept, and the recursion ends |
| RedBlackTree.RBTree.FindPlace | cpp/datastructure/tree/red_black_tree.h:99-115 | the search stops at the node with the key exactly when the key is present, and otherwise at the one empty place where it belongs |
| RedBlackTree.RBTree.InsertNew | cpp/datastructure/tree/red_black_tree.h:117-140 | attaching a red node at that place and fixing up yields a valid tree with the key added |
| RedBlackTree.RBTree.AttachNew | cpp/datastructure/tree/red_black_tree.h:118-136 | the new node hangs on the side the key comparison picks; the only possible violation is red below red |
| RedBlackTree.RBTree.InsertFixup | cpp/datastructure/tree/red_black_tree.h:235-324 | the loop ends with a balanced tree of the same entries in the same order |
| RedBlackTree.RBTree.InsertPassLeft | cpp/datastructure/tree/red_black_tree.h:247-292 | one pass keeps the loop invariant and the entries, and comes closer to the root or turns an inner grandchild into an outer one |
| RedBlackTree.RBTree.InsertPassRight | cpp/datastructure/tree/red_black_tree.h:302-319 | the mirrored pass |
| RedBlackTree.RBTree.RecolorFamily | cpp/datastructure/tree/red_black_tree.h:250-264 | a red uncle moves the violation two levels up |
| RedBlackTree.RBTree.Erase | cpp/datastructure/tree/red_black_tree.h:143-231 | removes exactly the given key, reports whether it was there, and keeps every invariant |
| RedBlackTree.RBTree.Unlink | cpp/datastructure/tree/red_black_tree.h:176-221 | the entries without the erased one remain in order; the parent link of the start node is right even if it is the sentinel; only a missing black node unbalances |
| RedBlackTree.RBTree.UnlinkInner | cpp/datastructure/tree/red_black_tree.h:193-221 | the same when both children exist: the successor takes over place, subtrees and colour |
| RedBlackTree.RBTree.DetachMinimum | cpp/datastructure/tree/red_black_tree.h:209-213 | the successor is cut out of the right subtree and takes that subtree over |
| RedBlackTree.RBTree.Supplant | cpp/datastructure/tree/red_black_tree.h:215-220 | the successor replaces the erased node |
| RedBlackTree.RBTree.Transplant | cpp/datastructure/tree/red_black_tree.h:151-165 | refills the place of one subtree with another and writes the parent link, of the sentinel too |
| RedBlackTree.RBTree.TreeMinimum | cpp/datastructure/tree/red_black_tree.h:168-174 | reaches the leftmost node |
| RedBlackTree.RBTree.EraseFixup | cpp/datastructure/tree/red_black_tree.h:328-423 | repays the missing black node, keeps the entries, and ends although case 3 goes round the loop again |
| RedBlackTree.RBTree.ErasePassLeft | cpp/datastructure/tree/red_black_tree.h:348-394 | one pass with a black brother keeps "one black short at the cursor" and spends rank |
| RedBlackTree.RBTree.ErasePassRight | cpp/datastructure/tree/red_black_tree.h:404-418 | the mirrored pass |
| RedBlackTree.RBTree.SettleBrotherLeft | cpp/datastructure/tree/red_black_tree.h:333-347 | a red brother is rotated away; afterwards the brother is a black node |
| RedBlackTree.RBTree.SettleBrotherRight | cpp/datastructure/tree/red_black_tree.h:397-403 | the mirrored step |
| RBShape.BrotherIsNode | cpp/datastructure/tree/red_black_tree.h:333-358 | with one black missing at the cursor, the brother is never the sentinel, and a red brother has two real children |
| RBShape.EraseNearRed | cpp/datastructure/tree/red_black_tree.h:373-378 | case 3 keeps the debt and makes the far nephew red |
| RBShape.EraseFarRed | cpp/datastructure/tree/red_black_tree.h:388-394 | case 4 repays the debt: the whole tree is balanced |
| RBShape.EraseBothBlack | cpp/datastructure/tree/red_black_tree.h:358-361 | case 2 moves the debt to the parent |
| RBShape.EraseBrotherRed | cpp/datastructure/tree/red_black_tree.h:342-347 | case 1 keeps the debt and makes the parent red |
| RBShape.InsertUncleRed | cpp/datastructure/tree/red_black_tree.h:250-264 | recolouring keeps black heights and moves the red-red edge up |
| RBShape.InsertOuter | cpp/datastructure/tree/red_black_tree.h:279-292 | the last rotation ends the violation |
| RedBlackTree.RBTree.RotateLeft | cpp/datastructure/tree/red_black_tree.h:427-450 | the stored tree is the rotated one with the same order, and the sentinel's cell, parent field included, is untouched |
| RedBlackTree.RBTree.RotateRight | cpp/datastructure/tree/red_black_tree.h:454-477 | the mirror image |
| RBNodes.Rotate | cpp/datastructure/tree/red_black_tree.h:431-449 | the pointer changes of a rotation, in either direction, turn one stored tree into the other |
| RedBlackTree.RBTree.Find | cpp/datastructure/tree/red_black_tree.h:67-79 | finds the node exactly when the key is present, with its value; 2^visits is at most (n+1)^2 on a tree of n keys |
| RBShape.LogHeight | cpp/datastructure/tree/red_black_tree.h:67-79 | no path of a red-black tree of n keys is longer than 2 log2(n+1) |
| RedBlackTree.RBTree.Empty | cpp/datastructure/tree/red_black_tree.h:65 | true exactly for the empty map |
| BuddyAllocator.BuddyMemoryAllocator.constructor | cpp/examples/buddy_memory_allocator.cc:44-61 | for every pool size and number of levels the array is the fresh one; where blocks split evenly it is that of no live block |
| BuddyAllocator.BuddyMemoryAllocator.InitPool | cpp/examples/buddy_memory_allocator.cc:44-61 | every cell gets its full block size; the smallest block size follows the source's rounding |
| BuddyAllocator.BuddyMemoryAllocator.UpdatePool | cpp/examples/buddy_memory_allocator.cc:63-81 | for every array and node, the path to the root is recomputed from the bottom up; RepairedRight and ReturnedIff say what that achieves |
| BuddyAllocator.RepairedRight | cpp/examples/buddy_memory_allocator.cc:63-81 | whatever changed at one node, afterwards the whole array is the fixed function of the live blocks |
| BuddyAllocator.RestoredIff | cpp/examples/buddy_memory_allocator.cc:63-81 | for every array and node: marking the node and giving it back restores the array if and only if its cell showed its size and the cells above were as the repair leaves them |
| UnevenPool.ReturnedIff | cpp/examples/buddy_memory_allocator.cc:44-81 | for every pool size: handing out a block of a fresh pool and taking it back restores the array, and the root, if and only if the size was halved evenly down to its level |
| UnevenPool.EvenIffReturned | cpp/examples/buddy_memory_allocator.cc:44-81 | all blocks of a fresh pool come back without trace exactly when every level splits evenly |
| UnevenPool.ThreeBytes | cpp/examples/buddy_memory_allocator.cc:44-81 | three bytes in two levels: the root goes from 3 to 2 |
| UnevenPool.Overlap | cpp/examples/buddy_memory_allocator.cc:83-135 | six bytes in three levels: the requests for one byte and for four bytes both get address 0 |
| PoolRuns.OverlapIff | cpp/examples/buddy_memory_allocator.cc:44-167 | for every pool size and number of levels: some run of requests and releases hands out a block that touches a live one if and only if the sizes of levels l + 1 and l + 2 add up to 2^(y-l) times a non-zero size of a level y, for some l and y >= l + 2 in the tree |
| PoolRuns.SafeRuns | cpp/examples/buddy_memory_allocator.cc:83-135 | where no such sum exists, in every state of every run: live blocks are disjoint, the root test alone decides, no CHECK_GE fails, and what is handed out is wholly free |
| PoolRuns.CollidingRun | cpp/examples/buddy_memory_allocator.cc:83-135 | where one exists, two requests of a fresh allocator collide |
| PoolRuns.EvenHasNone | cpp/examples/buddy_memory_allocator.cc:44-81 | evenly split pools have no such sum |
| PoolRuns.LargeHasNone | cpp/examples/buddy_memory_allocator.cc:44-81 | nor have pools whose smallest blocks have three bytes or more |
| PoolRuns.RepairSound | cpp/examples/buddy_memory_allocator.cc:63-81 | without such a sum the repair keeps every cell honest: no more than its block, nothing while it is live, at most one child while something below is, and what it promises some child keeps |
| PoolRuns.Allocated | cpp/examples/buddy_memory_allocator.cc:83-135 | `allocate` takes a step of these runs or changes nothing |
| PoolRuns.Released | cpp/examples/buddy_memory_allocator.cc:137-167 | `deallocate` finds the live block and takes a step |
| BuddyAllocator.BuddyMemoryAllocator.Allocate | cpp/examples/buddy_memory_allocator.cc:83-135 | on every pool: root test, descent and repair decide the outcome, a failing CHECK_GE included; where blocks split evenly: null exactly when no wholly free block is at least the minimum and at least the least power of two not below the request; otherwise a free block that is, whose half is not, and which has the lowest address of the free blocks of its level becomes live, and nothing else changes hands |
| BuddyAllocator.SearchSuitableBlock | cpp/examples/buddy_memory_allocator.cc:98-124 | the left-first descent over any array; it fails exactly where a CHECK_GE does |
| BuddyAllocator.SearchFinds | cpp/examples/buddy_memory_allocator.cc:92-127 | once the root test passes, every check holds and the descent ends at the chosen free block with its address |
| BuddyAllocator.FitsAtLevel | cpp/examples/buddy_memory_allocator.cc:85-95 | the root test succeeds exactly when a wholly free block of the computed level exists, and never for a request that rounds up beyond the pool |
| BuddyAllocator.BuddyMemoryAllocator.Deallocate | cpp/examples/buddy_memory_allocator.cc:137-167 | on every pool: gives back the node of that address and level, whichever is live, and repairs the path; where blocks split evenly, the array of the remaining live blocks is left |
| BuddyAllocator.BuddyMemoryAllocator.FindByAddress | cpp/examples/buddy_memory_allocator.cc:145-162 | on every pool: the descent by address reaches the one non-empty node of that level at that address, with its size |
| BuddyAllocator.LocateFinds | cpp/examples/buddy_memory_allocator.cc:145-162 | for every pool size, address and level of a non-empty node lead back to that node |
| BuddyAllocator.DescentPlace | cpp/examples/buddy_memory_allocator.cc:98-124 | whatever the array holds, the search ends at the target level with the address of the node it reaches |
| BuddyAllocator.BuddyMemoryAllocator.AllocateThenFree | cpp/examples/buddy_memory_allocator.cc:83-167 | on every pool: allocating and freeing restores the array exactly under the condition of RestoredIff; where blocks split evenly, always |
| BuddyAllocator.Coalesced | cpp/examples/buddy_memory_allocator.cc:44-58 | with no live block the array is the fresh, fully coalesced one |
| BuddyAllocator.LiveApart | cpp/examples/buddy_memory_allocator.cc:98-135 | live blocks are pairwise disjoint and inside the pool |
| BuddyTree.SplitsMultiple | cpp/examples/buddy_memory_allocator.cc:50-58 | a pool size that halves evenly d times is a multiple of 2^d |
| BuddyTree.MultipleSplits | cpp/examples/buddy_memory_allocator.cc:50-58 | and every multiple of 2^d does |
| BuddyTree.Aligned | cpp/examples/buddy_memory_allocator.cc:104-121 | blocks start at multiples of their size |
| BuddyTree.CellFull | cpp/examples/buddy_memory_allocator.cc:66-80 | a cell shows its full size exactly when nothing below it is live |
| BuddyTree.CellFinds | cpp/examples/buddy_memory_allocator.cc:66-80 | a cell of at least s has a free block of at least s below it |
| BuddyTree.CellShows | cpp/examples/buddy_memory_allocator.cc:66-80 | a free block below a cell shows in the cell |
| BuddyAllocator.RoundUpLeast | cpp/examples/buddy_memory_allocator.cc:22-28 | rounding gives the least power of two that is large enough |
| BuddyAllocator.BlockForIs | cpp/examples/buddy_memory_allocator.cc:22-32 | the block size looked for is the larger of the minimum and the least power of two not below the request, so exactly the blocks of at least both sizes will do |
| BuddyAllocator.MinBlockIs | cpp/examples/buddy_memory_allocator.cc:49-61 | the minimum is the even one of the smallest block's size and the number below it |
| BuddyAllocator.RoundedUp | cpp/examples/buddy_memory_allocator.cc:22-28 | the loop computes that rounding |
| BuddyAllocator.ComputeLevel | cpp/examples/buddy_memory_allocator.cc:34-41 | the loop computes the level for a block size |
| BuddyAllocator.LevelForBounds | cpp/examples/buddy_memory_allocator.cc:34-41 | it is the deepest level whose blocks are still large enough |
| BuddyAllocator.ComputeBlockSize | cpp/examples/buddy_memory_allocator.cc:11-20 | the loop computes the block size of a node |
| MessageQueueModel.NextInv | cpp/examples/shm_msg_queue.cc:208-311 | every step keeps: each chunk in exactly one place, one large enough live block per chunk in use and no other block live, bytes touched only by their own producer, and sent = received + queued |
| MessageQueueModel.RunInv | cpp/examples/shm_msg_queue.cc:208-311 | so every state of every run does, for every buffer in which the allocator is safe |
| MessageQueueModel.RegionsApart | cpp/examples/shm_msg_queue.cc:220-227 | regions of chunks in use never overlap |
| MessageQueueModel.Fifo | cpp/examples/shm_msg_queue.cc:70-96 | in every run the messages received, read from memory byte by byte, are a prefix of those sent, in order, and the rest is queued |
| MessageQueueModel.HeldBytes | cpp/examples/shm_msg_queue.cc:247-299 | from its enqueue to its release, through any steps of others, a chunk's bytes are the message that was sent with it, at its number in the order of sending |
| MessageQueueModel.ClosedMeansDrained | cpp/examples/shm_msg_queue.cc:283-285 | when `closed` is reported, every message of the whole run has been dequeued, given one signal per producer after its last enqueue |
| MessageQueueModel.NoLeak | cpp/examples/shm_msg_queue.cc:208-311 | in every state of every run the allocator's live blocks are exactly those the chunks in use hold; with no chunk in use none is live |
| MessageQueue.ShmMsgChunkList.constructor | cpp/examples/shm_msg_queue.cc:35-52 | all nodes are on the free list in order |
| MessageQueue.ShmMsgChunkList.AllocateNode | cpp/examples/shm_msg_queue.cc:54-62 | takes the head of the free list, or null when it is empty |
| MessageQueue.ShmMsgChunkList.DeallocateNode | cpp/examples/shm_msg_queue.cc:64-68 | pushes a held node; both lists stay acyclic and disjoint |
| MessageQueue.ShmMsgChunkList.Put | cpp/examples/shm_msg_queue.cc:70-82 | appends to the FIFO list; `tail` is its last node, null together with `head` |
| MessageQueue.ShmMsgChunkList.Pop | cpp/examples/shm_msg_queue.cc:84-96 | removes the front, or returns null when the list is empty |
| MessageQueue.SharedMemoryMessageQueue.constructor | cpp/examples/shm_msg_queue.cc:140-206 | for every buffer size: the number of levels is computed by halving and the array is fresh; with room for one block the object represents the initial state of the transition system |
| MessageQueue.NeverOverlaps | cpp/examples/shm_msg_queue.cc:105-113 | with levels halved down to 512 bytes, no buffer size lets the allocator hand out a live block |
| MessageQueue.SharedMemoryMessageQueue.TryAllocate | cpp/examples/shm_msg_queue.cc:212-232 | succeeds exactly when a node is free and the allocator grants the request, which where blocks split evenly means that one fits; otherwise the node goes back and nothing has changed |
| MessageQueue.SharedMemoryMessageQueue.AllocateStep | cpp/examples/shm_msg_queue.cc:208-245 | refines the allocate step; the caller gets the first free node, with the address and size of its block and itself as producer, exactly when a node is free and the allocator grants the request, and otherwise nothing has changed |
| MessageQueue.SharedMemoryMessageQueue.EnqueueStep | cpp/examples/shm_msg_queue.cc:247-250 | refines the enqueue step |
| MessageQueue.SharedMemoryMessageQueue.StoreStep | cpp/examples/shm_msg_queue.cc:259 | one byte of the copy refines the store step |
| MessageQueue.SharedMemoryMessageQueue.DequeueStep | cpp/examples/shm_msg_queue.cc:265-291 | refines the dequeue step: reports `ok` exactly when a message is queued, with the front chunk's address and size, and `closed` exactly in drained states |
| MessageQueue.SharedMemoryMessageQueue.ReleaseStep | cpp/examples/shm_msg_queue.cc:293-299 | refines the release step |
| MessageQueue.SharedMemoryMessageQueue.SignalStep | cpp/examples/shm_msg_queue.cc:308-311 | refines the signal step |
| MessageQueue.ComputeNumOrder | cpp/examples/shm_msg_queue.cc:105-113 | the loop counts the halvings down to the smallest block |
| MessageQueue.InitSplits | cpp/examples/shm_msg_queue.cc:140-151 | the tree built by `init` splits evenly if and only if the megabyte count has at most ten binary digits or zeros below its first ten |
| MessageQueue.InitRestores | cpp/examples/shm_msg_queue.cc:140-151 | that condition decides whether every block handed out and freed leaves the root showing the whole buffer |
| MessageQueue.FirstUnevenBuffer | cpp/examples/shm_msg_queue.cc:140-151 | that is so for every size up to 1024 megabytes and not for 1025 |
| SegmentTree.SegmentTree.Init | cpp/datastructure/tree/segment_tree.h:11-32 | a fresh tree represents the input, or zeros; with old content, the input exactly when no tag is left over; without values the arrays are only resized, so at the same size nothing changes |
| SegmentTree.SegmentTree.Build | cpp/datastructure/tree/segment_tree.h:19-29 | every node below the root built gets the sum of its range, nothing else changes |
| SegmentTree.BuiltIffNoTags | cpp/datastructure/tree/segment_tree.h:11-32 | freshly built sums represent the array if and only if no inner tag is pending |
| SegmentTree.InitAgain | cpp/datastructure/tree/segment_tree.h:11-32 | after an addition of any non-zero value to the whole of two or more elements, a second `init` does not represent its input |
| SegmentTree.SegmentTree.RangeAdd | cpp/datastructure/tree/segment_tree.h:64-82 | the represented array changes by the value on exactly [l, r]; an addition to the whole range leaves a tag at the root |
| SegmentTree.SegmentTree.RangeAddFrom | cpp/datastructure/tree/segment_tree.h:66-79 | the same below any node, with nothing outside its subtree touched |
| SegmentTree.SegmentTree.RangeSum | cpp/datastructure/tree/segment_tree.h:37-62 | the exact sum of the represented array, which the push-downs leave as it was |
| SegmentTree.SegmentTree.RangeSumFrom | cpp/datastructure/tree/segment_tree.h:39-59 | the sum over the part of the range below any node |
| SegmentTree.SegmentTree.Maintain | cpp/datastructure/tree/segment_tree.h:116-128 | pushing a tag down changes neither the represented array nor anything outside the subtree |
| SegmentTree.PlacedRoot | cpp/datastructure/tree/segment_tree.h:12-31 | for every n >= 1 all node indices reached are below 4n |
| Fenwick.BinaryIndexTree.constructor | cpp/datastructure/tree/binary_index_tree.h:15-18 | represents zeros |
| Fenwick.BinaryIndexTree.Init | cpp/datastructure/tree/binary_index_tree.h:21-36 | the linear build represents the input if and only if the resized trees were zero before, that is, if the array they stood for was zero as far as the input goes |
| Fenwick.BuiltIffZero | cpp/datastructure/tree/binary_index_tree.h:26-35 | passing each finished cell to the next one up its chain makes every cell the sum of its interval, if and only if it started from zeros |
| Fenwick.ZeroResized | cpp/datastructure/tree/binary_index_tree.h:21-24 | trees that stand for an array, cut or extended, are zero exactly when the array is up to there |
| Fenwick.InitTwice | cpp/datastructure/tree/binary_index_tree.h:21-36 | building [5] twice does not represent [5] |
| Fenwick.BinaryIndexTree.RangeUpdate | cpp/datastructure/tree/binary_index_tree.h:54-66 | adds on exactly [l, r] of the represented array |
| Fenwick.BinaryIndexTree.UpdateFrom | cpp/datastructure/tree/binary_index_tree.h:55-63 | adds from a position on; positions below 1 count as 1 |
| Fenwick.BinaryIndexTree.Climb | cpp/datastructure/tree/binary_index_tree.h:58-62 | the upward chain changes exactly the cells whose interval contains its start, in p passes with 2^p at most twice the size |
| Fenwick.ChainStep | cpp/datastructure/tree/binary_index_tree.h:58-62 | between two stops of the chain no cell covers its start |
| Fenwick.BinaryIndexTree.Query | cpp/datastructure/tree/binary_index_tree.h:43-50 | reads one element i, in p passes with 2^p at most i + 1 |
| Fenwick.BinaryIndexTree.RangeSum | cpp/datastructure/tree/binary_index_tree.h:74-85 | the plain sum of [l, r] |
| Fenwick.PrefixQuery | cpp/datastructure/tree/binary_index_tree.h:75-82 | the downward chain adds up a prefix, in p passes with 2^p at most its length + 1 |
| Fenwick.PrefixFormula | cpp/datastructure/tree/binary_index_tree.h:83-84 | prefix sums of an array from two prefix sums of its differences |
| Fenwick.LowbitBits | cpp/datastructure/tree/binary_index_tree.h:90 | `i & -i` on 64-bit words equals the arithmetic lowest bit, for every non-zero word |
| UnionFind.UF.constructor | cpp/datastructure/search/UFS.h:11-14 | no pair joined, every element its own class |
| UnionFind.UF.FindAndSet | cpp/datastructure/search/UFS.h:20-22 | returns the root; compression changes neither roots nor who has which |
| UnionFind.UF.UnitRoots | cpp/datastructure/search/UFS.h:25-43 | joining the roots of two elements gives the state of the pairs with these two added: roots, class sizes, count and rank bounds |
| UnionFind.UF.FindAndUnit | cpp/datastructure/search/UFS.h:35-43 | true exactly when no path over earlier pairs connected the two; afterwards sharing a root, sizes and count agree with the pairs including this one |
| UnionFind.UF.Count | cpp/datastructure/search/UFS.h:17 | the number of connected components of the pairs given so far |
| UnionFind.CountsComponents | cpp/datastructure/search/UFS.h:17-43 | roots and components correspond one to one |
| UnionFind.ShortChain | cpp/datastructure/search/UFS.h:20-32 | a root's size is that of its component, and no father chain is longer than log2 of it, compression included |
| UnionFind.MergedAgrees | cpp/datastructure/search/UFS.h:25-43 | merging the classes of two elements is exactly connecting them by a pair |
| UnionFind.Compress | cpp/datastructure/search/UFS.h:20-22 | pointing an element at its root changes no root and lengthens no chain |
| BellmanFord.BellmanFord.Run | cpp/algorithm/lib/graph/bellman_ford.h:20-44 | for every graph, on a fresh object: true exactly when a negative cycle lies on a walk whose prefixes all weigh less than INT32_MAX; otherwise each answer is the least weight of such a walk, or INT32_MAX if there is none; whatever the verdict, each finite answer is the weight of such a walk and no answer exceeds one of at most n edges; on a used object the same for walks that start from any old answer or from zero at the start |
| BellmanFord.BellmanFord.Rounds | cpp/algorithm/lib/graph/bellman_ford.h:23-43 | the rounds from any recorded answers, as a run on the graph with one more vertex that leads to every vertex at its recorded price: verdict, and answers whatever the verdict |
| BellmanFord.ExactAway | cpp/algorithm/lib/graph/bellman_ford.h:19-44 | also after a true verdict, the answer is the least weight of a visible walk at every vertex that no visible walk through a gaining cycle reaches |
| BellmanFord.DominatedOutcome | cpp/algorithm/lib/graph/bellman_ford.h:20-44 | what a call on old answers leaves is right for its start if for every old answer some walk from there is no heavier, and without a cycle the answers are right only then |
| BellmanFord.SecondVerdict | cpp/algorithm/lib/graph/bellman_ford.h:20-44 | after a call that returned false, the verdict of the next call is right whatever its start |
| BellmanFord.RunTwice | cpp/algorithm/lib/graph/bellman_ford.h:20-44 | on one edge from 0 to 1, called for 0 and then for 1, the answer for vertex 0 is wrong |
| BellmanFord.BellmanFord.Round | cpp/algorithm/lib/graph/bellman_ford.h:24-38 | one round covers every edge by the distances before it; the flag is set exactly when something shrank |
| BellmanFord.BellmanFord.RelaxEdges | cpp/algorithm/lib/graph/bellman_ford.h:30-37 | the edges of one vertex, with the live distance of that vertex |
| BellmanFord.RightOutcome | cpp/algorithm/lib/graph/bellman_ford.h:19-44 | for every graph: the verdict agrees with reachable negative cycles if and only if, when there is one, some negative cycle has all its vertices seen; without one the answers are true distances if and only if every reachable vertex has a walk below INT32_MAX |
| BellmanFord.BoundedOutcome | cpp/algorithm/lib/graph/bellman_ford.h:19-44 | the bound n times the largest weight below INT32_MAX as a special case: true exactly when a negative cycle is reachable at all, and otherwise exact distances, INT32_MAX exactly for unreachable vertices |
| BellmanFord.QuietRound | cpp/algorithm/lib/graph/bellman_ford.h:39-40 | a round without change means exact distances and no negative cycle in sight |
| BellmanFord.RestlessRound | cpp/algorithm/lib/graph/bellman_ford.h:42-43 | a change in round n means a negative cycle |
| BellmanFord.RoundTight | cpp/algorithm/lib/graph/bellman_ford.h:23-41 | after k rounds no visible walk of k edges is lighter than its end's distance |
| BellmanFord.HeavyEdge | cpp/algorithm/lib/graph/bellman_ford.h:26-33 | an edge of weight INT32_MAX is not seen, so its end counts as unreachable though it is not |
| BellmanFord.HiddenCycle | cpp/algorithm/lib/graph/bellman_ford.h:26-33 | a reachable negative cycle behind such an edge is not reported |
| Walks.SeenCycles | cpp/algorithm/lib/graph/bellman_ford.h:24-43 | a walk the code can see shows a negative cycle if and only if all vertices of some negative cycle are seen, however heavy the way round |
| Walks.FindLightest | cpp/algorithm/lib/graph/bellman_ford.h:23-43 | without negative cycles every reachable vertex has a lightest walk |
| Walks.LightestVisible | cpp/algorithm/lib/graph/bellman_ford.h:26-33 | when all reachable vertices are nearer than INT32_MAX, lightest walks are seen |
| Walks.Shorten | cpp/algorithm/lib/graph/bellman_ford.h:23-43 | without negative cycles some walk of fewer than n edges is as light as any |
| Walks.ShortLasso | cpp/algorithm/lib/graph/bellman_ford.h:42-43 | a reachable negative cycle is met within n edges |
| Md5.Context.Update | cpp/datastructure/hash/md5.cc:265-296 | feeding a chunk to a context that absorbed m gives a context that absorbed m followed by the chunk, for every chunk; so any split of a message leads to the same place |
| Md5.Context.AbsorbedFolds | cpp/datastructure/hash/md5.cc:265-296 | the state of such a context is the compression folded over the complete blocks, and the rest is buffered |
| Md5.Context.Blocks | cpp/datastructure/hash/md5.cc:287-291 | the block loop compresses whole blocks straight from the input |
| Md5.Context.FillBlock | cpp/datastructure/hash/md5.cc:279-285 | a buffered block is completed and compressed |
| Md5.Carry | cpp/datastructure/hash/md5.cc:274-277 | the masked sum and its carry test count bytes modulo 2^32 and above |
| Md5.Context.Finish | cpp/datastructure/hash/md5.cc:306-327 | the output is the RFC 1321 digest of the bytes absorbed |
| Md5Sine.TableIsSine | cpp/datastructure/hash/md5.cc:174-252 | each of the 64 constants is the integer part of 4294967296 times abs(sin(i + 1)), for whatever values between the partial sums of fourteen and fifteen terms stand for sin(1) and cos(1) |
| Md5Sine.TableFromSeries | cpp/datastructure/hash/md5.cc:174-252 | the same from any partial sums of the two series with at least fourteen terms, which all lie there |
| Md5Examples.Vector | cpp/datastructure/hash/md5.cc:139-327 | the digest of the 62 letters and digits, a message of two blocks, is the one in section A.5 of RFC 1321 |
| Md5.LengthWords | cpp/datastructure/hash/md5.cc:311-315 | the two words formed by shifts and bitwise or on 64-bit words, and written byte by byte, are the bit count modulo 2^64, low word first, as section 3.2 of RFC 1321 asks |
| Md5.PaddedIs | cpp/datastructure/hash/md5.cc:317-321 | the bytes fed at the end are exactly the padding and length of sections 3.1 and 3.2 of RFC 1321 |
| Md5.Hash | cpp/datastructure/hash/md5.cc:332-346 | the one-shot digest, cut to four bytes for md5_32; a length that is not positive gives the digest of the empty message |
| Md5Words.Process | cpp/datastructure/hash/md5.cc:139-260 | the lower halves of the wide state go through one compression of section 3.4 of RFC 1321, whatever the upper halves hold |
| Md5Words.LowStep | cpp/datastructure/hash/md5.cc:159-172 | bits above 31 never affect bits below: the lower half of a macro step is the 32-bit operation on lower halves |
| Md5Words.LowRotate | cpp/datastructure/hash/md5.cc:159 | the masked shift macro rotates the lower half |
| Md5Words.LowAux | cpp/datastructure/hash/md5.cc:172-235 | the four definitions of F compute the functions F, G, H and I of the standard |
| Md5Words.RowAgrees | cpp/datastructure/hash/md5.cc:174-252 | word order, shifts and constants of the 64 macro calls are those of the standard |
| Md5Words.Round1 | cpp/datastructure/hash/md5.cc:174-189 | sixteen calls with rotating registers are the first sixteen operations |
| Md5Words.Round2 | cpp/datastructure/hash/md5.cc:195-210 | the next sixteen |
| Md5Words.Round3 | cpp/datastructure/hash/md5.cc:216-231 | the next sixteen |
| Md5Words.Round4 | cpp/datastructure/hash/md5.cc:237-252 | the last sixteen |
| Md5Words.GetLow | cpp/datastructure/hash/md5.cc:109-113 | four bytes, low-order first |
| Md5Words.PutLow | cpp/datastructure/hash/md5.cc:117-123 | the bytes written depend on the lower half only |
| ThreadPool.StepInv | cpp/examples/thread_pool.cc:11-54 | every step, outside calls at any time included, keeps: submitted = taken + queued; while a worker sleeps, each queued task has a notification or an awake worker of its own; workers leave only after the stop; nobody sleeps past the destructor's notification |
| ThreadPool.RunInv | cpp/examples/thread_pool.cc:11-54 | so every state of every run does; the history is the run's submissions, and what is stranded is exactly what came after the last worker returned |
| ThreadPool.EveryTaskOnce | cpp/examples/thread_pool.cc:11-54 | tasks are taken once each in submission order, nested ones during shutdown included; once all workers have returned only the late tasks are missing, so all are taken if and only if none was handed over in such a state; in those runs a queued task never waits with no notification pending and nobody awake |
| ThreadPool.TasksRun | cpp/examples/thread_pool.cc:11-54 | over every run the tasks taken are, each as often, those whose calls have ended and those workers are running; once all workers have returned every taken task has run to its end, and in a timely run every submitted one |
| ThreadPool.CheckRuns | cpp/examples/thread_pool.cc:14-26 | a check on a non-empty queue leaves the worker running its front task and changes no other worker |
| ThreadPool.NoLostWakeup | cpp/examples/thread_pool.cc:18-20 | while a worker is left, a queued task has an awake worker or a pending notification |
| ThreadPool.InternalSpends | cpp/examples/thread_pool.cc:11-54 | every step of the pool's own uses up budget, and after the stop a spurious wake-up does too |
| ThreadPool.CanMove | cpp/examples/thread_pool.cc:11-54 | a pool that is not idle can take such a step |
| ThreadPool.ShutdownEnds | cpp/examples/thread_pool.cc:35-45 | after the stop, once nothing is submitted any more, at most budget many steps follow, spurious wake-ups included, and when none is left every worker has returned and every task was taken but those already stranded |
| ThreadPool.LateTaskIsLost | cpp/examples/thread_pool.cc:47-54 | a task handed over after all workers returned is never taken, in any continuation |
| ThreadPool.LateRun | cpp/examples/thread_pool.cc:35-54 | the smallest run with a worker and such a task: stop, return, task |
| ThreadPool.AfterStopRun | cpp/examples/thread_pool.cc:35-54 | a task handed over after the stop while the worker is there is taken |
| ThreadPool.StrandedStep | cpp/examples/thread_pool.cc:11-24 | a worker returns only from an empty queue, so only late submissions are ever stranded |
| ThreadPool.Pool.Push | cpp/examples/thread_pool.cc:48-51 | the critical section of Run refines the submit step |
| ThreadPool.Pool.TryTake | cpp/examples/thread_pool.cc:14-24 | the critical section of Loop refines the check step: a worker that finds tasks leaves running the front one, one that finds none returns exactly after the stop and sleeps exactly before it |
| ThreadPool.Pool.BeginStop | cpp/examples/thread_pool.cc:36-39 | the critical section of the destructor refines the stop step |
| Kmp.PrefixFunction | cpp/algorithm/string/kmp.h:8-18 | the longest proper border of every prefix, for every string |
| Kmp.FallBack | cpp/algorithm/string/kmp.h:13 | falling back to the longest border of the border skips no candidate |
| Kmp.Settle | cpp/algorithm/string/kmp.h:14-15 | the candidate that is left decides the longest border |
| Kmp.ComputeAutomaton | cpp/algorithm/string/kmp.h:20-33 | row i, letter c holds the length of the longest pattern prefix that ends the first i characters followed by c, for every pattern |
| Kmp.FillRow | cpp/algorithm/string/kmp.h:26-31 | one row from the border's earlier row |
| Kmp.StateBorder | cpp/algorithm/string/kmp.h:27-28 | on a mismatch the border's row has the same answer |
| Kmp.RunTracks | cpp/algorithm/string/kmp.h:20-33 | running the table over any lowercase text tracks the longest pattern prefix that ends it |
| Kmp.RunMatches | cpp/algorithm/string/kmp.h:20-33 | and stands in the last state exactly on texts that end with the pattern |

## Left out

- Integer widths: values are unbounded except the MD5 words and counters, INT32_MAX in Bellman-Ford and the lowest-bit trick; a sum, distance or counter that overflows its C++ type is not modelled.
- Red-black keys and values are integers; the template's other types are not modelled, nor is the destructor.
- mmap, process-shared set-up, sleeping, time-outs, glog and thread joining; each mutex section is one atomic step, and `dequeue` reports `Empty` where the source sleeps and tries again.
- cpp/examples/buddy_memory_allocator_base_object_builder.cc: the queue uses the allocator of buddy_memory_allocator.cc in its place, the same algorithm behind a relative pointer.
- Callers that free a block not handed out, allocators with no level at all, and queue clients that enqueue or release chunks they do not hold.
- `Unit` called directly on elements that are not distinct roots, which `FindAndUnit` never does.
- `SPFA`, the second class of bellman_ford.h, and `Graph`'s edge-list constructor.
- `SegmentTree::range_set`, marked unfinished in the source; `update` and `prefix_sum` of the Fenwick tree, one-line calls of what is modelled.
- Segment tree and Fenwick queries with positions outside the array, which the source does not guard against.
- Md5Sine.TableIsSine: sine at whole numbers is reached from the series at 1 by the addition theorem; the series at other points, and that they have limits, are not part of this model.
- HMAC and file declarations of md5.cc, which have no definition there; `kmp`, a declaration without a body in kmp.h.
- Md5Words.RowAgrees: the 64 macro calls pass their word, shift and constant through one table instead of repeating the literals at each call.
- Sorts, heaps, tries, bloom filters, spin lock, other graph algorithms, CRC32, the reactor and the network examples: easy members or input/output.
