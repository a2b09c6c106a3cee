/** cpp/datastructure/tree/red_black_tree.h: the tree object and its operations. */
module RedBlackTree {
  import opened Powers
  import opened RBNodes
  import opened RBShape
  import opened RBSteps
  import opened Wrappers

  ghost predicate AllBelow(s: seq<Entry>, k: int) { forall i :: 0 <= i < |s| ==> s[i].key < k }
  ghost predicate AllAbove(s: seq<Entry>, k: int) { forall i :: 0 <= i < |s| ==> k < s[i].key }

  lemma {:induction false} DescendSeq(p: seq<Entry>, l: seq<Entry>, e: Entry, r: seq<Entry>, q: seq<Entry>, k: int)
    requires Sorted(p + (l + [e] + r) + q) && AllBelow(p, k) && AllAbove(q, k)
    ensures k < e.key ==> AllAbove([e] + r + q, k)
    ensures e.key < k ==> AllBelow(p + l + [e], k)
  {
    var a, b := p + l, r + q;
    assert p + (l + [e] + r) + q == a + [e] + b;
    SortedSplit(a, e, b);
    assert [e] + r + q == [e] + b;
  }

  /** Going left from a larger key, everything to the right stays larger; and mirrored. */
  lemma {:induction false} DescendOrder(f: Tree, x: Ctx, k: int)
    requires f.Node? && Sorted(All(f, x)) && AllBelow(Pre(x), k) && AllAbove(Post(x), k)
    ensures k < f.e.key ==> AllAbove([f.e] + Inorder(f.r) + Post(x), k)
    ensures f.e.key < k ==> AllBelow(Pre(x) + Inorder(f.l) + [f.e], k)
  {
    DescendSeq(Pre(x), Inorder(f.l), f.e, Inorder(f.r), Post(x), k);
  }

  /** The cursor one level down, on side `d`. */
  lemma {:induction false} Descend(h: Heap, root: Ref, f: Tree, x: Ctx, n: int, d: Side) returns (f': Tree, x': Ctx,
        n': int)
    requires At(h, root, f, x) && Balanced(f, x, n) && f.Node? && f.e.ref in h
    ensures At(h, root, f', x') && Balanced(f', x', n') && All(f', x') == All(f, x)
    ensures Pre(x') == if d.L? then Pre(x) else Pre(x) + Inorder(f.l) + [f.e]
    ensures Post(x') == if d.R? then Post(x) else [f.e] + Inorder(f.r) + Post(x)
    ensures RefOf(f') == Kid(h[f.e.ref], d) && RefOf(f') in h
    ensures f' == if d.L? then f.l else f.r
    ensures x' == Frame(d, f.c, f.e, if d.L? then f.r else f.l, x)
  {
    f' := if d.L? then f.l else f.r;
    x' := Frame(d, f.c, f.e, if d.L? then f.r else f.l, x);
    n' := n - Bk(f.c);
    Move(h, root, f', x');
    MoveBalanced(f', x', n');
    MoveAll(f', x');
  }

  /** A search for `k` in the tree with entries `s` has reached the cursor: `k` can only be here. */
  ghost predicate OnPath(h: Heap, root: Ref, s: seq<Entry>, k: int, f: Tree, x: Ctx, n: int) {
    && At(h, root, f, x) && Balanced(f, x, n) && RefOf(f) in h
    && All(f, x) == s && Sorted(s) && AllBelow(Pre(x), k) && AllAbove(Post(x), k)
  }

  lemma {:induction false} OnPathDown(h: Heap, root: Ref, s: seq<Entry>, k: int, f: Tree, x: Ctx, n: int, d: Side)
      returns (f': Tree, x': Ctx, n': int)
    requires OnPath(h, root, s, k, f, x, n) && f.Node?
    requires if d.L? then k < f.e.key else f.e.key < k
    ensures OnPath(h, root, s, k, f', x', n')
    ensures f' == (if d.L? then f.l else f.r) && RefOf(f') == Kid(h[f.e.ref], d)
    ensures x'.Frame? && x'.d == d && x'.e == f.e
  {
    DescendOrder(f, x, k);
    f', x', n' := Descend(h, root, f, x, n, d);
  }

  lemma {:induction false} OnPathHit(h: Heap, root: Ref, s: seq<Entry>, f: Tree, x: Ctx, n: int)
    requires f.Node? && OnPath(h, root, s, f.e.key, f, x, n)
    ensures f.e.key in ToMap(s) && ToMap(s)[f.e.key] == f.e.value
    ensures h[f.e.ref].value == f.e.value
  {
    var a, b := Pre(x) + Inorder(f.l), Inorder(f.r) + Post(x);
    assert All(f, x) == a + [f.e] + b;
    ToMapSplit(a, f.e, b);
  }

  /** A search that falls off the tree proves the key absent. */
  lemma {:induction false} OnPathMiss(h: Heap, root: Ref, s: seq<Entry>, k: int, x: Ctx, n: int)
    requires OnPath(h, root, s, k, Leaf, x, n)
    ensures k !in ToMap(s)
  {
    ToMapKeys(s, k);
    assert s == Pre(x) + Post(x);
  }

  /** Sorted keys, black root, no red-red edge, equal black heights, consistent parent links,
      a black sentinel, and no cell outside the tree. */
  ghost predicate ValidTree(h: Heap, root: Ref, next: Ref, t: Tree, n: int) {
    && At(h, root, t, Top)
    && Sorted(Inorder(t))
    && Balanced(t, Top, n)
    && h.Keys == Refs(t) + {NIL}
    && next > 0 && (forall r :: r in h ==> r < next)
  }

  /** What the entries without the cursor's node mean. */
  lemma {:induction false} EraseSpec(t: Tree, f: Tree, x: Ctx)
    requires f.Node? && Sep(f, x) && All(f, x) == Inorder(t) && Sorted(Inorder(t))
    ensures var s := (Pre(x) + Inorder(f.l)) + (Inorder(f.r) + Post(x));
            Sorted(s) && ToMap(s) == ToMap(Inorder(t)) - {f.e.key} && RefSet(s) == Refs(t) - {f.e.ref}
  {
    var a, b := Pre(x) + Inorder(f.l), Inorder(f.r) + Post(x);
    assert All(f, x) == a + [f.e] + b;
    SortedSplit(a, f.e, b);
    ToMapSplit(a, f.e, b);
    RefsWithout(f, x);
    RefsAll(f, x);
    RefsInorder(t);
  }

  /** What the entries with a new node at the place found mean. */
  lemma {:induction false} InsertSpec(t: Tree, x: Ctx, e: Entry)
    requires All(Leaf, x) == Inorder(t) && Sorted(Inorder(t)) && AllBelow(Pre(x), e.key) && AllAbove(Post(x), e.key)
    ensures var s := All(Node(Red, Leaf, e, Leaf), x);
            Sorted(s) && ToMap(s) == ToMap(Inorder(t))[e.key := e.value] && RefSet(s) == Refs(t) + {e.ref}
  {
    var p, q := Pre(x), Post(x);
    var f := Node(Red, Leaf, e, Leaf);
    assert Inorder(f) == [e];
    assert Inorder(t) == p + q;
    InsertSorted(p, e, q);
    ToMapSplit(p, e, q);
    RefsAll(Leaf, x);
    RefsAll(f, x);
    RefsInorder(t);
  }

  lemma {:induction false} InsertSorted(p: seq<Entry>, e: Entry, q: seq<Entry>)
    requires Sorted(p + q) && AllBelow(p, e.key) && AllAbove(q, e.key)
    ensures Sorted(p + [e] + q)
  {
    var s := p + [e] + q;
    forall i, j | 0 <= i < j < |s| ensures s[i].key < s[j].key {
      assert i < |p| ==> s[i] == p[i] == (p + q)[i];
      assert i > |p| ==> s[i] == (p + q)[i - 1];
      assert j < |p| ==> s[j] == (p + q)[j];
      assert j > |p| ==> s[j] == q[j - |p| - 1] == (p + q)[j - 1];
    }
  }

  /** A tree that gained one node at the place found is valid again and means the updated map. */
  lemma {:induction false} ValidAfterInsert(h0: Heap, r0: Ref, next: Ref, t0: Tree, n0: int,
                                            h: Heap, root: Ref, t: Tree, n: int, x: Ctx, e: Entry)
    requires ValidTree(h0, r0, next, t0, n0) && e.ref == next
    requires All(Leaf, x) == Inorder(t0) && AllBelow(Pre(x), e.key) && AllAbove(Post(x), e.key)
    requires At(h, root, t, Top) && Balanced(t, Top, n) && Inorder(t) == All(Node(Red, Leaf, e, Leaf), x)
    requires h.Keys == h0.Keys + {next}
    ensures ValidTree(h, root, next + 1, t, n)
    ensures ToMap(Inorder(t)) == ToMap(Inorder(t0))[e.key := e.value]
  {
    InsertSpec(t0, x, e);
    RefsInorder(t);
  }

  /** A tree that lost the node under the cursor is valid once that node is freed, and means the
      map without its key. */
  lemma {:induction false} ValidAfterErase(h0: Heap, r0: Ref, next: Ref, t0: Tree, n0: int,
                                           h: Heap, root: Ref, t: Tree, n: int, f: Tree, x: Ctx)
    requires ValidTree(h0, r0, next, t0, n0) && f.Node? && Sep(f, x) && All(f, x) == Inorder(t0) && f.e.ref != NIL
    requires At(h, root, t, Top) && Balanced(t, Top, n) && h.Keys == h0.Keys
    requires Inorder(t) == (Pre(x) + Inorder(f.l)) + (Inorder(f.r) + Post(x))
    ensures ValidTree(h - {f.e.ref}, root, next, t, n)
    ensures ToMap(Inorder(t)) == ToMap(Inorder(t0)) - {f.e.key}
  {
    EraseSpec(t0, f, x);
    RefsInorder(t);
    TreeFrame(h, h - {f.e.ref}, t, NIL);
  }

  /** With one child missing, what remains is the other child in the same context. */
  lemma {:induction false} AllWithout(f: Tree, x: Ctx)
    requires f.Node?
    ensures f.l.Leaf? ==> All(f.r, x) == (Pre(x) + Inorder(f.l)) + (Inorder(f.r) + Post(x))
    ensures f.r.Leaf? ==> All(f.l, x) == (Pre(x) + Inorder(f.l)) + (Inorder(f.r) + Post(x))
  {}

  /** The place found is on the side of its parent that the key comparison picks. */
  lemma {:induction false} InsertReads(h: Heap, root: Ref, x: Ctx)
    requires At(h, root, Leaf, x)
    ensures ParentOf(x) in h && (x.Frame? ==> x.e.ref != NIL && h[x.e.ref].key == x.e.key)
    ensures x.Frame? && x.d.L? ==> |Post(x)| > 0 && Post(x)[0] == x.e
    ensures x.Frame? && x.d.R? ==> |Pre(x)| > 0 && Pre(x)[|Pre(x)| - 1] == x.e
  {}

  /** With no red-red edge left, blackening the root completes the tree. */
  lemma {:induction false} BlackenRoot(h: Heap, root: Ref, f: Tree, x: Ctx, n: int) returns (t: Tree, m: int)
    requires At(h, root, f, x) && InsertInv(f, x, n) && !(x.Frame? && x.c.Red?)
    ensures root in h && At(Paint(h, root, Black), root, t, Top) && Balanced(t, Top, m)
    ensures Inorder(t) == All(f, x)
  {
    WholeAt(h, root, f, x);
    PlugInorder(f, x);
    var w := Plug(f, x);
    if x.Top? {
      t, m := f.(c := Black), n + 1;
      RBMk(L, Black, f.l, f.e, f.r, n);
    } else {
      m := PlugBalanced(f, x, n);
      t := w;
      RootInCtx(h, root, x, RefOf(f));
      assert root == RefOf(w);
    }
    Recolor(h, root, w, Top, Black);
  }

  class RBTree {
    var heap: Heap
    var root: Ref
    var next: Ref      // the first reference never handed out by `new`
    ghost var tree: Tree
    ghost var height: int

    ghost predicate Valid()
      reads this
    {
      ValidTree(heap, root, next, tree, height)
    }

    ghost function Contents(): map<int, int>
      reads this
    {
      ToMap(Inorder(tree))
    }

    constructor ()
      ensures Valid() && Contents() == map[]
    {
      heap := map[NIL := Cell(0, 0, Black, NIL, NIL, NIL)];
      root := NIL;
      next := 1;
      tree := Leaf;
      height := 0;
    }

    method Empty() returns (b: bool)
      requires Valid()
      ensures b <==> Contents() == map[]
    {
      b := root == NIL;
      if tree.Node? {
        assert Inorder(tree)[|Inorder(tree.l)|] == tree.e;
        ToMapKeys(Inorder(tree), tree.e.key);
      }
    }

    /** The node holding `key`, or None; at most 2 * log2(n + 1) nodes of an n-key tree are
        visited.  The ghost results locate the node for callers. */
    method Find(key: int) returns (node: Option<Ref>, ghost f: Tree, ghost x: Ctx, ghost n: int, ghost visited: nat)
      requires Valid()
      ensures node.None? <==> key !in Contents()
      ensures node.Some? ==>
                node.value in heap && heap[node.value].key == key && heap[node.value].value == Contents()[key]
      ensures node.Some? ==> f.Node? && node.value == f.e.ref && At(heap, root, f, x)
      ensures node.Some? ==> Balanced(f, x, n) && All(f, x) == Inorder(tree)
      ensures Pow2(visited) <= (|Contents()| + 1) * (|Contents()| + 1)
    {
      node, f, x, n, visited := Locate(key);
      VisitBound(visited);
      if node.None? {
        return;
      }
      OnPathHit(heap, root, Inorder(tree), f, x, n);
    }

    /** The search loop of `find`. */
    method Locate(key: int) returns (node: Option<Ref>, ghost f: Tree, ghost x: Ctx, ghost n: int, ghost visited: nat)
      requires Valid()
      ensures node.None? ==> key !in Contents()
      ensures node.Some? ==>
                f.Node? && f.e.key == key && node.value == f.e.ref && OnPath(heap, root, Inorder(tree), key, f, x, n)
      ensures visited <= Height(tree)
    {
      var iter := root;
      f, x, n, visited := tree, Top, height, 0;
      ghost var s := Inorder(tree);
      assert All(f, x) == s;
      while iter != NIL
        invariant iter == RefOf(f) && OnPath(heap, root, s, key, f, x, n)
        invariant visited + Height(f) <= Height(tree)
        decreases f
      {
        visited := visited + 1;
        if heap[iter].key == key {
          return Some(iter), f, x, n, visited;
        } else if heap[iter].key < key {
          iter := heap[iter].right;
          f, x, n := OnPathDown(heap, root, s, key, f, x, n, R);
        } else {
          iter := heap[iter].left;
          f, x, n := OnPathDown(heap, root, s, key, f, x, n, L);
        }
      }
      OnPathMiss(heap, root, s, key, x, n);
      node := None;
    }

    lemma VisitBound(visited: nat)
      requires Valid() && visited <= Height(tree)
      ensures Pow2(visited) <= (|Contents()| + 1) * (|Contents()| + 1)
    {
      ToMapSize(Inorder(tree));
      RBHeight(tree, height);
      LogHeight(tree, height);
      Pow2Mono(visited, Height(tree));
    }

    // ---------- rotations ----------

    /** The link to `u`, in its parent or at the root, is redirected to `v`. */
    method Redirect(u: Ref, v: Ref)
      requires u in heap && (heap[u].parent != NIL ==> heap[u].parent in heap)
      modifies this`heap, this`root
      ensures var p := old(heap)[u].parent;
              if p == NIL then root == v && heap == old(heap)
                  else root == old(root) && heap == old(heap)[p := Relinked(old(heap), p, u, v)]
    {
      if heap[u].parent == NIL {
        root := v;
      } else if u == heap[heap[u].parent].left {
        heap := SetLeft(heap, heap[u].parent, v);
      } else {
        heap := SetRight(heap, heap[u].parent, v);
      }
    }

    /** The first half of a left rotation: the middle subtree and the new parent of `replace`. */
    method LiftRight(rotate: Ref, replace: Ref, ghost m: Ref, ghost p: Ref)
      requires CanRotate(L, heap, rotate, replace, m, p)
      modifies this`heap
      ensures Lifted(L, old(heap), heap, rotate, replace, m, p)
    {
      heap := SetRight(heap, rotate, heap[replace].left);
      if heap[replace].left != NIL {
        heap := SetParent(heap, heap[replace].left, rotate);
      }
      heap := SetParent(heap, replace, heap[rotate].parent);
    }

    method RotateLeftLinks(rotate: Ref, ghost m: Ref, ghost p: Ref)
      requires rotate in heap && CanRotate(L, heap, rotate, heap[rotate].right, m, p)
      modifies this`heap, this`root
      ensures RotateLinks(L, old(heap), heap, old(root), root, rotate, old(heap[rotate].right), m, p)
    {
      var replace := heap[rotate].right;
      LiftRight(rotate, replace, m, p);
      Redirect(rotate, replace);
      heap := SetLeft(heap, replace, rotate);
      heap := SetParent(heap, rotate, replace);
    }

    method RotateLeft(rotate: Ref, ghost cx: Color, ghost a: Tree, ghost ex: Entry,
                      ghost cy: Color, ghost b: Tree, ghost ey: Entry, ghost c: Tree, ghost x: Ctx)
      requires rotate == ex.ref && At(heap, root, Unrotated(L, cx, a, ex, cy, b, ey, c), x)
      modifies this`heap, this`root
      ensures At(heap, root, Rotated(L, cx, a, ex, cy, b, ey, c), x)
      ensures heap.Keys == old(heap.Keys) && NIL in heap && heap[NIL] == old(heap)[NIL]
      ensures All(Rotated(L, cx, a, ex, cy, b, ey, c), x) == All(Unrotated(L, cx, a, ex, cy, b, ey, c), x)
    {
      ghost var h, r := heap, root;
      RotateReads(h, r, L, cx, a, ex, cy, b, ey, c, x);
      RotateLeftLinks(rotate, RefOf(b), ParentOf(x));
      Rotate(L, h, heap, r, root, cx, a, ex, cy, b, ey, c, x);
      RotateAll(L, cx, a, ex, cy, b, ey, c, x);
    }

    /** The first half of a right rotation. */
    method LiftLeft(rotate: Ref, replace: Ref, ghost m: Ref, ghost p: Ref)
      requires CanRotate(R, heap, rotate, replace, m, p)
      modifies this`heap
      ensures Lifted(R, old(heap), heap, rotate, replace, m, p)
    {
      heap := SetLeft(heap, rotate, heap[replace].right);
      if heap[replace].right != NIL {
        heap := SetParent(heap, heap[replace].right, rotate);
      }
      heap := SetParent(heap, replace, heap[rotate].parent);
    }

    method RotateRightLinks(rotate: Ref, ghost m: Ref, ghost p: Ref)
      requires rotate in heap && CanRotate(R, heap, rotate, heap[rotate].left, m, p)
      modifies this`heap, this`root
      ensures RotateLinks(R, old(heap), heap, old(root), root, rotate, old(heap[rotate].left), m, p)
    {
      var replace := heap[rotate].left;
      LiftLeft(rotate, replace, m, p);
      Redirect(rotate, replace);
      heap := SetRight(heap, replace, rotate);
      heap := SetParent(heap, rotate, replace);
    }

    method RotateRight(rotate: Ref, ghost cx: Color, ghost a: Tree, ghost ex: Entry,
                      ghost cy: Color, ghost b: Tree, ghost ey: Entry, ghost c: Tree, ghost x: Ctx)
      requires rotate == ex.ref && At(heap, root, Unrotated(R, cx, a, ex, cy, b, ey, c), x)
      modifies this`heap, this`root
      ensures At(heap, root, Rotated(R, cx, a, ex, cy, b, ey, c), x)
      ensures heap.Keys == old(heap.Keys) && NIL in heap && heap[NIL] == old(heap)[NIL]
      ensures All(Rotated(R, cx, a, ex, cy, b, ey, c), x) == All(Unrotated(R, cx, a, ex, cy, b, ey, c), x)
    {
      ghost var h, r := heap, root;
      RotateReads(h, r, R, cx, a, ex, cy, b, ey, c, x);
      RotateRightLinks(rotate, RefOf(b), ParentOf(x));
      Rotate(R, h, heap, r, root, cx, a, ex, cy, b, ey, c, x);
      RotateAll(R, cx, a, ex, cy, b, ey, c, x);
    }

    /** Red uncle: parent and uncle turn black, the grandparent red, and the cursor moves there. */
    method RecolorFamily(node: Ref, uncle: Ref, ghost f: Tree, ghost x: Ctx, ghost n: int) returns (iter: Ref)
      requires InsertState(heap, root, node, f, x, n) && x.Frame? && x.c.Red? && x.up.Frame?
      requires !IsBlack(x.up.sib) && uncle == x.up.sib.e.ref
      modifies this`heap
      ensures InsertState(heap, root, iter, Uncled(f, x), x.up.up, n + 1)
      ensures All(Uncled(f, x), x.up.up) == All(f, x) && heap.Keys == old(heap.Keys) && Depth(x.up.up) < Depth(x)
    {
      Family(heap, root, f, x, n);
      PaintFamily(heap, root, f, x);
      heap := Paint(heap, heap[node].parent, Black);
      heap := Paint(heap, uncle, Black);
      heap := Paint(heap, heap[heap[node].parent].parent, Red);
      iter := heap[heap[node].parent].parent;
      AfterFamily(heap, root, f, x, n);
    }

    /** One pass of the insert loop when the parent is a left child. */
    method InsertPassLeft(node: Ref, ghost f0: Tree, ghost x0: Ctx, ghost n0: int)
        returns (iter: Ref, ghost f: Tree, ghost x: Ctx, ghost n: int)
      requires InsertState(heap, root, node, f0, x0, n0)
      requires x0.Frame? && x0.c.Red? && x0.up.Frame? && x0.up.d.L?
      modifies this`heap, this`root
      ensures InsertState(heap, root, iter, f, x, n)
      ensures All(f, x) == All(f0, x0) && heap.Keys == old(heap.Keys)
      ensures Depth(x) < Depth(x0) || (Depth(x) == Depth(x0) && Inner(x) < Inner(x0))
    {
      iter, f, x, n := node, f0, x0, n0;
      Family(heap, root, f, x, n);
      ghost var g := x.up;
      var uncle := heap[heap[heap[iter].parent].parent].right;
      if heap[uncle].color == Red {
        iter := RecolorFamily(iter, uncle, f, x, n);
        f, x, n := Uncled(f, x), g.up, n + 1;
      } else if iter == heap[heap[iter].parent].right {
        BeforeInner(heap, root, f, x, n);
        iter := heap[iter].parent;
        RotateLeft(iter, Red, x.sib, x.e, Red, f.l, f.e, f.r, g);
        f, x := AfterInner(heap, root, f, x, n);
      } else {
        PaintOuter(heap, root, f, x);
        heap := Paint(heap, heap[iter].parent, Black);
        heap := Paint(heap, heap[heap[iter].parent].parent, Red);
        RotateRight(heap[heap[iter].parent].parent, Red, g.sib, g.e, Black, x.sib, x.e, f, g.up);
        x := AfterOuter(heap, root, f, x, n);
      }
    }

    /** One pass of the insert loop when the parent is a right child. */
    method InsertPassRight(node: Ref, ghost f0: Tree, ghost x0: Ctx, ghost n0: int)
        returns (iter: Ref, ghost f: Tree, ghost x: Ctx, ghost n: int)
      requires InsertState(heap, root, node, f0, x0, n0)
      requires x0.Frame? && x0.c.Red? && x0.up.Frame? && x0.up.d.R?
      modifies this`heap, this`root
      ensures InsertState(heap, root, iter, f, x, n)
      ensures All(f, x) == All(f0, x0) && heap.Keys == old(heap.Keys)
      ensures Depth(x) < Depth(x0) || (Depth(x) == Depth(x0) && Inner(x) < Inner(x0))
    {
      iter, f, x, n := node, f0, x0, n0;
      Family(heap, root, f, x, n);
      ghost var g := x.up;
      var uncle := heap[heap[heap[iter].parent].parent].left;
      if heap[uncle].color == Red {
        iter := RecolorFamily(iter, uncle, f, x, n);
        f, x, n := Uncled(f, x), g.up, n + 1;
      } else if iter == heap[heap[iter].parent].left {
        BeforeInner(heap, root, f, x, n);
        iter := heap[iter].parent;
        RotateRight(iter, Red, x.sib, x.e, Red, f.r, f.e, f.l, g);
        f, x := AfterInner(heap, root, f, x, n);
      } else {
        PaintOuter(heap, root, f, x);
        heap := Paint(heap, heap[iter].parent, Black);
        heap := Paint(heap, heap[heap[iter].parent].parent, Red);
        RotateLeft(heap[heap[iter].parent].parent, Red, g.sib, g.e, Black, x.sib, x.e, f, g.up);
        x := AfterOuter(heap, root, f, x, n);
      }
    }

    method InsertFixup(node: Ref, ghost f0: Tree, ghost x0: Ctx, ghost n0: int) returns (ghost t: Tree, ghost m: int)
      requires InsertState(heap, root, node, f0, x0, n0)
      modifies this`heap, this`root
      ensures At(heap, root, t, Top) && Balanced(t, Top, m) && Inorder(t) == All(f0, x0)
      ensures heap.Keys == old(heap.Keys)
    {
      var iter := node;
      ghost var f, x, n := f0, x0, n0;
      while heap[heap[iter].parent].color == Red
        invariant InsertState(heap, root, iter, f, x, n)
        invariant All(f, x) == All(f0, x0) && heap.Keys == old(heap.Keys)
        decreases Depth(x), Inner(x)
      {
        Family(heap, root, f, x, n);
        if heap[iter].parent == heap[heap[heap[iter].parent].parent].left {
          iter, f, x, n := InsertPassLeft(iter, f, x, n);
        } else {
          iter, f, x, n := InsertPassRight(iter, f, x, n);
        }
      }
      t, m := BlackenRoot(heap, root, f, x, n);
      heap := Paint(heap, root, Black);
    }

    /** The first half of an erase pass with the cursor on the left: afterwards the brother is black. */
    method SettleBrotherLeft(fix: Ref, ghost f: Tree, ghost x0: Ctx, ghost n: int) returns (brother: Ref, ghost x: Ctx)
      requires EraseState(heap, root, fix, f, x0, n) && x0.Frame? && x0.d.L? && IsBlack(f)
      modifies this`heap, this`root
      ensures EraseState(heap, root, fix, f, x, n) && All(f, x) == All(f, x0) && heap.Keys == old(heap.Keys)
      ensures x.Frame? && x.d.L? && x.sib.Node? && brother == x.sib.e.ref && x.sib.c.Black?
      ensures x == x0 || (x.c.Red? && x0.sib.Node? && x0.sib.c.Red?)
    {
      x := x0;
      EraseReads(heap, root, f, x, n);
      brother := heap[heap[fix].parent].right;
      if heap[brother].color == Red {
        PaintBrotherRed(heap, root, f, x);
        heap := Paint(heap, brother, Black);
        heap := Paint(heap, heap[fix].parent, Red);
        RotateLeft(heap[fix].parent, Red, f, x.e, Black, x.sib.l, x.sib.e, x.sib.r, x.up);
        x := AfterBrotherRed(heap, root, f, x, n);
        EraseReads(heap, root, f, x, n);
        brother := heap[heap[fix].parent].right;
      }
    }

    /** A black brother with a red right child: one rotation repays the missing black. */
    method LastRotationLeft(node: Ref, brother: Ref, ghost f0: Tree, ghost x: Ctx, ghost n0: int)
        returns (fix: Ref, ghost f: Tree, ghost n: int)
      requires EraseState(heap, root, node, f0, x, n0) && x.Frame? && x.d.L? && IsBlack(f0)
      requires x.sib.Node? && brother == x.sib.e.ref && x.sib.c.Black? && !IsBlack(x.sib.r)
      modifies this`heap, this`root
      ensures EraseState(heap, root, fix, f, Top, n) && All(f, Top) == All(f0, x) && heap.Keys == old(heap.Keys)
      ensures Rank(f, Top) == 0 && Rank(f0, x) == 1
    {
      EraseReads(heap, root, f0, x, n0);
      PaintFarRed(heap, root, f0, x);
      heap := Paint(heap, brother, heap[heap[node].parent].color);
      heap := Paint(heap, heap[node].parent, Black);
      heap := Paint(heap, heap[brother].right, Black);
      RotateLeft(heap[node].parent, Black, f0, x.e, x.c, x.sib.l, x.sib.e, x.sib.r.(c := Black), x.up);
      fix := root;
      f, n := AfterFarRed(heap, root, f0, x, n0);
    }

    /** The second half: the brother is black. */
    method ErasePassLeft(node: Ref, brother: Ref, ghost f0: Tree, ghost x0: Ctx, ghost n0: int)
        returns (fix: Ref, ghost f: Tree, ghost x: Ctx, ghost n: int)
      requires EraseState(heap, root, node, f0, x0, n0) && x0.Frame? && x0.d.L? && IsBlack(f0)
      requires x0.sib.Node? && brother == x0.sib.e.ref && x0.sib.c.Black?
      modifies this`heap, this`root
      ensures EraseState(heap, root, fix, f, x, n) && All(f, x) == All(f0, x0) && heap.Keys == old(heap.Keys)
      ensures Rank(f, x) < Rank(f0, x0) && (x0.c.Red? ==> Rank(f, x) <= 1)
    {
      fix, f, x, n := node, f0, x0, n0;
      EraseReads(heap, root, f, x, n);
      if heap[heap[brother].left].color == Black && heap[heap[brother].right].color == Black {
        PaintBothBlack(heap, root, f, x);
        heap := Paint(heap, brother, Red);
        fix := heap[fix].parent;
        f, n := AfterBothBlack(heap, root, f, x, n);
        x := x.up;
      } else if heap[heap[brother].right].color == Black {
        ghost var t := x.sib.l;
        PaintNearRed(heap, root, f, x);
        heap := Paint(heap, heap[brother].left, Black);
        heap := Paint(heap, brother, Red);
        RotateRight(brother, Red, x.sib.r, x.sib.e, Black, t.r, t.e, t.l, FromBrother(f, x));
        x := AfterNearRed(heap, root, f, x, n);
      } else {
        fix, f, n := LastRotationLeft(fix, brother, f, x, n);
        x := Top;
      }
    }

    /** The first half of an erase pass with the cursor on the right: afterwards the brother is black. */
    method SettleBrotherRight(fix: Ref, ghost f: Tree, ghost x0: Ctx, ghost n: int) returns (brother: Ref, ghost x: Ctx)
      requires EraseState(heap, root, fix, f, x0, n) && x0.Frame? && x0.d.R? && IsBlack(f)
      modifies this`heap, this`root
      ensures EraseState(heap, root, fix, f, x, n) && All(f, x) == All(f, x0) && heap.Keys == old(heap.Keys)
      ensures x.Frame? && x.d.R? && x.sib.Node? && brother == x.sib.e.ref && x.sib.c.Black?
      ensures x == x0 || (x.c.Red? && x0.sib.Node? && x0.sib.c.Red?)
    {
      x := x0;
      EraseReads(heap, root, f, x, n);
      brother := heap[heap[fix].parent].left;
      if heap[brother].color == Red {
        PaintBrotherRed(heap, root, f, x);
        heap := Paint(heap, brother, Black);
        heap := Paint(heap, heap[fix].parent, Red);
        RotateRight(heap[fix].parent, Red, f, x.e, Black, x.sib.r, x.sib.e, x.sib.l, x.up);
        x := AfterBrotherRed(heap, root, f, x, n);
        EraseReads(heap, root, f, x, n);
        brother := heap[heap[fix].parent].left;
      }
    }

    /** A black brother with a red left child: one rotation repays the missing black. */
    method LastRotationRight(node: Ref, brother: Ref, ghost f0: Tree, ghost x: Ctx, ghost n0: int)
        returns (fix: Ref, ghost f: Tree, ghost n: int)
      requires EraseState(heap, root, node, f0, x, n0) && x.Frame? && x.d.R? && IsBlack(f0)
      requires x.sib.Node? && brother == x.sib.e.ref && x.sib.c.Black? && !IsBlack(x.sib.l)
      modifies this`heap, this`root
      ensures EraseState(heap, root, fix, f, Top, n) && All(f, Top) == All(f0, x) && heap.Keys == old(heap.Keys)
      ensures Rank(f, Top) == 0 && Rank(f0, x) == 1
    {
      EraseReads(heap, root, f0, x, n0);
      PaintFarRed(heap, root, f0, x);
      heap := Paint(heap, brother, heap[heap[node].parent].color);
      heap := Paint(heap, heap[node].parent, Black);
      heap := Paint(heap, heap[brother].left, Black);
      RotateRight(heap[node].parent, Black, f0, x.e, x.c, x.sib.r, x.sib.e, x.sib.l.(c := Black), x.up);
      fix := root;
      f, n := AfterFarRed(heap, root, f0, x, n0);
    }

    /** The second half: the brother is black. */
    method ErasePassRight(node: Ref, brother: Ref, ghost f0: Tree, ghost x0: Ctx, ghost n0: int)
        returns (fix: Ref, ghost f: Tree, ghost x: Ctx, ghost n: int)
      requires EraseState(heap, root, node, f0, x0, n0) && x0.Frame? && x0.d.R? && IsBlack(f0)
      requires x0.sib.Node? && brother == x0.sib.e.ref && x0.sib.c.Black?
      modifies this`heap, this`root
      ensures EraseState(heap, root, fix, f, x, n) && All(f, x) == All(f0, x0) && heap.Keys == old(heap.Keys)
      ensures Rank(f, x) < Rank(f0, x0) && (x0.c.Red? ==> Rank(f, x) <= 1)
    {
      fix, f, x, n := node, f0, x0, n0;
      EraseReads(heap, root, f, x, n);
      if heap[heap[brother].left].color == Black && heap[heap[brother].right].color == Black {
        PaintBothBlack(heap, root, f, x);
        heap := Paint(heap, brother, Red);
        fix := heap[fix].parent;
        f, n := AfterBothBlack(heap, root, f, x, n);
        x := x.up;
      } else if heap[heap[brother].left].color == Black {
        ghost var t := x.sib.r;
        PaintNearRed(heap, root, f, x);
        heap := Paint(heap, heap[brother].right, Black);
        heap := Paint(heap, brother, Red);
        RotateLeft(brother, Red, x.sib.l, x.sib.e, Black, t.l, t.e, t.r, FromBrother(f, x));
        x := AfterNearRed(heap, root, f, x, n);
      } else {
        fix, f, n := LastRotationRight(fix, brother, f, x, n);
        x := Top;
      }
    }

    method EraseFixup(node: Ref, ghost f0: Tree, ghost x0: Ctx, ghost n0: int) returns (ghost t: Tree, ghost m: int)
      requires EraseState(heap, root, node, f0, x0, n0)
      modifies this`heap, this`root
      ensures At(heap, root, t, Top) && Balanced(t, Top, m) && Inorder(t) == All(f0, x0)
      ensures heap.Keys == old(heap.Keys)
    {
      var fix := node;
      ghost var f, x, n := f0, x0, n0;
      while fix != root && heap[fix].color == Black
        invariant EraseState(heap, root, fix, f, x, n)
        invariant All(f, x) == All(f0, x0) && heap.Keys == old(heap.Keys)
        decreases Rank(f, x)
      {
        ghost var x1 := x;
        EraseReads(heap, root, f, x, n);
        if fix == heap[heap[fix].parent].left {
          var brother;
          brother, x1 := SettleBrotherLeft(fix, f, x, n);
          fix, f, x, n := ErasePassLeft(fix, brother, f, x1, n);
        } else {
          var brother;
          brother, x1 := SettleBrotherRight(fix, f, x, n);
          fix, f, x, n := ErasePassRight(fix, brother, f, x1, n);
        }
      }
      if x.Frame? { RootInCtx(heap, root, x, fix); }
      t, m := BlackenCursor(heap, root, f, x, n);
      heap := Paint(heap, fix, Black);
    }

    // ---------- erase ----------

    /** `_rb_transplant`: the tree `t` at `v` takes the place of `u`. */
    method Transplant(u: Ref, v: Ref, ghost x: Ctx, ghost t: Tree, ghost q: Ref)
      requires u in heap && u != NIL && v in heap && v == RefOf(t) && heap[u].parent == ParentOf(x) && u != v
      requires CtxAt(heap, root, x, u) && CtxSep(x) && u !in CtxRefs(x)
      requires TreeAt(heap, t, q) && TreeSep(t) && Refs(t) !! CtxRefs(x)
      modifies this`heap, this`root
      ensures CtxAt(heap, root, x, v) && TreeAt(heap, t, ParentOf(x)) && heap.Keys == old(heap.Keys)
      ensures heap[v] == old(heap)[v].(parent := ParentOf(x))
      ensures Same(old(heap), heap, old(heap.Keys) - {v} - (if x.Frame? then {x.e.ref} else {}))
    {
      ghost var h, r := heap, root;
      CtxRefsAllocated(h, r, x, u);
      RefsAllocated(h, t, q);
      assert t.Node? ==> t.e.ref in Refs(t);
      Redirect(u, v);
      heap := SetParent(heap, v, heap[u].parent);
      CtxRelink(h, heap, r, root, x, u, v);
      Reparent(h, heap, t, q, ParentOf(x));
    }

    method TreeMinimum(index: Ref, ghost t: Tree, ghost x: Ctx) returns (node: Ref, ghost s: Tree, ghost spine: Ctx)
      requires At(heap, root, t, x) && t.Node? && index == t.e.ref
      ensures node in heap && heap[node].left == NIL
      ensures s.Node? && s.l.Leaf? && node == s.e.ref && t == Plug(s, spine) && LeftSpine(spine)
      ensures At(heap, root, s, Comp(spine, x))
    {
      node, s, spine := index, t, Top;
      while heap[node].left != NIL
        invariant s.Node? && node == s.e.ref && At(heap, root, s, Comp(spine, x)) && node in heap
        invariant t == Plug(s, spine) && LeftSpine(spine)
        decreases s
      {
        node := heap[node].left;
        spine := Frame(L, s.c, s.e, s.r, spine);
        s := s.l;
        Move(heap, root, s, Comp(spine, x));
      }
      assert s.l.Node? ==> TreeAt(heap, s.l, node);
    }

    /** The second half of case 3: the loose node `y` takes over the place, the left subtree and
        the colour of `e`. */
    method Supplant(e: Ref, y: Ref, ghost cx: Color, ghost l: Tree, ghost cy: Color, ghost ey: Entry, ghost t: Tree,
          ghost x: Ctx)
      requires Loose(heap, root, e, cx, l, cy, ey, t, x) && y == ey.ref
      modifies this`heap, this`root
      ensures At(heap, root, Node(cx, l, ey, t), x) && heap.Keys == old(heap.Keys)
      ensures NIL in heap && heap[NIL] == old(heap)[NIL]
    {
      ghost var w := Node(cy, Leaf, ey, t);
      ghost var h0 := heap;
      RefsAllocated(heap, l, e);
      RefsAllocated(heap, t, y);
      CtxRefsAllocated(heap, root, x, e);
      assert l.e.ref in Refs(l);
      assert Refs(w) == {y} + Refs(t);
      Transplant(e, y, x, w, heap[y].parent);
      TreeFrame(h0, heap, l, e);
      TakeOver(e, y, cx, l, cy, ey, t, x);
    }

    method TakeOver(e: Ref, y: Ref, ghost cx: Color, ghost l: Tree, ghost cy: Color, ghost ey: Entry, ghost t: Tree,
          ghost x: Ctx)
      requires NIL in heap && heap[NIL].color == Black && e in heap && y == ey.ref && e != y
      requires CtxAt(heap, root, x, y) && CtxSep(x) && TreeAt(heap, l, e) && TreeAt(heap, t, y) && l.Node? && TreeSep(l)
      requires TreeSep(t)
      requires {y} !! Refs(l) !! Refs(t) !! CtxRefs(x) && l.e.ref in heap && l.e.ref != NIL && l.e.ref != e
      requires HoldsEntry(heap, ey, cy) && heap[y].right == RefOf(t) && heap[y].parent == ParentOf(x)
      requires heap[e].left == RefOf(l) && heap[e].color == cx
      modifies this`heap
      ensures At(heap, root, Node(cx, l, ey, t), x) && heap.Keys == old(heap.Keys)
      ensures NIL in heap && heap[NIL] == old(heap)[NIL]
    {
      ghost var h := heap;
      assert l.e.ref in Refs(l);
      heap := SetLeft(heap, y, heap[e].left);
      heap := SetParent(heap, heap[y].left, y);
      heap := Paint(heap, y, heap[e].color);
      Supplanted(h, heap, root, e, cx, l, ey, t, x);
    }

    /** Node `u` gives its place to one of its children. */
    method ReplaceByChild(u: Ref, v: Ref, ghost s: Tree, ghost t: Tree, ghost c: Ctx)
      requires s.Node? && u == s.e.ref && At(heap, root, s, c) && (t == s.l || t == s.r) && v == RefOf(t)
      modifies this`heap, this`root
      ensures At(heap, root, t, c) && heap.Keys == old(heap.Keys) && v in heap && heap[v].parent == ParentOf(c)
      ensures u in heap && heap[u] == old(heap)[u]
    {
      UnlinkReads(heap, root, s, c);
      assert c.Frame? ==> c.e.ref in CtxRefs(c);
      Transplant(u, v, c, t, u);
    }

    /** Taking the node under the cursor out of the tree.  `start` is where the fixup begins and
        `origin` the colour that went missing. */
    method Unlink(e: Ref, ghost f: Tree, ghost x: Ctx, ghost n: int)
        returns (start: Ref, origin: Color, ghost z: Tree, ghost y: Ctx, ghost k: int)
      requires f.Node? && e == f.e.ref && At(heap, root, f, x) && Balanced(f, x, n) && e in heap
      modifies this`heap, this`root
      ensures At(heap, root, z, y) && Spliced(origin, z, y, k) && heap.Keys == old(heap.Keys)
      ensures start == RefOf(z) && start in heap && heap[start].parent == ParentOf(y)
      ensures All(z, y) == (Pre(x) + Inorder(f.l)) + (Inorder(f.r) + Post(x))
    {
      origin := heap[e].color;
      if heap[e].left == NIL {
        start := heap[e].right;
        UnlinkReads(heap, root, f, x);
        ReplaceByChild(e, heap[e].right, f, f.r, x);
        z, y := f.r, x;
        AllWithout(f, x);
        k := SpliceOut(L, f.c, f.e, z, x, n);
      } else if heap[e].right == NIL {
        start := heap[e].left;
        UnlinkReads(heap, root, f, x);
        ReplaceByChild(e, heap[e].left, f, f.l, x);
        z, y := f.l, x;
        AllWithout(f, x);
        k := SpliceOut(R, f.c, f.e, z, x, n);
      } else {
        start, origin, z, y, k := UnlinkInner(e, f, x, n);
      }
    }

    /** Case 3 when the minimum `y` is deeper: `y` is cut out and takes over the right subtree. */
    method DetachMinimum(e: Ref, y: Ref, ghost f: Tree, ghost x: Ctx, ghost s: Tree, ghost spine: Ctx)
      requires f.Node? && e == f.e.ref && f.l.Node? && f.r == Plug(s, spine) && s.Node? && s.l.Leaf? && y == s.e.ref
      requires At(heap, root, s, Comp(spine, Frame(R, f.c, f.e, f.l, x))) && spine.Frame? && e in heap && y in heap
      modifies this`heap, this`root
      ensures Loose(heap, root, e, f.c, f.l, s.c, s.e, Plug(s.r, spine), x) && heap.Keys == old(heap.Keys)
      ensures s.r.Leaf? ==> NIL in heap && heap[NIL].parent == spine.e.ref
    {
      ghost var c := Comp(spine, Frame(R, f.c, f.e, f.l, x));
      UnlinkReads(heap, root, s, c);
      ReplaceByChild(y, heap[y].right, s, s.r, c);
      ghost var h := heap;
      ghost var v := LooseAfterCut(h, root, f, x, s, spine);
      heap := SetRight(heap, y, heap[e].right);
      heap := SetParent(heap, heap[y].right, y);
      assert heap == SetParent(SetRight(h, y, v), v, y);
    }

    method LoosenMinimum(e: Ref, y: Ref, ghost f: Tree, ghost x: Ctx, ghost s: Tree, ghost spine: Ctx)
      requires f.Node? && e == f.e.ref && f.l.Node? && f.r == Plug(s, spine) && s.Node? && s.l.Leaf? && y == s.e.ref
      requires At(heap, root, f, x) && At(heap, root, s, Comp(spine, Frame(R, f.c, f.e, f.l, x))) && e in heap
      requires y in heap
      modifies this`heap, this`root
      ensures Loose(heap, root, e, f.c, f.l, s.c, s.e, Plug(s.r, spine), x) && heap.Keys == old(heap.Keys)
      ensures s.r.Leaf? ==> NIL in heap && heap[NIL].parent == ParentOf(Comp(spine, Frame(R, f.c, s.e, f.l, x)))
    {
      if heap[y].parent == e {
        UnlinkReads(heap, root, s, Comp(spine, Frame(R, f.c, f.e, f.l, x)));
        NextIsMinimum(heap, root, f, x, s, spine);
        heap := SetParent(heap, heap[y].right, y);
      } else {
        DetachMinimum(e, y, f, x, s, spine);
      }
    }

    /** Case 3: both children present. */
    method UnlinkInner(e: Ref, ghost f: Tree, ghost x: Ctx, ghost n: int)
        returns (start: Ref, origin: Color, ghost z: Tree, ghost y: Ctx, ghost k: int)
      requires f.Node? && e == f.e.ref && At(heap, root, f, x) && Balanced(f, x, n) && e in heap
      requires f.l.Node? && f.r.Node?
      modifies this`heap, this`root
      ensures At(heap, root, z, y) && Spliced(origin, z, y, k) && heap.Keys == old(heap.Keys)
      ensures start == RefOf(z) && start in heap && heap[start].parent == ParentOf(y)
      ensures All(z, y) == (Pre(x) + Inorder(f.l)) + (Inorder(f.r) + Post(x))
    {
      ghost var xf := Frame(R, f.c, f.e, f.l, x);
      Move(heap, root, f.r, xf);
      ghost var s, spine;
      var replace;
      replace, s, spine := TreeMinimum(heap[e].right, f.r, xf);
      UnlinkReads(heap, root, s, Comp(spine, xf));
      origin := heap[replace].color;
      start := heap[replace].right;
      k := MinimumOut(f, x, n, s, spine);
      LoosenMinimum(e, replace, f, x, s, spine);
      Supplant(e, replace, f.c, f.l, s.c, s.e, Plug(s.r, spine), x);
      z, y := s.r, Comp(spine, Frame(R, f.c, s.e, f.l, x));
      ToHole(heap, root, f, x, s, spine);
    }

    /** Only a missing black node calls for the fixup. */
    method Repair(start: Ref, origin: Color, ghost z: Tree, ghost y: Ctx, ghost k: int) returns (ghost t: Tree,
          ghost m: int)
      requires At(heap, root, z, y) && Spliced(origin, z, y, k)
      requires start == RefOf(z) && start in heap && heap[start].parent == ParentOf(y)
      modifies this`heap, this`root
      ensures At(heap, root, t, Top) && Balanced(t, Top, m) && Inorder(t) == All(z, y)
      ensures heap.Keys == old(heap.Keys)
    {
      if origin == Black {
        t, m := EraseFixup(start, z, y, k);
      } else {
        m := PlugBalanced(z, y, k);
        WholeAt(heap, root, z, y);
        PlugInorder(z, y);
        t := Plug(z, y);
      }
    }

    /** The part of `erase` after the search. */
    method EraseNode(e: Ref, ghost f: Tree, ghost x: Ctx, ghost n: int)
      requires Valid() && f.Node? && e == f.e.ref && e in heap
      requires At(heap, root, f, x) && Balanced(f, x, n) && All(f, x) == Inorder(tree)
      modifies this
      ensures Valid() && Contents() == old(Contents()) - {f.e.key}
    {
      ghost var h0, r0 := heap, root;
      ghost var t, m := CutOut(e, f, x, n);
      ValidAfterErase(h0, r0, next, tree, height, heap, root, t, m, f, x);
      Forget(e, t, m);
    }

    /** The `delete` of the erased node. */
    method Forget(e: Ref, ghost t: Tree, ghost m: int)
      modifies this`heap, this`tree, this`height
      ensures heap == old(heap) - {e} && tree == t && height == m
    {
      heap := heap - {e};
      tree, height := t, m;
    }

    /** Unlinking and repairing. */
    method CutOut(e: Ref, ghost f: Tree, ghost x: Ctx, ghost n: int) returns (ghost t: Tree, ghost m: int)
      requires f.Node? && e == f.e.ref && e in heap && At(heap, root, f, x) && Balanced(f, x, n)
      modifies this`heap, this`root
      ensures At(heap, root, t, Top) && Balanced(t, Top, m) && heap.Keys == old(heap.Keys)
      ensures Inorder(t) == (Pre(x) + Inorder(f.l)) + (Inorder(f.r) + Post(x))
    {
      var start, origin;
      ghost var z, y, k;
      start, origin, z, y, k := Unlink(e, f, x, n);
      t, m := Repair(start, origin, z, y, k);
    }

    /** Erasing removes exactly the given key, and reports whether it was there. */
    method Erase(key: int) returns (erased: bool)
      requires Valid()
      modifies this
      ensures Valid() && erased == (key in old(Contents())) && Contents() == old(Contents()) - {key}
    {
      var found;
      ghost var f, x, n, visited;
      found, f, x, n, visited := Find(key);
      if found.None? {
        assert Contents() - {key} == Contents();
        return false;
      }
      assert f.e.key == key;
      EraseNode(found.value, f, x, n);
      return true;
    }

    /** Inserting sets exactly the given key; a key already present is erased first. */
    method Insert(key: int, value: int)
      requires Valid()
      modifies this
      ensures Valid() && Contents() == old(Contents())[key := value]
      decreases key in Contents()
    {
      var iter, parent;
      ghost var f, x, n;
      iter, parent, f, x, n := FindPlace(key);
      if iter != NIL {
        var _ := Erase(key);
        Insert(key, value);
      } else {
        InsertNew(key, value, parent, x);
      }
    }

    /** The search loop of `insert`: stops at the node with the key, or at the empty place where
        the key belongs. */
    method FindPlace(key: int) returns (iter: Ref, parent: Ref, ghost f: Tree, ghost x: Ctx, ghost n: int)
      requires Valid()
      ensures iter == RefOf(f) && OnPath(heap, root, Inorder(tree), key, f, x, n)
      ensures iter == NIL ==> parent == ParentOf(x) && f.Leaf? && n == 0
      ensures iter != NIL <==> key in Contents()
    {
      iter, parent := root, NIL;
      ghost var s := Inorder(tree);
      f, x, n := tree, Top, height;
      assert All(f, x) == s;
      while iter != NIL
        invariant iter == RefOf(f) && parent == ParentOf(x) && OnPath(heap, root, s, key, f, x, n)
        decreases f
      {
        parent := iter;
        if key < heap[iter].key {
          iter := heap[iter].left;
          f, x, n := OnPathDown(heap, root, s, key, f, x, n, L);
        } else if key > heap[iter].key {
          iter := heap[iter].right;
          f, x, n := OnPathDown(heap, root, s, key, f, x, n, R);
        } else {
          OnPathHit(heap, root, s, f, x, n);
          return;
        }
      }
      OnPathMiss(heap, root, s, key, x, n);
    }

    /** The part of `insert` after the search: a red leaf node at the place found, then the fixup. */
    method InsertNew(key: int, value: int, parent: Ref, ghost x: Ctx)
      requires Valid() && parent == ParentOf(x) && OnPath(heap, root, Inorder(tree), key, Leaf, x, 0)
      modifies this
      ensures Valid() && Contents() == old(Contents())[key := value]
    {
      ghost var h0, r0, n0, e := heap, root, next, Entry(next, key, value);
      ghost var t, m := LinkNew(key, value, parent, x);
      ghost var h1, r1 := heap, root;
      ValidAfterInsert(h0, r0, n0, tree, height, h1, r1, t, m, x, e);
      tree, height := t, m;
      assert heap == h1 && root == r1 && next == n0 + 1 && tree == t && height == m;
    }

    method LinkNew(key: int, value: int, parent: Ref, ghost x: Ctx) returns (ghost t: Tree, ghost m: int)
      requires At(heap, root, Leaf, x) && CtxRB(x, 0) && AllBelow(Pre(x), key) && AllAbove(Post(x), key)
      requires parent == ParentOf(x) && next > 0 && (forall r :: r in heap ==> r < next)
      modifies this`heap, this`root, this`next
      ensures next == old(next) + 1 && heap.Keys == old(heap.Keys) + {old(next)}
      ensures At(heap, root, t, Top) && Balanced(t, Top, m)
      ensures Inorder(t) == All(Node(Red, Leaf, Entry(old(next), key, value), Leaf), x)
    {
      ghost var e := Entry(next, key, value);
      var node := AttachNew(key, value, parent, x);
      t, m := InsertFixup(node, Node(Red, Leaf, e, Leaf), x, 0);
    }

    method AttachNew(key: int, value: int, parent: Ref, ghost x: Ctx) returns (node: Ref)
      requires At(heap, root, Leaf, x) && CtxRB(x, 0) && AllBelow(Pre(x), key) && AllAbove(Post(x), key)
      requires parent == ParentOf(x) && next > 0 && (forall r :: r in heap ==> r < next)
      modifies this`heap, this`root, this`next
      ensures node == old(next) && next == old(next) + 1 && heap.Keys == old(heap.Keys) + {node}
      ensures InsertState(heap, root, node, Node(Red, Leaf, Entry(node, key, value), Leaf), x, 0)
    {
      ghost var h, r := heap, root;
      InsertReads(h, r, x);
      node := next;
      next := next + 1;
      heap := heap[node := Cell(key, value, Red, NIL, NIL, parent)];
      if parent == NIL {
        root := node;
      } else if heap[node].key < heap[parent].key {
        heap := SetLeft(heap, parent, node);
      } else {
        heap := SetRight(heap, parent, node);
      }
      ghost var e := Entry(node, key, value);
      Attach(h, heap, r, root, x, e);
      EstablishInsertState(heap, root, Node(Red, Leaf, e, Leaf), x, 0);
    }
  }
}
