/** The memory of a red-black tree and what it means for that memory to hold a tree.

    Nodes live in a heap from references to cells, so every pointer assignment of the source is
    one map update, and reading a freed or never-allocated node is a verification error.  The
    sentinel `null_node_` is the cell at NIL.  A tree with a cursor in it is described by a
    zipper: the subtree under the cursor and the context around it. */
module RBNodes {
  type Ref = nat
  const NIL: Ref := 0

  datatype Color = Red | Black
  datatype Cell = Cell(key: int, value: int, color: Color, left: Ref, right: Ref, parent: Ref)
  type Heap = map<Ref, Cell>

  datatype Side = L | R

  function Opp(d: Side): Side { if d.L? then R else L }

  function Kid(c: Cell, d: Side): Ref { if d.L? then c.left else c.right }

  function WithKid(c: Cell, d: Side, v: Ref): Cell {
    if d.L? then c.(left := v) else c.(right := v)
  }

  datatype Entry = Entry(ref: Ref, key: int, value: int)
  datatype Tree = Leaf | Node(c: Color, l: Tree, e: Entry, r: Tree)

  /** The hole is on side `d` of the frame's node; `sib` is the tree on the other side. */
  datatype Ctx = Top | Frame(d: Side, c: Color, e: Entry, sib: Tree, up: Ctx)

  /** The node with `a` on side `d` and `b` on the other side. */
  ghost function Mk(d: Side, c: Color, a: Tree, e: Entry, b: Tree): Tree {
    if d.L? then Node(c, a, e, b) else Node(c, b, e, a)
  }

  ghost function RefOf(t: Tree): Ref { if t.Leaf? then NIL else t.e.ref }
  ghost function ParentOf(x: Ctx): Ref { if x.Top? then NIL else x.e.ref }

  ghost function Refs(t: Tree): set<Ref> {
    if t.Leaf? then {} else Refs(t.l) + {t.e.ref} + Refs(t.r)
  }

  ghost function CtxRefs(x: Ctx): set<Ref> {
    if x.Top? then {} else {x.e.ref} + Refs(x.sib) + CtxRefs(x.up)
  }

  ghost predicate HoldsEntry(h: Heap, e: Entry, c: Color) {
    e.ref != NIL && e.ref in h && h[e.ref].key == e.key && h[e.ref].value == e.value && h[e.ref].color == c
  }

  /** The heap stores `t` below parent `p`: entries, colours, child links and parent links. */
  ghost predicate TreeAt(h: Heap, t: Tree, p: Ref) {
    t.Node? ==>
      && HoldsEntry(h, t.e, t.c)
      && h[t.e.ref].parent == p && h[t.e.ref].left == RefOf(t.l) && h[t.e.ref].right == RefOf(t.r)
      && TreeAt(h, t.l, t.e.ref) && TreeAt(h, t.r, t.e.ref)
  }

  /** The heap stores the context `x` around a hole that `ref` fills. */
  ghost predicate CtxAt(h: Heap, root: Ref, x: Ctx, ref: Ref) {
    match x
    case Top => root == ref
    case Frame(d, c, e, sib, up) =>
      && HoldsEntry(h, e, c)
      && Kid(h[e.ref], d) == ref && Kid(h[e.ref], Opp(d)) == RefOf(sib) && h[e.ref].parent == ParentOf(up)
      && TreeAt(h, sib, e.ref)
      && CtxAt(h, root, up, e.ref)
  }

  ghost predicate TreeSep(t: Tree) {
    t.Node? ==>
      && t.e.ref !in Refs(t.l) && t.e.ref !in Refs(t.r) && Refs(t.l) !! Refs(t.r)
      && TreeSep(t.l) && TreeSep(t.r)
  }

  ghost predicate CtxSep(x: Ctx) {
    x.Frame? ==>
      && x.e.ref !in Refs(x.sib) && x.e.ref !in CtxRefs(x.up) && Refs(x.sib) !! CtxRefs(x.up)
      && TreeSep(x.sib) && CtxSep(x.up)
  }

  /** No node occurs twice. */
  ghost predicate Sep(f: Tree, x: Ctx) {
    TreeSep(f) && CtxSep(x) && Refs(f) !! CtxRefs(x)
  }

  /** The heap stores the tree obtained by filling `x` with `f`, and the sentinel is black. */
  ghost predicate At(h: Heap, root: Ref, f: Tree, x: Ctx) {
    && NIL in h && h[NIL].color == Black
    && TreeAt(h, f, ParentOf(x)) && CtxAt(h, root, x, RefOf(f)) && Sep(f, x)
  }

  // ---------- moving the cursor ----------

  ghost function Plug(f: Tree, x: Ctx): Tree
    decreases x
  {
    if x.Top? then f else Plug(Mk(x.d, x.c, f, x.e, x.sib), x.up)
  }

  /** `inner` inside `outer`. */
  ghost function Comp(inner: Ctx, outer: Ctx): Ctx {
    if inner.Top? then outer else inner.(up := Comp(inner.up, outer))
  }

  /** Moving the cursor one level up or down does not change what is stored. */
  lemma {:induction false} Move(h: Heap, root: Ref, f: Tree, x: Ctx)
    requires x.Frame?
    ensures At(h, root, f, x) <==> At(h, root, Mk(x.d, x.c, f, x.e, x.sib), x.up)
  {
    var t := Mk(x.d, x.c, f, x.e, x.sib);
    assert Refs(t) == Refs(f) + {x.e.ref} + Refs(x.sib);
    assert CtxRefs(x) == {x.e.ref} + Refs(x.sib) + CtxRefs(x.up);
  }

  lemma {:induction false} PlugAt(h: Heap, root: Ref, f: Tree, inner: Ctx, outer: Ctx)
    ensures At(h, root, f, Comp(inner, outer)) <==> At(h, root, Plug(f, inner), outer)
    decreases inner
  {
    if inner.Frame? {
      Move(h, root, f, Comp(inner, outer));
      PlugAt(h, root, Mk(inner.d, inner.c, f, inner.e, inner.sib), inner.up, outer);
    }
  }

  lemma {:induction false} CompTop(x: Ctx)
    ensures Comp(x, Top) == x
  {
    if x.Frame? { CompTop(x.up); }
  }

  /** The whole tree is stored exactly when the tree under the cursor and its context are. */
  lemma {:induction false} WholeAt(h: Heap, root: Ref, f: Tree, x: Ctx)
    ensures At(h, root, f, x) <==> At(h, root, Plug(f, x), Top)
  {
    CompTop(x);
    PlugAt(h, root, f, x, Top);
  }

  lemma {:induction false} RootInCtx(h: Heap, root: Ref, x: Ctx, ref: Ref)
    requires CtxAt(h, root, x, ref) && x.Frame?
    ensures root in CtxRefs(x) && root != NIL
  {
    if x.up.Frame? { RootInCtx(h, root, x.up, x.e.ref); }
  }

  lemma {:induction false} RefsAllocated(h: Heap, t: Tree, p: Ref)
    requires TreeAt(h, t, p)
    ensures Refs(t) <= h.Keys - {NIL}
  {
    if t.Node? { RefsAllocated(h, t.l, t.e.ref); RefsAllocated(h, t.r, t.e.ref); }
  }

  lemma {:induction false} CtxRefsAllocated(h: Heap, root: Ref, x: Ctx, ref: Ref)
    requires CtxAt(h, root, x, ref)
    ensures CtxRefs(x) <= h.Keys - {NIL}
  {
    if x.Frame? { RefsAllocated(h, x.sib, x.e.ref); CtxRefsAllocated(h, root, x.up, x.e.ref); }
  }

  // ---------- frames: what a heap change leaves stored ----------

  ghost predicate Same(h: Heap, g: Heap, s: set<Ref>) {
    forall r :: r in s && r in h ==> r in g && g[r] == h[r]
  }

  lemma {:induction false} TreeFrame(h: Heap, g: Heap, t: Tree, p: Ref)
    requires TreeAt(h, t, p) && Same(h, g, Refs(t))
    ensures TreeAt(g, t, p)
  {
    if t.Node? { TreeFrame(h, g, t.l, t.e.ref); TreeFrame(h, g, t.r, t.e.ref); }
  }

  lemma {:induction false} CtxFrame(h: Heap, g: Heap, root: Ref, x: Ctx, ref: Ref)
    requires CtxAt(h, root, x, ref) && Same(h, g, CtxRefs(x))
    ensures CtxAt(g, root, x, ref)
  {
    if x.Frame? { TreeFrame(h, g, x.sib, x.e.ref); CtxFrame(h, g, root, x.up, x.e.ref); }
  }

  /** Hanging a stored tree below another parent changes one parent link, or none if it is empty. */
  lemma {:induction false} Reparent(h: Heap, g: Heap, t: Tree, p: Ref, q: Ref)
    requires TreeAt(h, t, p) && TreeSep(t)
    requires Same(h, g, Refs(t) - {RefOf(t)})
    requires t.Node? ==> t.e.ref in g && g[t.e.ref] == h[t.e.ref].(parent := q)
    ensures TreeAt(g, t, q)
  {
    if t.Node? { TreeFrame(h, g, t.l, t.e.ref); TreeFrame(h, g, t.r, t.e.ref); }
  }

  /** The cell of the hole's parent after its child link was redirected from `u` to `v`, by the
      test the source uses: `u == u->parent->left`. */
  ghost function Relinked(h: Heap, p: Ref, u: Ref, v: Ref): Cell
    requires p in h
  {
    if h[p].left == u then h[p].(left := v) else h[p].(right := v)
  }

  /** Redirecting the parent's link (or the root) from `u` to `v` refills the hole with `v`. */
  lemma {:induction false} CtxRelink(h: Heap, g: Heap, root: Ref, root': Ref, x: Ctx, u: Ref, v: Ref)
    requires CtxAt(h, root, x, u) && CtxSep(x) && u !in CtxRefs(x) && u != NIL
    requires x.Top? ==> root' == v
    requires x.Frame? ==> root' == root && x.e.ref in g && g[x.e.ref] == Relinked(h, x.e.ref, u, v)
    requires Same(h, g, CtxRefs(x) - {ParentOf(x)})
    ensures CtxAt(g, root', x, v)
  {
    if x.Frame? {
      TreeFrame(h, g, x.sib, x.e.ref);
      CtxFrame(h, g, root, x.up, x.e.ref);
    }
  }

  /** Recolouring the node under the cursor. */
  lemma {:induction false} Recolor(h: Heap, root: Ref, f: Tree, x: Ctx, c: Color)
    requires At(h, root, f, x) && f.Node? && f.e.ref in h
    ensures At(h[f.e.ref := h[f.e.ref].(color := c)], root, f.(c := c), x)
  {
    var g := h[f.e.ref := h[f.e.ref].(color := c)];
    TreeFrame(h, g, f.l, f.e.ref);
    TreeFrame(h, g, f.r, f.e.ref);
    CtxFrame(h, g, root, x, f.e.ref);
  }

  /** Recolouring the child on side `d` of the node under the cursor. */
  lemma {:induction false} RecolorKid(h: Heap, root: Ref, d: Side, c: Color, a: Tree, e: Entry, b: Tree, x: Ctx,
        k: Color)
    requires At(h, root, Mk(d, c, a, e, b), x) && a.Node? && a.e.ref in h
    ensures At(h[a.e.ref := h[a.e.ref].(color := k)], root, Mk(d, c, a.(c := k), e, b), x)
  {
    var f := Frame(d, c, e, b, x);
    Move(h, root, a, f);
    Recolor(h, root, a, f, k);
    Move(h[a.e.ref := h[a.e.ref].(color := k)], root, a.(c := k), f);
  }

  /** The tree before and after a rotation towards side `d`: `y` rises, `x` sinks. */
  ghost function Unrotated(d: Side, cx: Color, a: Tree, ex: Entry, cy: Color, b: Tree, ey: Entry, c: Tree): Tree {
    Mk(d, cx, a, ex, Mk(d, cy, b, ey, c))
  }

  ghost function Rotated(d: Side, cx: Color, a: Tree, ex: Entry, cy: Color, b: Tree, ey: Entry, c: Tree): Tree {
    Mk(d, cy, Mk(d, cx, a, ex, b), ey, c)
  }

  lemma {:induction false} MkParts(h: Heap, p: Ref, d: Side, c: Color, a: Tree, e: Entry, b: Tree)
    ensures TreeAt(h, Mk(d, c, a, e, b), p) <==>
              && HoldsEntry(h, e, c) && h[e.ref].parent == p
              && Kid(h[e.ref], d) == RefOf(a) && Kid(h[e.ref], Opp(d)) == RefOf(b)
              && TreeAt(h, a, e.ref) && TreeAt(h, b, e.ref)
    ensures TreeSep(Mk(d, c, a, e, b)) <==>
              e.ref !in Refs(a) && e.ref !in Refs(b) && Refs(a) !! Refs(b) && TreeSep(a) && TreeSep(b)
    ensures Refs(Mk(d, c, a, e, b)) == Refs(a) + {e.ref} + Refs(b)
  {}

  lemma {:induction false} RotateParts(h: Heap, p: Ref, d: Side, cx: Color, a: Tree, ex: Entry, cy: Color, b: Tree,
        ey: Entry, c: Tree)
    requires TreeAt(h, Unrotated(d, cx, a, ex, cy, b, ey, c), p) && TreeSep(Unrotated(d, cx, a, ex, cy, b, ey, c))
    ensures HoldsEntry(h, ex, cx) && HoldsEntry(h, ey, cy) && ex.ref != ey.ref
    ensures h[ex.ref].parent == p && Kid(h[ex.ref], d) == RefOf(a) && Kid(h[ex.ref], Opp(d)) == ey.ref
    ensures h[ey.ref].parent == ex.ref && Kid(h[ey.ref], d) == RefOf(b) && Kid(h[ey.ref], Opp(d)) == RefOf(c)
    ensures TreeAt(h, a, ex.ref) && TreeAt(h, b, ey.ref) && TreeAt(h, c, ey.ref)
    ensures TreeSep(a) && TreeSep(b) && TreeSep(c)
    ensures {ex.ref, ey.ref} !! Refs(a) !! Refs(b) !! Refs(c)
    ensures Refs(Unrotated(d, cx, a, ex, cy, b, ey, c)) == {ex.ref, ey.ref} + Refs(a) + Refs(b) + Refs(c)
  {
    var y := Mk(d, cy, b, ey, c);
    MkParts(h, p, d, cx, a, ex, y);
    MkParts(h, ex.ref, d, cy, b, ey, c);
  }

  lemma {:induction false} RotatedParts(g: Heap, p: Ref, d: Side, cx: Color, a: Tree, ex: Entry, cy: Color, b: Tree,
        ey: Entry, c: Tree)
    requires HoldsEntry(g, ex, cx) && HoldsEntry(g, ey, cy) && ex.ref != ey.ref
    requires g[ey.ref].parent == p && Kid(g[ey.ref], d) == ex.ref && Kid(g[ey.ref], Opp(d)) == RefOf(c)
    requires g[ex.ref].parent == ey.ref && Kid(g[ex.ref], d) == RefOf(a) && Kid(g[ex.ref], Opp(d)) == RefOf(b)
    requires TreeAt(g, a, ex.ref) && TreeAt(g, b, ex.ref) && TreeAt(g, c, ey.ref)
    requires TreeSep(a) && TreeSep(b) && TreeSep(c)
    requires {ex.ref, ey.ref} !! Refs(a) !! Refs(b) !! Refs(c)
    ensures TreeAt(g, Rotated(d, cx, a, ex, cy, b, ey, c), p) && TreeSep(Rotated(d, cx, a, ex, cy, b, ey, c))
    ensures Refs(Rotated(d, cx, a, ex, cy, b, ey, c)) == {ex.ref, ey.ref} + Refs(a) + Refs(b) + Refs(c)
  {
    var x := Mk(d, cx, a, ex, b);
    MkParts(g, ey.ref, d, cx, a, ex, b);
    MkParts(g, p, d, cy, x, ey, c);
  }

  /** The pointer changes of a rotation towards `d` at `x`: `y` is its other child, `m` the
      subtree between them, `p` the parent of `x`. */
  ghost predicate RotateLinks(d: Side, h: Heap, g: Heap, root: Ref, root': Ref, x: Ref, y: Ref, m: Ref, p: Ref) {
    && x in h && y in h && m in h && p in h && g.Keys == h.Keys
    && g[x] == WithKid(h[x], Opp(d), m).(parent := y)
    && g[y] == WithKid(h[y], d, x).(parent := p)
    && (m != NIL ==> g[m] == h[m].(parent := x))
    && (p != NIL ==> root' == root && g[p] == Relinked(h, p, x, y))
    && (p == NIL ==> root' == y)
    && (forall r :: r in h && r != x && r != y && (r == NIL || (r != m && r != p)) ==> g[r] == h[r])
  }

  /** What a rotation leaves stored of the subtrees and the context around it. */
  lemma {:induction false} RotateFrames(d: Side, h: Heap, g: Heap, root: Ref, root': Ref, x: Ref, y: Ref, a: Tree,
        b: Tree, c: Tree, ctx: Ctx)
    requires RotateLinks(d, h, g, root, root', x, y, RefOf(b), ParentOf(ctx))
    requires TreeAt(h, a, x) && TreeAt(h, b, y) && TreeAt(h, c, y) && CtxAt(h, root, ctx, x)
    requires TreeSep(b) && CtxSep(ctx)
    requires {x, y} !! Refs(a) !! Refs(b) !! Refs(c) !! CtxRefs(ctx) && x != NIL && y != NIL
    ensures TreeAt(g, a, x) && TreeAt(g, b, x) && TreeAt(g, c, y) && CtxAt(g, root', ctx, y)
  {
    CtxRefsAllocated(h, root, ctx, x);
    assert b.Node? ==> b.e.ref in Refs(b);
    assert ctx.Frame? ==> ctx.e.ref in CtxRefs(ctx);
    RotateKeeps(d, h, g, root, root', x, y, RefOf(b), ParentOf(ctx), a, x);
    RotateKeeps(d, h, g, root, root', x, y, RefOf(b), ParentOf(ctx), c, y);
    RefsAllocated(h, b, y);
    Reparent(h, g, b, y, x);
    CtxRelink(h, g, root, root', ctx, x, y);
  }

  /** A subtree that none of the four references points into. */
  lemma {:induction false} RotateKeeps(d: Side, h: Heap, g: Heap, root: Ref, root': Ref, x: Ref, y: Ref, m: Ref, p: Ref,
        t: Tree, q: Ref)
    requires RotateLinks(d, h, g, root, root', x, y, m, p) && TreeAt(h, t, q)
    requires x !in Refs(t) && y !in Refs(t) && (m == NIL || m !in Refs(t)) && (p == NIL || p !in Refs(t))
    ensures TreeAt(g, t, q)
  {
    RefsAllocated(h, t, q);
    TreeFrame(h, g, t, q);
  }

  /** A rotation towards side `d` at the node under the cursor: the middle subtree changes
      parents, and the sentinel's cell is untouched. */
  lemma {:induction false} Rotate(d: Side, h: Heap, g: Heap, root: Ref, root': Ref,
               cx: Color, a: Tree, ex: Entry, cy: Color, b: Tree, ey: Entry, c: Tree, x: Ctx)
    requires At(h, root, Unrotated(d, cx, a, ex, cy, b, ey, c), x)
    requires RotateLinks(d, h, g, root, root', ex.ref, ey.ref, RefOf(b), ParentOf(x))
    ensures At(g, root', Rotated(d, cx, a, ex, cy, b, ey, c), x)
  {
    RotateParts(h, ParentOf(x), d, cx, a, ex, cy, b, ey, c);
    RotateFrames(d, h, g, root, root', ex.ref, ey.ref, a, b, c, x);
    RotateReads(h, root, d, cx, a, ex, cy, b, ey, c, x);
    RotatedParts(g, ParentOf(x), d, cx, a, ex, cy, b, ey, c);
  }

  /** What a rotation reads: the four references it touches are allocated and distinct. */
  lemma {:induction false} RotateReads(h: Heap, root: Ref, d: Side, cx: Color, a: Tree, ex: Entry, cy: Color, b: Tree,
        ey: Entry, c: Tree, x: Ctx)
    requires At(h, root, Unrotated(d, cx, a, ex, cy, b, ey, c), x)
    ensures CanRotate(d, h, ex.ref, ey.ref, RefOf(b), ParentOf(x))
  {
    RotateParts(h, ParentOf(x), d, cx, a, ex, cy, b, ey, c);
    RefsAllocated(h, b, ey.ref);
    assert b.Node? ==> b.e.ref in Refs(b);
    CtxRefsAllocated(h, root, x, ex.ref);
  }

  ghost predicate CanRotate(d: Side, h: Heap, x: Ref, y: Ref, m: Ref, p: Ref) {
    && NIL in h && x in h && y in h && m in h && p in h && x != NIL && y != NIL
    && x != y && x != m && x != p && y != m && y != p && (m == NIL || m != p)
    && Kid(h[x], Opp(d)) == y && Kid(h[y], d) == m && h[x].parent == p
  }

  /** Half way through a rotation towards side `d`. */
  ghost predicate Lifted(d: Side, h: Heap, g: Heap, x: Ref, y: Ref, m: Ref, p: Ref) {
    && x in h && y in h && m in h && p in h && g.Keys == h.Keys
    && g[x] == WithKid(h[x], Opp(d), m) && g[y] == h[y].(parent := p) && (m != NIL ==> g[m] == h[m].(parent := x))
    && (forall r :: r in h && r != x && r != y && (r == NIL || r != m) ==> g[r] == h[r])
  }
}
