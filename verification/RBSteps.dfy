/** The heap surgery of insertion and erasure, cursor position by cursor position. */
module RBSteps {
  import opened RBNodes
  import opened RBShape

  function Paint(h: Heap, r: Ref, c: Color): (g: Heap)
    requires r in h
    ensures g.Keys == h.Keys
  {
    h[r := h[r].(color := c)]
  }

  function SetLeft(h: Heap, r: Ref, v: Ref): (g: Heap)
    requires r in h
    ensures g.Keys == h.Keys
  {
    h[r := h[r].(left := v)]
  }

  function SetRight(h: Heap, r: Ref, v: Ref): (g: Heap)
    requires r in h
    ensures g.Keys == h.Keys
  {
    h[r := h[r].(right := v)]
  }

  function SetParent(h: Heap, r: Ref, v: Ref): (g: Heap)
    requires r in h
    ensures g.Keys == h.Keys
  {
    h[r := h[r].(parent := v)]
  }

  // ---------- reading around the cursor ----------

  /** The neighbours of the cursor are allocated, and its side is what the source's test
      `node == node->parent->left` finds. */
  lemma {:induction false} Neighbours(h: Heap, root: Ref, f: Tree, x: Ctx)
    requires At(h, root, f, x) && x.Frame? && (f.Node? || x.sib.Node?)
    ensures RefOf(f) in h && x.e.ref in h && RefOf(x.sib) in h
    ensures h[x.e.ref].left == RefOf(f) <==> x.d.L?
    ensures Kid(h[x.e.ref], Opp(x.d)) == RefOf(x.sib)
    ensures x.sib.Node? ==> h[RefOf(x.sib)].color == x.sib.c
    ensures x.sib.Node? ==> h[RefOf(x.sib)].left == RefOf(x.sib.l) && h[RefOf(x.sib)].right == RefOf(x.sib.r)
    ensures x.sib.Node? ==> RefOf(x.sib.l) in h && RefOf(x.sib.r) in h
    ensures h[RefOf(x.sib)].color.Black? <==> IsBlack(x.sib)
    ensures x.sib.Node? ==> (h[RefOf(x.sib.l)].color.Black? <==>
              IsBlack(x.sib.l)) && (h[RefOf(x.sib.r)].color.Black? <==> IsBlack(x.sib.r))
    ensures RefOf(f) != x.e.ref && RefOf(f) != RefOf(x.sib) && x.e.ref != RefOf(x.sib)
  {
    assert f.Node? ==> f.e.ref in Refs(f);
    assert x.sib.Node? ==> x.sib.e.ref in Refs(x.sib);
    assert TreeAt(h, x.sib, x.e.ref);
    assert x.sib.Node? ==> TreeAt(h, x.sib.l, x.sib.e.ref) && TreeAt(h, x.sib.r, x.sib.e.ref);
  }

  // ---------- insertion ----------

  ghost function Depth(x: Ctx): nat { if x.Top? then 0 else 1 + Depth(x.up) }

  /** Levels left to climb; an inner grandchild costs one pass more. */
  ghost function Inner(x: Ctx): nat {
    if x.Frame? && x.up.Frame? && x.d != x.up.d then 1 else 0
  }

  /** What holds at the head of the insert loop. */
  ghost predicate InsertState(h: Heap, root: Ref, iter: Ref, f: Tree, x: Ctx, n: int) {
    && iter == RefOf(f) && At(h, root, f, x) && InsertInv(f, x, n)
    && iter in h && h[iter].parent == ParentOf(x) && ParentOf(x) in h
    && (h[ParentOf(x)].color.Red? <==> x.Frame? && x.c.Red?)
  }

  lemma {:induction false} EstablishInsertState(h: Heap, root: Ref, f: Tree, x: Ctx, n: int)
    requires At(h, root, f, x) && InsertInv(f, x, n)
    ensures InsertState(h, root, RefOf(f), f, x, n)
  {}

  /** Parent and grandparent exist when the parent is red; what the loop reads of the family. */
  lemma {:induction false} Family(h: Heap, root: Ref, f: Tree, x: Ctx, n: int)
    requires InsertState(h, root, RefOf(f), f, x, n) && x.Frame? && x.c.Red?
    ensures x.up.Frame? && x.up.c.Black? && x.up.e.ref in h && RefOf(x.up.sib) in h
    ensures h[x.e.ref].parent == x.up.e.ref
    ensures h[x.up.e.ref].left == x.e.ref <==> x.up.d.L?
    ensures Kid(h[x.up.e.ref], Opp(x.up.d)) == RefOf(x.up.sib)
    ensures h[RefOf(x.up.sib)].color.Black? <==> IsBlack(x.up.sib)
    ensures h[x.e.ref].left == RefOf(f) <==> x.d.L?
    ensures h[x.e.ref].right == RefOf(f) <==> x.d.R?
  {
    Neighbours(h, root, f, x);
    Move(h, root, f, x);
    Neighbours(h, root, Mk(x.d, x.c, f, x.e, x.sib), x.up);
    assert Kid(h[x.e.ref], x.d) == RefOf(f);
  }

  ghost function Uncled(f: Tree, x: Ctx): Tree
    requires x.Frame? && x.up.Frame? && x.up.sib.Node?
  {
    Mk(x.up.d, Red, Mk(x.d, Black, f, x.e, x.sib), x.up.e, x.up.sib.(c := Black))
  }

  lemma {:induction false} PaintFamily(h: Heap, root: Ref, f: Tree, x: Ctx)
    requires At(h, root, f, x) && x.Frame? && x.up.Frame? && x.up.sib.Node?
    requires x.e.ref in h && x.up.e.ref in h && x.up.sib.e.ref in h
    ensures At(Paint(Paint(Paint(h, x.e.ref, Black), x.up.sib.e.ref, Black), x.up.e.ref, Red), root, Uncled(f, x),
              x.up.up)
    ensures All(Uncled(f, x), x.up.up) == All(f, x)
  {
    var p, g := Mk(x.d, x.c, f, x.e, x.sib), x.up;
    var p' := p.(c := Black);
    Move(h, root, f, x);
    Recolor(h, root, p, g, Black);
    var h1 := Paint(h, p.e.ref, Black);
    Move(h1, root, p', g);
    RecolorKid(h1, root, Opp(g.d), g.c, g.sib, g.e, p', g.up, Black);
    var h2 := Paint(h1, g.sib.e.ref, Black);
    Recolor(h2, root, Mk(g.d, g.c, p', g.e, g.sib.(c := Black)), g.up, Red);
    MoveAll(f, x);
    MoveAll(p, g);
    SameInorder(p, p', g.d, g.c, Red, g.e, g.sib, g.sib.(c := Black), g.up);
  }

  /** Colours do not take part in the key order. */
  lemma {:induction false} SameInorder(a: Tree, a': Tree, d: Side, c: Color, c': Color, e: Entry, b: Tree, b': Tree,
        x: Ctx)
    requires Inorder(a) == Inorder(a') && Inorder(b) == Inorder(b')
    ensures All(Mk(d, c, a, e, b), x) == All(Mk(d, c', a', e, b'), x)
  {
    if d.L? {
      assert Inorder(Mk(d, c, a, e, b)) == Inorder(a) + [e] + Inorder(b) == Inorder(Mk(d, c', a', e, b'));
    } else {
      assert Inorder(Mk(d, c, a, e, b)) == Inorder(b) + [e] + Inorder(a) == Inorder(Mk(d, c', a', e, b'));
    }
  }

  lemma {:induction false} PaintOuter(h: Heap, root: Ref, f: Tree, x: Ctx)
    requires At(h, root, f, x) && x.Frame? && x.up.Frame?
    requires x.e.ref in h && x.up.e.ref in h
    ensures At(Paint(Paint(h, x.e.ref, Black), x.up.e.ref, Red), root,
               Mk(x.up.d, Red, Mk(x.d, Black, f, x.e, x.sib), x.up.e, x.up.sib), x.up.up)
    ensures All(Mk(x.up.d, Red, Mk(x.d, Black, f, x.e, x.sib), x.up.e, x.up.sib), x.up.up) == All(f, x)
  {
    var p, g := Mk(x.d, x.c, f, x.e, x.sib), x.up;
    var p' := p.(c := Black);
    Move(h, root, f, x);
    Recolor(h, root, p, g, Black);
    var h1 := Paint(h, p.e.ref, Black);
    Move(h1, root, p', g);
    Recolor(h1, root, Mk(g.d, g.c, p', g.e, g.sib), g.up, Red);
    MoveAll(f, x);
    MoveAll(p, g);
    SameInorder(p, p', g.d, g.c, Red, g.e, g.sib, g.sib, g.up);
  }

  ghost function On(d: Side, t: Tree): Tree
    requires t.Node?
  {
    if d.L? then t.l else t.r
  }

  /** An inner grandchild: the parent, ready to be rotated towards its own side. */
  lemma {:induction false} BeforeInner(h: Heap, root: Ref, f: Tree, x: Ctx, n: int)
    requires InsertState(h, root, RefOf(f), f, x, n) && x.Frame? && x.c.Red? && x.up.Frame? && x.d == Opp(x.up.d)
    ensures At(h, root, Unrotated(x.up.d, Red, x.sib, x.e, Red, On(x.up.d, f), f.e, On(x.d, f)), x.up)
    ensures All(Unrotated(x.up.d, Red, x.sib, x.e, Red, On(x.up.d, f), f.e, On(x.d, f)), x.up) == All(f, x)
  {
    Move(h, root, f, x);
    MoveAll(f, x);
  }

  lemma {:induction false} AfterInner(h: Heap, root: Ref, f: Tree, x: Ctx, n: int) returns (f': Tree, x': Ctx)
    requires InsertInv(f, x, n) && x.Frame? && x.c.Red? && x.up.Frame? && x.d == Opp(x.up.d)
    requires At(h, root, Rotated(x.up.d, Red, x.sib, x.e, Red, On(x.up.d, f), f.e, On(x.d, f)), x.up)
    ensures InsertState(h, root, x.e.ref, f', x', n)
    ensures All(f', x') == All(Rotated(x.up.d, Red, x.sib, x.e, Red, On(x.up.d, f), f.e, On(x.d, f)), x.up)
    ensures Depth(x') == Depth(x) && Inner(x') < Inner(x)
  {
    var d := x.up.d;
    f', x' := Mk(d, Red, x.sib, x.e, On(d, f)), Frame(d, Red, f.e, On(x.d, f), x.up);
    InsertInner(On(d, f), f.e, On(x.d, f), d, x.e, x.sib, x.up, n);
    Move(h, root, f', x');
    MoveAll(f', x');
    EstablishInsertState(h, root, f', x', n);
  }

  lemma {:induction false} AfterOuter(h: Heap, root: Ref, f: Tree, x: Ctx, n: int) returns (x': Ctx)
    requires InsertInv(f, x, n) && x.Frame? && x.c.Red? && x.up.Frame? && x.d == x.up.d && IsBlack(x.up.sib)
    requires At(h, root, Rotated(Opp(x.d), Red, x.up.sib, x.up.e, Black, x.sib, x.e, f), x.up.up)
    ensures InsertState(h, root, RefOf(f), f, x', n)
    ensures All(f, x') == All(Rotated(Opp(x.d), Red, x.up.sib, x.up.e, Black, x.sib, x.e, f), x.up.up)
    ensures Depth(x') < Depth(x)
  {
    x' := Frame(x.d, Black, x.e, Mk(Opp(x.d), Red, x.up.sib, x.up.e, x.sib), x.up.up);
    InsertOuter(f, x.d, x.e, x.sib, x.up.e, x.up.sib, x.up.up, n);
    Move(h, root, f, x');
    MoveAll(f, x');
    EstablishInsertState(h, root, f, x', n);
  }

  lemma {:induction false} AfterFamily(h: Heap, root: Ref, f: Tree, x: Ctx, n: int)
    requires InsertInv(f, x, n) && x.Frame? && x.c.Red? && x.up.Frame? && x.up.c.Black? && !IsBlack(x.up.sib)
    requires At(h, root, Uncled(f, x), x.up.up)
    ensures InsertState(h, root, x.up.e.ref, Uncled(f, x), x.up.up, n + 1)
    ensures Depth(x.up.up) < Depth(x)
  {
    InsertUncleRed(f, x.d, x.e, x.sib, x.up.d, x.up.e, x.up.sib, x.up.up, n);
    EstablishInsertState(h, root, Uncled(f, x), x.up.up, n + 1);
  }

  /** Filling an empty place with a fresh red leaf node. */
  lemma {:induction false} Attach(h: Heap, g: Heap, root: Ref, root': Ref, x: Ctx, e: Entry)
    requires At(h, root, Leaf, x)
    requires e.ref != NIL && e.ref !in h && NIL in g && g[NIL] == h[NIL]
    requires e.ref in g && g[e.ref] == Cell(e.key, e.value, Red, NIL, NIL, ParentOf(x))
    requires x.Top? ==> root' == e.ref
    requires x.Frame? ==> root' == root && x.e.ref in h && x.e.ref in g && g[x.e.ref] == WithKid(h[x.e.ref], x.d, e.ref)
    requires Same(h, g, h.Keys - (if x.Frame? then {x.e.ref} else {}))
    ensures At(g, root', Node(Red, Leaf, e, Leaf), x)
  {
    CtxRefsAllocated(h, root, x, NIL);
    if x.Frame? {
      TreeFrame(h, g, x.sib, x.e.ref);
      CtxFrame(h, g, root, x.up, x.e.ref);
    }
  }

  // ---------- erasure ----------

  ghost function Far(x: Ctx): Tree
    requires x.Frame? && x.sib.Node?
  {
    if x.d.L? then x.sib.r else x.sib.l
  }

  ghost function Near(x: Ctx): Tree
    requires x.Frame? && x.sib.Node?
  {
    if x.d.L? then x.sib.l else x.sib.r
  }

  /** Bounds the passes left: none at the root or at a red node, one when the far nephew is red
      (the last rotation is due), otherwise at most one per level above plus that last one. */
  ghost function Rank(f: Tree, x: Ctx): nat {
    if x.Top? || !IsBlack(f) then 0
    else if x.sib.Node? && x.sib.c.Black? && !IsBlack(Far(x)) then 1
    else 2 + Depth(x)
  }

  /** What holds at the head of the erase loop; the cursor's own parent link is right even when
      the cursor is the sentinel. */
  ghost predicate EraseState(h: Heap, root: Ref, fix: Ref, f: Tree, x: Ctx, n: int) {
    && fix == RefOf(f) && At(h, root, f, x) && EraseInv(f, x, n)
    && fix in h && h[fix].parent == ParentOf(x)
  }

  lemma {:induction false} PaintBrotherRed(h: Heap, root: Ref, f: Tree, x: Ctx)
    requires At(h, root, f, x) && x.Frame? && x.sib.Node? && x.e.ref in h && x.sib.e.ref in h
    ensures At(Paint(Paint(h, x.sib.e.ref, Black), x.e.ref, Red), root,
               Mk(x.d, Red, f, x.e, x.sib.(c := Black)), x.up)
    ensures All(Mk(x.d, Red, f, x.e, x.sib.(c := Black)), x.up) == All(f, x)
  {
    Move(h, root, f, x);
    RecolorKid(h, root, Opp(x.d), x.c, x.sib, x.e, f, x.up, Black);
    Recolor(Paint(h, x.sib.e.ref, Black), root, Mk(x.d, x.c, f, x.e, x.sib.(c := Black)), x.up, Red);
    MoveAll(f, x);
    SameInorder(f, f, x.d, x.c, Red, x.e, x.sib, x.sib.(c := Black), x.up);
  }

  lemma {:induction false} PaintBothBlack(h: Heap, root: Ref, f: Tree, x: Ctx)
    requires At(h, root, f, x) && x.Frame? && x.sib.Node? && x.sib.e.ref in h
    ensures At(Paint(h, x.sib.e.ref, Red), root, Mk(x.d, x.c, f, x.e, x.sib.(c := Red)), x.up)
    ensures All(Mk(x.d, x.c, f, x.e, x.sib.(c := Red)), x.up) == All(f, x)
  {
    Move(h, root, f, x);
    RecolorKid(h, root, Opp(x.d), x.c, x.sib, x.e, f, x.up, Red);
    MoveAll(f, x);
    SameInorder(f, f, x.d, x.c, x.c, x.e, x.sib, x.sib.(c := Red), x.up);
  }

  /** The context seen from the brother. */
  ghost function FromBrother(f: Tree, x: Ctx): Ctx
    requires x.Frame?
  {
    Frame(Opp(x.d), x.c, x.e, f, x.up)
  }

  /** Walking over to the brother and back changes nothing. */
  lemma {:induction false} ToBrother(h: Heap, root: Ref, f: Tree, x: Ctx)
    requires x.Frame?
    ensures At(h, root, f, x) <==> At(h, root, x.sib, FromBrother(f, x))
    ensures All(x.sib, FromBrother(f, x)) == All(f, x)
  {
    Move(h, root, f, x);
    Move(h, root, x.sib, FromBrother(f, x));
    MoveAll(f, x);
    MoveAll(x.sib, FromBrother(f, x));
  }

  lemma {:induction false} PaintNearRed(h: Heap, root: Ref, f: Tree, x: Ctx)
    requires At(h, root, f, x) && x.Frame? && x.sib.Node? && Near(x).Node?
    requires x.sib.e.ref in h && Near(x).e.ref in h
    ensures At(Paint(Paint(h, Near(x).e.ref, Black), x.sib.e.ref, Red), root,
               Mk(x.d, Red, Near(x).(c := Black), x.sib.e, Far(x)), FromBrother(f, x))
    ensures All(Mk(x.d, Red, Near(x).(c := Black), x.sib.e, Far(x)), FromBrother(f, x)) == All(f, x)
  {
    var b, y := x.sib, FromBrother(f, x);
    ToBrother(h, root, f, x);
    RecolorKid(h, root, x.d, b.c, Near(x), b.e, Far(x), y, Black);
    Recolor(Paint(h, Near(x).e.ref, Black), root, Mk(x.d, b.c, Near(x).(c := Black), b.e, Far(x)), y, Red);
    SameInorder(Near(x), Near(x).(c := Black), x.d, b.c, Red, b.e, Far(x), Far(x), y);
  }

  lemma {:induction false} PaintFarRed(h: Heap, root: Ref, f: Tree, x: Ctx)
    requires At(h, root, f, x) && x.Frame? && x.sib.Node? && Far(x).Node?
    requires x.e.ref in h && x.sib.e.ref in h && Far(x).e.ref in h
    ensures At(Paint(Paint(Paint(h, x.sib.e.ref, x.c), x.e.ref, Black), Far(x).e.ref, Black), root,
               Mk(x.d, Black, f, x.e, Mk(x.d, x.c, Near(x), x.sib.e, Far(x).(c := Black))), x.up)
    ensures All(Mk(x.d, Black, f, x.e, Mk(x.d, x.c, Near(x), x.sib.e, Far(x).(c := Black))), x.up) == All(f, x)
  {
    var b, y := x.sib, FromBrother(f, x);
    ToBrother(h, root, f, x);
    Recolor(h, root, b, y, x.c);
    var b1 := b.(c := x.c);
    var h1 := Paint(h, b.e.ref, x.c);
    Move(h1, root, b1, y);
    Recolor(h1, root, Mk(x.d, x.c, f, x.e, b1), x.up, Black);
    var h2 := Paint(h1, x.e.ref, Black);
    var y2 := y.(c := Black);
    Move(h2, root, b1, y2);
    RecolorKid(h2, root, Opp(x.d), x.c, Far(x), b.e, Near(x), y2, Black);
    var b3 := Mk(x.d, x.c, Near(x), b.e, Far(x).(c := Black));
    Move(Paint(h2, Far(x).e.ref, Black), root, b3, y2);
    MoveAll(f, x);
    SameInorder(Near(x), Near(x), x.d, b.c, x.c, b.e, Far(x), Far(x).(c := Black), Top);
    SameInorder(f, f, x.d, x.c, Black, x.e, b, b3, x.up);
  }

  /** What the erase loop reads around the cursor; the brother is a real node. */
  lemma {:induction false} EraseReads(h: Heap, root: Ref, f: Tree, x: Ctx, n: int)
    requires EraseState(h, root, RefOf(f), f, x, n) && x.Frame? && IsBlack(f)
    ensures x.sib.Node? && x.e.ref in h && x.sib.e.ref in h
    ensures RefOf(x.sib.l) in h && RefOf(x.sib.r) in h
    ensures h[x.e.ref].left == RefOf(f) <==> x.d.L?
    ensures Kid(h[x.e.ref], Opp(x.d)) == x.sib.e.ref && h[x.e.ref].color == x.c
    ensures h[x.sib.e.ref].color == x.sib.c && h[x.sib.e.ref].left == RefOf(x.sib.l)
    ensures h[x.sib.e.ref].right == RefOf(x.sib.r)
    ensures (h[RefOf(x.sib.l)].color.Black? <==> IsBlack(x.sib.l))
    ensures (h[RefOf(x.sib.r)].color.Black? <==> IsBlack(x.sib.r))
    ensures RefOf(f) != x.e.ref && RefOf(f) != x.sib.e.ref && x.e.ref != x.sib.e.ref && x.e.ref != NIL
    ensures x.sib.e.ref != NIL
  {
    BrotherIsNode(f, x, n);
    Neighbours(h, root, f, x);
  }

  lemma {:induction false} AfterBrotherRed(h: Heap, root: Ref, f: Tree, x: Ctx, n: int) returns (x': Ctx)
    requires EraseInv(f, x, n) && IsBlack(f) && x.Frame? && x.sib.Node? && x.sib.c.Red?
    requires At(h, root, Rotated(x.d, Red, f, x.e, Black, Near(x), x.sib.e, Far(x)), x.up)
    requires f.Leaf? ==> NIL in h && h[NIL].parent == x.e.ref
    ensures EraseState(h, root, RefOf(f), f, x', n)
    ensures All(f, x') == All(Rotated(x.d, Red, f, x.e, Black, Near(x), x.sib.e, Far(x)), x.up)
    ensures x'.Frame? && x'.d == x.d && x'.c.Red? && x'.sib.Node? && x'.sib.c.Black?
  {
    x' := Frame(x.d, Red, x.e, Near(x), Frame(x.d, Black, x.sib.e, Far(x), x.up));
    EraseBrotherRed(f, x.d, x.c, x.e, Near(x), x.sib.e, Far(x), x.up, n);
    Move(h, root, Mk(x.d, Red, f, x.e, Near(x)), x'.up);
    Move(h, root, f, x');
    MoveAll(Mk(x.d, Red, f, x.e, Near(x)), x'.up);
    MoveAll(f, x');
  }

  lemma {:induction false} AfterBothBlack(h: Heap, root: Ref, f: Tree, x: Ctx, n: int) returns (f': Tree, n': int)
    requires EraseInv(f, x, n) && IsBlack(f) && x.Frame? && x.sib.Node? && x.sib.c.Black?
    requires IsBlack(x.sib.l) && IsBlack(x.sib.r)
    requires At(h, root, Mk(x.d, x.c, f, x.e, x.sib.(c := Red)), x.up)
    ensures f' == Mk(x.d, x.c, f, x.e, x.sib.(c := Red)) && EraseState(h, root, x.e.ref, f', x.up, n')
    ensures Rank(f', x.up) < Rank(f, x) && (x.c.Red? ==> Rank(f', x.up) == 0)
  {
    f', n' := Mk(x.d, x.c, f, x.e, x.sib.(c := Red)), n + Bk(x.c);
    EraseBothBlack(f, x, n);
  }

  lemma {:induction false} AfterNearRed(h: Heap, root: Ref, f: Tree, x: Ctx, n: int) returns (x': Ctx)
    requires EraseInv(f, x, n) && IsBlack(f) && x.Frame? && x.sib.Node? && x.sib.c.Black?
    requires IsBlack(Far(x)) && !IsBlack(Near(x)) && (f.Leaf? ==> NIL in h && h[NIL].parent == x.e.ref)
    requires At(h, root,
              Rotated(Opp(x.d), Red, Far(x), x.sib.e, Black, On(Opp(x.d), Near(x)), Near(x).e, On(x.d, Near(x))),
                FromBrother(f, x))
    ensures EraseState(h, root, RefOf(f), f, x', n)
    ensures All(f, x') ==
              All(Rotated(Opp(x.d), Red, Far(x), x.sib.e, Black, On(Opp(x.d), Near(x)), Near(x).e, On(x.d, Near(x))),
                              FromBrother(f, x))
    ensures Rank(f, x') == 1 && Rank(f, x) > 1
  {
    var d, t := x.d, Near(x);
    x' := x.(sib := Mk(d, Black, On(d, t), t.e, Mk(d, Red, On(Opp(d), t), x.sib.e, Far(x))));
    EraseNearRed(f, d, x.c, x.e, On(d, t), t.e, On(Opp(d), t), x.sib.e, Far(x), x.up, n);
    ToBrother(h, root, f, x');
  }

  lemma {:induction false} AfterFarRed(h: Heap, root: Ref, f: Tree, x: Ctx, n: int) returns (f': Tree, m: int)
    requires EraseInv(f, x, n) && IsBlack(f) && x.Frame? && x.sib.Node? && x.sib.c.Black? && !IsBlack(Far(x))
    requires At(h, root, Rotated(x.d, Black, f, x.e, x.c, Near(x), x.sib.e, Far(x).(c := Black)), x.up)
    ensures EraseState(h, root, root, f', Top, m)
    ensures All(f', Top) == All(Rotated(x.d, Black, f, x.e, x.c, Near(x), x.sib.e, Far(x).(c := Black)), x.up)
    ensures Rank(f', Top) == 0 && Rank(f, x) == 1
  {
    EraseFarRed(f, x.d, x.c, x.e, Near(x), x.sib.e, Far(x), x.up, n);
    f', m := CursorToRoot(h, root, Rotated(x.d, Black, f, x.e, x.c, Near(x), x.sib.e, Far(x).(c := Black)), x.up,
        n + 1 + Bk(x.c));
  }

  /** A balanced tree with the cursor at its root leaves nothing to repair. */
  lemma {:induction false} CursorToRoot(h: Heap, root: Ref, t: Tree, x: Ctx, n: int) returns (f': Tree, m: int)
    requires At(h, root, t, x) && Balanced(t, x, n)
    ensures t.Node? ==> EraseState(h, root, root, f', Top, m)
    ensures All(f', Top) == All(t, x)
  {
    m := PlugBalanced(t, x, n);
    f' := Plug(t, x);
    WholeAt(h, root, t, x);
    PlugInorder(t, x);
    PlugRefs(t, x);
    assert All(f', Top) == Inorder(f');
  }

  /** Blackening the cursor repays the missing black node. */
  lemma {:induction false} BlackenCursor(h: Heap, root: Ref, f: Tree, x: Ctx, n: int) returns (t: Tree, m: int)
    requires EraseState(h, root, RefOf(f), f, x, n) && (x.Top? || !IsBlack(f))
    ensures At(Paint(h, RefOf(f), Black), root, t, Top) && Balanced(t, Top, m)
    ensures Inorder(t) == All(f, x)
  {
    var g := Paint(h, RefOf(f), Black);
    if f.Leaf? {
      assert g == h;
      t, m := f, n;
      assert All(f, x) == Inorder(f);
    } else {
      var b := f.(c := Black);
      Recolor(h, root, f, x, Black);
      m := PlugBalanced(b, x, if IsBlack(f) then n else n + 1);
      t := Plug(b, x);
      WholeAt(g, root, b, x);
      PlugInorder(b, x);
    }
  }

  // ---------- taking a node out ----------

  /** What is left to do once a node of colour `c` was spliced out and `z` took its place. */
  ghost predicate Spliced(c: Color, z: Tree, x: Ctx, n: int) {
    if c.Red? then Balanced(z, x, n) else EraseInv(z, x, n)
  }

  lemma {:induction false} SpliceOut(d: Side, c: Color, e: Entry, z: Tree, x: Ctx, n: int) returns (k: int)
    requires Balanced(Mk(d, c, Leaf, e, z), x, n)
    ensures Spliced(c, z, x, k)
  {
    k := n - Bk(c);
    RBMk(d, c, Leaf, e, z, k);
    if z.Node? { RBMk(L, Black, z.l, z.e, z.r, k); }
  }

  lemma {:induction false} SplicedSwap(c: Color, z: Tree, inner: Ctx, d: Side, fc: Color, e: Entry, e': Entry,
        sib: Tree, up: Ctx, k: int)
    requires Spliced(c, z, Comp(inner, Frame(d, fc, e, sib, up)), k)
    ensures Spliced(c, z, Comp(inner, Frame(d, fc, e', sib, up)), k)
  {
    CtxRBComp(inner, d, fc, e, e', sib, up, if c.Red? then k else k + 1);
  }

  /** Only left turns, as `_tree_minimum` makes them. */
  ghost predicate LeftSpine(x: Ctx) { x.Frame? ==> x.d.L? && LeftSpine(x.up) }

  lemma {:induction false} LeftSpinePre(x: Ctx)
    requires LeftSpine(x)
    ensures Pre(x) == []
  {
    if x.Frame? { LeftSpinePre(x.up); }
  }

  lemma {:induction false} UnplugBalanced(f: Tree, inner: Ctx, outer: Ctx, m: int) returns (n: int)
    requires Balanced(Plug(f, inner), outer, m)
    ensures Balanced(f, Comp(inner, outer), n)
    decreases inner
  {
    n := m;
    if inner.Frame? {
      n := UnplugBalanced(Mk(inner.d, inner.c, f, inner.e, inner.sib), inner.up, outer, m);
      n := n - Bk(inner.c);
      MoveBalanced(f, Comp(inner, outer), n);
    }
  }

  lemma {:induction false} CompRefs(inner: Ctx, outer: Ctx)
    ensures CtxRefs(Comp(inner, outer)) == CtxRefs(inner) + CtxRefs(outer)
  {
    if inner.Frame? { CompRefs(inner.up, outer); }
  }

  /** `y` has been cut loose: it holds the empty tree on its left and `t` on its right, and the
      node `e` it is to replace still has `l` on its left. */
  ghost predicate Loose(h: Heap, root: Ref, e: Ref, cx: Color, l: Tree, cy: Color, ey: Entry, t: Tree, x: Ctx) {
    && NIL in h && h[NIL].color == Black && e in h && e != NIL
    && CtxAt(h, root, x, e) && CtxSep(x)
    && h[e].left == RefOf(l) && h[e].color == cx && h[e].parent == ParentOf(x)
    && HoldsEntry(h, ey, cy) && h[ey.ref].left == NIL && h[ey.ref].right == RefOf(t)
    && TreeAt(h, l, e) && TreeAt(h, t, ey.ref) && l.Node? && TreeSep(l) && TreeSep(t)
    && {e} !! {ey.ref} !! Refs(l) !! Refs(t) !! CtxRefs(x)
  }

  /** What taking out a node with at most one child reads. */
  lemma {:induction false} UnlinkReads(h: Heap, root: Ref, f: Tree, x: Ctx)
    requires At(h, root, f, x) && f.Node?
    ensures f.e.ref in h && f.e.ref != NIL && f.e.ref !in CtxRefs(x) && h[f.e.ref].parent == ParentOf(x)
    ensures h[f.e.ref].left == RefOf(f.l) && h[f.e.ref].right == RefOf(f.r) && h[f.e.ref].color == f.c
    ensures RefOf(f.l) in h && RefOf(f.r) in h && RefOf(f.l) != f.e.ref && RefOf(f.r) != f.e.ref
    ensures TreeAt(h, f.l, f.e.ref) && TreeAt(h, f.r, f.e.ref) && TreeSep(f.l) && TreeSep(f.r)
    ensures Refs(f.l) !! CtxRefs(x) && Refs(f.r) !! CtxRefs(x)
    ensures RefOf(f.l) == NIL <==> f.l.Leaf?
    ensures RefOf(f.r) == NIL <==> f.r.Leaf?
  {
    RefsAllocated(h, f, ParentOf(x));
    assert f.l.Node? ==> f.l.e.ref in Refs(f.l);
    assert f.r.Node? ==> f.r.e.ref in Refs(f.r);
  }

  /** The smallest node of the right subtree, spliced out, with its entry moved up to the erased
      node: colours and heights as after any splice, keys as before without the erased one. */
  lemma {:induction false} MinimumOut(f: Tree, x: Ctx, n: int, s: Tree, spine: Ctx) returns (k: int)
    requires f.Node? && Balanced(f, x, n) && f.r == Plug(s, spine) && LeftSpine(spine) && s.Node? && s.l.Leaf?
    ensures Spliced(s.c, s.r, Comp(spine, Frame(R, f.c, s.e, f.l, x)), k)
    ensures All(s.r, Comp(spine, Frame(R, f.c, s.e, f.l, x))) == (Pre(x) + Inorder(f.l)) + (Inorder(f.r) + Post(x))
  {
    var xf := Frame(R, f.c, f.e, f.l, x);
    MoveBalanced(f.r, xf, n - Bk(f.c));
    var n1 := UnplugBalanced(s, spine, xf, n - Bk(f.c));
    k := SpliceOut(L, s.c, s.e, s.r, Comp(spine, xf), n1);
    SplicedSwap(s.c, s.r, spine, R, f.c, f.e, s.e, f.l, x, k);
    MinimumOrder(f, x, s, spine);
  }

  lemma {:induction false} MinimumOrder(f: Tree, x: Ctx, s: Tree, spine: Ctx)
    requires f.Node? && f.r == Plug(s, spine) && LeftSpine(spine) && s.Node? && s.l.Leaf?
    ensures All(s.r, Comp(spine, Frame(R, f.c, s.e, f.l, x))) == (Pre(x) + Inorder(f.l)) + (Inorder(f.r) + Post(x))
  {
    var xf := Frame(R, f.c, s.e, f.l, x);
    LeftSpinePre(spine);
    PlugInorder(s, spine);
    PlugInorder(s.r, spine);
    PlugAll(s.r, spine, xf);
    assert Inorder(s) == [s.e] + Inorder(s.r);
    assert Inorder(f.r) == Inorder(s) + Post(spine);
    assert Inorder(Plug(s.r, spine)) == Inorder(s.r) + Post(spine);
    MinimumSeq(Pre(x), Inorder(f.l), s.e, Inorder(s.r), Post(spine), Post(x));
  }

  lemma {:induction false} MinimumSeq(p: seq<Entry>, l: seq<Entry>, e: Entry, r: seq<Entry>, m: seq<Entry>,
        q: seq<Entry>)
    ensures (p + l + [e]) + (r + m) + q == (p + l) + (([e] + r + m) + q)
  {}

  /** When the minimum is the right child itself, setting the parent link of its right child
      (which may be the sentinel) is all that is needed to cut it loose. */
  lemma {:induction false} NextIsMinimum(h: Heap, root: Ref, f: Tree, x: Ctx, s: Tree, spine: Ctx)
    requires At(h, root, f, x) && f.Node? && f.l.Node? && f.r == Plug(s, spine) && s.Node? && s.l.Leaf?
    requires At(h, root, s, Comp(spine, Frame(R, f.c, f.e, f.l, x))) && s.e.ref in h && h[s.e.ref].parent == f.e.ref
    ensures spine.Top? && RefOf(s.r) in h
    ensures Loose(SetParent(h, RefOf(s.r), s.e.ref), root, f.e.ref, f.c, f.l, s.c, s.e, s.r, x)
  {
    CompRefs(spine, Frame(R, f.c, f.e, f.l, x));
    if spine.Frame? {
      assert spine.e.ref == f.e.ref;
      PlugRefs(s, spine);
      assert spine.e.ref in Refs(f.r);
      assert false;
    }
    UnlinkReads(h, root, f, x);
    var g := SetParent(h, RefOf(s.r), s.e.ref);
    RefsAllocated(h, f, ParentOf(x));
    CtxRefsAllocated(h, root, x, f.e.ref);
    assert s.r.Node? ==> g == h;
    TreeFrame(h, g, f.l, f.e.ref);
    TreeFrame(h, g, s.r, s.e.ref);
    CtxFrame(h, g, root, x, f.e.ref);
  }

  /** Otherwise the minimum's right child has taken its place, and the minimum takes over the
      whole remaining right subtree `t`. */
  lemma {:induction false} LooseAfter(h: Heap, root: Ref, f: Tree, x: Ctx, cy: Color, ey: Entry)
    requires At(h, root, f, x) && f.Node? && f.l.Node? && f.r.Node?
    requires HoldsEntry(h, ey, cy) && h[ey.ref].left == NIL && ey.ref !in Refs(f) && ey.ref !in CtxRefs(x)
    requires f.e.ref in h && f.r.e.ref in h
    ensures Loose(SetParent(SetRight(h, ey.ref, f.r.e.ref), f.r.e.ref, ey.ref), root, f.e.ref, f.c, f.l, cy, ey, f.r, x)
  {
    UnlinkReads(h, root, f, x);
    RefsAllocated(h, f, ParentOf(x));
    CtxRefsAllocated(h, root, x, f.e.ref);
    assert f.r.e.ref in Refs(f.r);
    var g := SetParent(SetRight(h, ey.ref, f.r.e.ref), f.r.e.ref, ey.ref);
    TreeFrame(h, g, f.l, f.e.ref);
    Reparent(h, g, f.r, f.e.ref, ey.ref);
    CtxFrame(h, g, root, x, f.e.ref);
  }

  lemma {:induction false} LooseAfterCut(h: Heap, root: Ref, f: Tree, x: Ctx, s: Tree, spine: Ctx) returns (v: Ref)
    requires f.Node? && f.l.Node? && s.Node? && spine.Frame? && Sep(s, Comp(spine, Frame(R, f.c, f.e, f.l, x)))
    requires At(h, root, s.r, Comp(spine, Frame(R, f.c, f.e, f.l, x))) && HoldsEntry(h, s.e, s.c)
    requires h[s.e.ref].left == NIL
    ensures f.e.ref in h && f.e.ref != s.e.ref && h[f.e.ref].right == v && v in h && v != NIL
    ensures Loose(SetParent(SetRight(h, s.e.ref, v), v, s.e.ref), root, f.e.ref, f.c, f.l, s.c, s.e, Plug(s.r, spine),
              x)
  {
    var t, xf := Plug(s.r, spine), Frame(R, f.c, f.e, f.l, x);
    CompRefs(spine, xf);
    PlugRefs(s.r, spine);
    PlugAt(h, root, s.r, spine, xf);
    Move(h, root, t, xf);
    var w := Node(f.c, f.l, f.e, t);
    UnlinkReads(h, root, w, x);
    v := RefOf(t);
    LooseAfter(h, root, w, x, s.c, s.e);
  }

  /** From the new node at the top of the erased place down to the hole the minimum left. */
  lemma {:induction false} ToHole(h: Heap, root: Ref, f: Tree, x: Ctx, s: Tree, spine: Ctx)
    requires f.Node? && s.Node? && At(h, root, Node(f.c, f.l, s.e, Plug(s.r, spine)), x)
    requires s.r.Leaf? ==> NIL in h && h[NIL].parent == ParentOf(Comp(spine, Frame(R, f.c, s.e, f.l, x)))
    ensures At(h, root, s.r, Comp(spine, Frame(R, f.c, s.e, f.l, x)))
    ensures RefOf(s.r) in h && h[RefOf(s.r)].parent == ParentOf(Comp(spine, Frame(R, f.c, s.e, f.l, x)))
  {
    Move(h, root, Plug(s.r, spine), Frame(R, f.c, s.e, f.l, x));
    PlugAt(h, root, s.r, spine, Frame(R, f.c, s.e, f.l, x));
  }

  /** The result of putting `y` in the place of `e`. */
  lemma {:induction false} Supplanted(h: Heap, g: Heap, root: Ref, e: Ref, cx: Color, l: Tree, ey: Entry, t: Tree,
        x: Ctx)
    requires NIL in h && h[NIL].color == Black && NIL in g && g[NIL] == h[NIL]
    requires CtxAt(h, root, x, ey.ref) && CtxSep(x) && TreeAt(h, l, e) && TreeAt(h, t, ey.ref)
    requires l.Node? && TreeSep(l) && TreeSep(t)
    requires {ey.ref} !! Refs(l) !! Refs(t) !! CtxRefs(x)
    requires HoldsEntry(g, ey, cx) && g[ey.ref].left == RefOf(l) && g[ey.ref].right == RefOf(t)
    requires g[ey.ref].parent == ParentOf(x)
    requires l.e.ref in h && l.e.ref in g && g[l.e.ref] == h[l.e.ref].(parent := ey.ref)
    requires Same(h, g, h.Keys - {ey.ref, l.e.ref})
    ensures At(g, root, Node(cx, l, ey, t), x)
  {
    assert l.e.ref in Refs(l);
    RefsAllocated(h, l, e);
    RefsAllocated(h, t, ey.ref);
    CtxRefsAllocated(h, root, x, ey.ref);
    Reparent(h, g, l, e, ey.ref);
    TreeFrame(h, g, t, ey.ref);
    CtxFrame(h, g, root, x, ey.ref);
  }

  // ---------- which references a tree uses ----------

  ghost function RefSet(s: seq<Entry>): set<Ref> { set e | e in s :: e.ref }

  lemma {:induction false} RefSetAppend(a: seq<Entry>, b: seq<Entry>)
    ensures RefSet(a + b) == RefSet(a) + RefSet(b)
  {
    forall r | r in RefSet(a) + RefSet(b) ensures r in RefSet(a + b) {
      if r in RefSet(a) {
        var e :| e in a && e.ref == r;
        assert e in a + b;
      } else {
        var e :| e in b && e.ref == r;
        assert e in a + b;
      }
    }
  }

  lemma {:induction false} RefsInorder(t: Tree)
    ensures Refs(t) == RefSet(Inorder(t))
  {
    if t.Node? {
      RefsInorder(t.l);
      RefsInorder(t.r);
      RefSetAppend(Inorder(t.l), [t.e]);
      RefSetAppend(Inorder(t.l) + [t.e], Inorder(t.r));
    }
  }

  lemma {:induction false} RefsAll(f: Tree, x: Ctx)
    ensures Refs(f) + CtxRefs(x) == RefSet(All(f, x))
  {
    PlugInorder(f, x);
    RefsInorder(Plug(f, x));
    PlugRefs(f, x);
  }

  lemma {:induction false} PlugRefs(f: Tree, x: Ctx)
    ensures Refs(Plug(f, x)) == Refs(f) + CtxRefs(x)
    decreases x
  {
    if x.Frame? { PlugRefs(Mk(x.d, x.c, f, x.e, x.sib), x.up); }
  }

  /** The entries without the node under the cursor use every other reference. */
  lemma {:induction false} RefsWithout(f: Tree, x: Ctx)
    requires Sep(f, x) && f.Node?
    ensures RefSet((Pre(x) + Inorder(f.l)) + (Inorder(f.r) + Post(x))) == Refs(f) + CtxRefs(x) - {f.e.ref}
  {
    CtxRefSet(x);
    RefsInorder(f.l);
    RefsInorder(f.r);
    RefSetAppend(Pre(x), Inorder(f.l));
    RefSetAppend(Inorder(f.r), Post(x));
    RefSetAppend(Pre(x) + Inorder(f.l), Inorder(f.r) + Post(x));
  }

  lemma {:induction false} CtxRefSet(x: Ctx)
    ensures CtxRefs(x) == RefSet(Pre(x)) + RefSet(Post(x))
  {
    RefsAll(Leaf, x);
    assert All(Leaf, x) == Pre(x) + Post(x);
    RefSetAppend(Pre(x), Post(x));
  }
}
