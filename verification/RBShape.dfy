/** Key order, colours and black heights of red-black trees, independent of the heap. */
module RBShape {
  import opened RBNodes
  import opened Powers

  // ---------- key order ----------

  ghost function Inorder(t: Tree): seq<Entry> {
    if t.Leaf? then [] else Inorder(t.l) + [t.e] + Inorder(t.r)
  }

  ghost function Pre(x: Ctx): seq<Entry> {
    if x.Top? then [] else if x.d.L? then Pre(x.up) else Pre(x.up) + Inorder(x.sib) + [x.e]
  }

  ghost function Post(x: Ctx): seq<Entry> {
    if x.Top? then [] else if x.d.R? then Post(x.up) else [x.e] + Inorder(x.sib) + Post(x.up)
  }

  /** The entries of the whole tree, in key order. */
  ghost function All(f: Tree, x: Ctx): seq<Entry> { Pre(x) + Inorder(f) + Post(x) }

  ghost predicate Sorted(s: seq<Entry>) {
    forall i, j :: 0 <= i < j < |s| ==> s[i].key < s[j].key
  }

  lemma {:induction false} Assoc(p: seq<Entry>, a: seq<Entry>, e: Entry, b: seq<Entry>, q: seq<Entry>)
    ensures p + a + ([e] + b + q) == p + (a + [e] + b) + q == (p + a + [e]) + b + q
  {}

  lemma {:induction false} MoveAll(f: Tree, x: Ctx)
    requires x.Frame?
    ensures All(f, x) == All(Mk(x.d, x.c, f, x.e, x.sib), x.up)
  {
    if x.d.L? {
      Assoc(Pre(x.up), Inorder(f), x.e, Inorder(x.sib), Post(x.up));
    } else {
      Assoc(Pre(x.up), Inorder(x.sib), x.e, Inorder(f), Post(x.up));
    }
  }

  lemma {:induction false} PlugAll(f: Tree, inner: Ctx, outer: Ctx)
    ensures All(f, Comp(inner, outer)) == All(Plug(f, inner), outer)
    decreases inner
  {
    if inner.Frame? {
      MoveAll(f, Comp(inner, outer));
      PlugAll(Mk(inner.d, inner.c, f, inner.e, inner.sib), inner.up, outer);
    }
  }

  lemma {:induction false} PlugInorder(f: Tree, x: Ctx)
    ensures Inorder(Plug(f, x)) == All(f, x)
  {
    CompTop(x);
    PlugAll(f, x, Top);
    assert All(Plug(f, x), Top) == Inorder(Plug(f, x));
  }

  lemma {:induction false} InorderMk(d: Side, c: Color, a: Tree, e: Entry, b: Tree)
    ensures Inorder(Mk(d, c, a, e, b)) == if d.L? then Inorder(a) + [e] + Inorder(b) else Inorder(b) + [e] + Inorder(a)
  {}

  lemma {:induction false} Assoc2(a: seq<Entry>, x: Entry, b: seq<Entry>, y: Entry, c: seq<Entry>)
    ensures a + [x] + (b + [y] + c) == (a + [x] + b) + [y] + c
  {}

  lemma {:induction false} RotateAll(d: Side, cx: Color, a: Tree, ex: Entry, cy: Color, b: Tree, ey: Entry, c: Tree,
        x: Ctx)
    ensures All(Unrotated(d, cx, a, ex, cy, b, ey, c), x) == All(Rotated(d, cx, a, ex, cy, b, ey, c), x)
  {
    InorderMk(d, cy, b, ey, c);
    InorderMk(d, cx, a, ex, Mk(d, cy, b, ey, c));
    InorderMk(d, cx, a, ex, b);
    InorderMk(d, cy, Mk(d, cx, a, ex, b), ey, c);
    Assoc2(Inorder(a), ex, Inorder(b), ey, Inorder(c));
    Assoc2(Inorder(c), ey, Inorder(b), ex, Inorder(a));
  }

  // ---------- the map a sorted sequence of entries stands for ----------

  ghost function ToMap(s: seq<Entry>): map<int, int> {
    if s == [] then map[] else ToMap(s[..|s| - 1])[s[|s| - 1].key := s[|s| - 1].value]
  }

  lemma {:induction false} ToMapAppend(a: seq<Entry>, b: seq<Entry>)
    ensures ToMap(a + b) == ToMap(a) + ToMap(b)
  {
    if b == [] {
      assert a + b == a;
    } else {
      var b' := b[..|b| - 1];
      assert (a + b)[..|a + b| - 1] == a + b';
      ToMapAppend(a, b');
    }
  }

  lemma {:induction false} ToMapKeys(s: seq<Entry>, k: int)
    ensures k in ToMap(s) <==> exists i :: 0 <= i < |s| && s[i].key == k
  {
    if s != [] {
      var s' := s[..|s| - 1];
      ToMapKeys(s', k);
      assert forall i :: 0 <= i < |s'| ==> s'[i] == s[i];
      if k in ToMap(s) && k != s[|s| - 1].key {
        var i :| 0 <= i < |s'| && s'[i].key == k;
        assert s[i].key == k;
      }
    }
  }

  lemma {:induction false} ToMapSize(s: seq<Entry>)
    requires Sorted(s)
    ensures |ToMap(s)| == |s|
  {
    if s != [] {
      var s' := s[..|s| - 1];
      ToMapSize(s');
      ToMapKeys(s', s[|s| - 1].key);
      assert ToMap(s).Keys == ToMap(s').Keys + {s[|s| - 1].key};
    }
  }

  lemma {:induction false} SortedSplit(a: seq<Entry>, e: Entry, b: seq<Entry>)
    requires Sorted(a + [e] + b)
    ensures Sorted(a + b)
    ensures forall i :: 0 <= i < |a| ==> a[i].key < e.key
    ensures forall i :: 0 <= i < |b| ==> e.key < b[i].key
  {
    var s := a + [e] + b;
    assert s[|a|] == e;
    assert forall i :: 0 <= i < |a| ==> a[i] == s[i];
    assert forall i :: 0 <= i < |b| ==> b[i] == s[|a| + 1 + i];
    forall i, j | 0 <= i < j < |a + b| ensures (a + b)[i].key < (a + b)[j].key {
      assert (a + b)[i] == if i < |a| then s[i] else s[i + 1];
      assert (a + b)[j] == if j < |a| then s[j] else s[j + 1];
    }
  }

  /** A sorted sequence with `e` in the middle maps `e.key` to `e.value`; taking `e` out removes
      exactly that key. */
  lemma {:induction false} ToMapSplit(a: seq<Entry>, e: Entry, b: seq<Entry>)
    requires Sorted(a + [e] + b)
    ensures ToMap(a + [e] + b) == ToMap(a + b)[e.key := e.value]
    ensures ToMap(a + b) == ToMap(a + [e] + b) - {e.key}
    ensures e.key !in ToMap(a + b)
  {
    SortedSplit(a, e, b);
    ToMapKeys(a, e.key);
    ToMapKeys(b, e.key);
    ToMapAppend(a, b);
    ToMapAppend(a + [e], b);
    assert (a + [e])[..|a|] == a;
  }

  // ---------- colours and black heights ----------

  ghost predicate IsBlack(t: Tree) { t.Leaf? || t.c.Black? }

  ghost function Bk(c: Color): int { if c.Black? then 1 else 0 }

  /** No red node has a red child, and every path down meets exactly `n` black nodes. */
  ghost predicate RB(t: Tree, n: int) {
    match t
    case Leaf => n == 0
    case Node(c, l, e, r) =>
      && (c.Red? ==> IsBlack(l) && IsBlack(r))
      && RB(l, n - Bk(c)) && RB(r, n - Bk(c))
  }

  /** A hole of black height `n` would complete the context: siblings match, red frames have
      black neighbours, and the topmost frame, being the root, is black. */
  ghost predicate CtxRB(x: Ctx, n: int) {
    x.Frame? ==>
      && RB(x.sib, n)
      && (x.c.Red? ==> IsBlack(x.sib) && x.up.Frame? && x.up.c.Black?)
      && CtxRB(x.up, n + Bk(x.c))
  }

  /** The whole tree is red-black, seen from the cursor. */
  ghost predicate Balanced(f: Tree, x: Ctx, n: int) {
    && RB(f, n) && CtxRB(x, n)
    && (x.Frame? && x.c.Red? ==> IsBlack(f))
    && (x.Top? ==> IsBlack(f))
  }

  lemma {:induction false} MoveBalanced(f: Tree, x: Ctx, n: int)
    requires x.Frame?
    ensures Balanced(f, x, n) <==> Balanced(Mk(x.d, x.c, f, x.e, x.sib), x.up, n + Bk(x.c))
  {}

  lemma {:induction false} PlugBalanced(f: Tree, x: Ctx, n: int) returns (m: int)
    requires Balanced(f, x, n)
    ensures Balanced(Plug(f, x), Top, m)
    decreases x
  {
    m := n;
    if x.Frame? {
      MoveBalanced(f, x, n);
      m := PlugBalanced(Mk(x.d, x.c, f, x.e, x.sib), x.up, n + Bk(x.c));
    }
  }

  lemma {:induction false} RBMk(d: Side, c: Color, a: Tree, e: Entry, b: Tree, n: int)
    ensures RB(Mk(d, c, a, e, b), n + Bk(c)) <==> RB(a, n) && RB(b, n) && (c.Red? ==> IsBlack(a) && IsBlack(b))
  {}

  lemma {:induction false} RBHeight(t: Tree, n: int)
    requires RB(t, n)
    ensures n >= 0
  {
    if t.Node? { RBHeight(t.l, n - Bk(t.c)); }
  }

  ghost function Height(t: Tree): nat {
    if t.Leaf? then 0 else 1 + if Height(t.l) > Height(t.r) then Height(t.l) else Height(t.r)
  }

  lemma {:induction false} HeightBound(t: Tree, n: nat)
    requires RB(t, n)
    ensures Height(t) <= 2 * n + (if IsBlack(t) then 0 else 1)
    ensures Pow2(n) <= |Inorder(t)| + 1
  {
    if t.Node? {
      RBHeight(t.l, n - Bk(t.c));
      HeightBound(t.l, n - Bk(t.c));
      HeightBound(t.r, n - Bk(t.c));
    }
  }

  lemma {:induction false} Square(p: nat, s: nat)
    requires p <= s
    ensures p * p <= s * s
  {
    assert p * p <= p * s <= s * s;
  }

  /** A red-black tree of `s` keys has no path longer than 2 * log2(s + 1). */
  lemma {:induction false} LogHeight(t: Tree, n: nat)
    requires RB(t, n) && IsBlack(t)
    ensures Pow2(Height(t)) <= (|Inorder(t)| + 1) * (|Inorder(t)| + 1)
  {
    var s := |Inorder(t)| + 1;
    HeightBound(t, n);
    Pow2Mono(Height(t), n + n);
    Pow2Add(n, n);
    var p := Pow2(n);
    Square(p, s);
  }

  // ---------- insertion: one red node too many under the cursor ----------

  ghost predicate InsertInv(f: Tree, x: Ctx, n: int) {
    f.Node? && f.c.Red? && RB(f, n) && CtxRB(x, n)
  }

  /** Red uncle: recolour and move the violation two levels up. */
  lemma {:induction false} InsertUncleRed(f: Tree, xd: Side, pe: Entry, ps: Tree, pd: Side, ge: Entry, u: Tree, up: Ctx,
        n: int)
    requires InsertInv(f, Frame(xd, Red, pe, ps, Frame(pd, Black, ge, u, up)), n) && !IsBlack(u)
    ensures InsertInv(Mk(pd, Red, Mk(xd, Black, f, pe, ps), ge, u.(c := Black)), up, n + 1)
  {
    assert CtxRB(Frame(pd, Black, ge, u, up), n);
    RBMk(xd, Black, f, pe, ps, n);
    RBMk(L, Red, u.l, u.e, u.r, n);
    RBMk(L, Black, u.l, u.e, u.r, n);
    RBMk(pd, Red, Mk(xd, Black, f, pe, ps), ge, u.(c := Black), n + 1);
  }

  /** Black uncle, outer grandchild: the rotated grandparent ends the violation. */
  lemma {:induction false} InsertOuter(f: Tree, d: Side, pe: Entry, ps: Tree, ge: Entry, u: Tree, up: Ctx, n: int)
    requires InsertInv(f, Frame(d, Red, pe, ps, Frame(d, Black, ge, u, up)), n) && IsBlack(u)
    ensures InsertInv(f, Frame(d, Black, pe, Mk(Opp(d), Red, u, ge, ps), up), n)
  {
    assert CtxRB(Frame(d, Black, ge, u, up), n);
    RBMk(Opp(d), Red, u, ge, ps, n);
  }

  /** Black uncle, inner grandchild: after the rotation the old parent is an outer grandchild. */
  lemma {:induction false} InsertInner(fa: Tree, fe: Entry, fb: Tree, d: Side, pe: Entry, ps: Tree, g: Ctx, n: int)
    requires InsertInv(Mk(d, Red, fa, fe, fb), Frame(Opp(d), Red, pe, ps, g), n)
    ensures InsertInv(Mk(d, Red, ps, pe, fa), Frame(d, Red, fe, fb, g), n)
  {}

  // ---------- erasure: one black node too few under the cursor ----------

  /** The context wants black height `n + 1`; the cursor's tree is one short, or is red and
      reaches it once blackened. */
  ghost predicate EraseInv(f: Tree, x: Ctx, n: int) {
    CtxRB(x, n + 1) && if IsBlack(f) then RB(f, n) else RB(f.(c := Black), n + 1)
  }

  /** The brother is never the sentinel, since its black height is at least one. */
  lemma {:induction false} BrotherIsNode(f: Tree, x: Ctx, n: int)
    requires EraseInv(f, x, n) && IsBlack(f) && x.Frame?
    ensures x.sib.Node?
    ensures x.sib.c.Black? || (x.sib.l.Node? && x.sib.r.Node?)
  {
    RBHeight(f, n);
    if x.sib.Node? { RBMk(L, x.sib.c, x.sib.l, x.sib.e, x.sib.r, n + 1 - Bk(x.sib.c)); }
  }

  lemma {:induction false} EraseBrotherRed(f: Tree, d: Side, pc: Color, pe: Entry, sa: Tree, se: Entry, sb: Tree,
        up: Ctx, n: int)
    requires EraseInv(f, Frame(d, pc, pe, Mk(d, Red, sa, se, sb), up), n) && IsBlack(f)
    ensures EraseInv(f, Frame(d, Red, pe, sa, Frame(d, Black, se, sb, up)), n)
    ensures pc.Black? && sa.Node? && IsBlack(sa)
  {
    RBHeight(f, n);
  }

  lemma {:induction false} EraseBothBlack(f: Tree, x: Ctx, n: int)
    requires EraseInv(f, x, n) && IsBlack(f) && x.Frame? && x.sib.Node? && x.sib.c.Black?
    requires IsBlack(x.sib.l) && IsBlack(x.sib.r)
    ensures EraseInv(Mk(x.d, x.c, f, x.e, x.sib.(c := Red)), x.up, n + Bk(x.c))
  {
    assert RB(x.sib.(c := Red), n);
  }

  lemma {:induction false} EraseNearRed(f: Tree, d: Side, pc: Color, pe: Entry, ta: Tree, te: Entry, tb: Tree,
        se: Entry, sb: Tree, up: Ctx, n: int)
    requires EraseInv(f, Frame(d, pc, pe, Mk(d, Black, Mk(d, Red, ta, te, tb), se, sb), up), n) && IsBlack(f)
    requires IsBlack(sb)
    ensures EraseInv(f, Frame(d, pc, pe, Mk(d, Black, ta, te, Mk(d, Red, tb, se, sb)), up), n)
  {
    var ta' := Mk(d, Red, ta, te, tb);
    assert RB(ta', n) && RB(sb, n) by { assert RB(Mk(d, Black, ta', se, sb), n + 1); }
    assert RB(ta, n) && RB(tb, n);
    assert RB(Mk(d, Red, tb, se, sb), n);
  }

  lemma {:induction false} EraseFarRed(f: Tree, d: Side, pc: Color, pe: Entry, sa: Tree, se: Entry, sb: Tree, up: Ctx,
        n: int)
    requires EraseInv(f, Frame(d, pc, pe, Mk(d, Black, sa, se, sb), up), n) && IsBlack(f)
    requires !IsBlack(sb)
    ensures Balanced(Mk(d, pc, Mk(d, Black, f, pe, sa), se, sb.(c := Black)), up, n + 1 + Bk(pc))
  {
    assert RB(sa, n) && RB(sb, n) by { assert RB(Mk(d, Black, sa, se, sb), n + 1); }
    assert RB(sb.(c := Black), n + 1);
    assert RB(Mk(d, Black, f, pe, sa), n + 1);
  }

  /** Colours and heights of a context do not depend on which entry a frame holds. */
  lemma {:induction false} CtxRBComp(inner: Ctx, d: Side, c: Color, e: Entry, e': Entry, sib: Tree, up: Ctx, n: int)
    requires CtxRB(Comp(inner, Frame(d, c, e, sib, up)), n)
    ensures CtxRB(Comp(inner, Frame(d, c, e', sib, up)), n)
  {
    if inner.Frame? { CtxRBComp(inner.up, d, c, e, e', sib, up, n + Bk(inner.c)); }
  }
}
