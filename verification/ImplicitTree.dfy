/** The implicit binary tree in an array: node `i` has children `2i + 1` and `2i + 2`.  Used by the
    buddy allocator and by the segment tree. */
module ImplicitTree {
  function Parent(i: nat): nat
    requires i > 0
  {
    (i - 1) / 2
  }

  function Level(i: nat): nat { if i == 0 then 0 else 1 + Level(Parent(i)) }

  /** `i` is `a` or lies below it. */
  predicate Under(a: nat, i: nat)
    decreases i
  {
    i == a || (i > a && Under(a, Parent(i)))
  }

  lemma {:induction false} UnderTrans(a: nat, b: nat, c: nat)
    requires Under(a, b) && Under(b, c)
    ensures Under(a, c)
    decreases c
  {
    if c > b { UnderTrans(a, b, Parent(c)); }
  }

  lemma {:induction false} UnderLevel(a: nat, i: nat)
    requires Under(a, i)
    ensures Level(a) <= Level(i) && (i != a ==> Level(a) < Level(i)) && a <= i
  {
    if i > a { UnderLevel(a, Parent(i)); }
  }

  lemma {:induction false} UnderRoot(i: nat)
    ensures Under(0, i)
  {
    if i > 0 { UnderRoot(Parent(i)); }
  }

  /** The subtree of `a` is `a` and the subtrees of its two children. */
  lemma {:induction false} UnderChild(a: nat, i: nat)
    ensures Under(a, i) <==> i == a || Under(2 * a + 1, i) || Under(2 * a + 2, i)
    decreases i
  {
    if i > 0 { UnderChild(a, Parent(i)); }
    if i == 2 * a + 1 || i == 2 * a + 2 { assert Parent(i) == a; }
  }

  /** Two ancestors of one node are related. */
  lemma {:induction false} UnderBoth(a: nat, b: nat, i: nat)
    requires Under(a, i) && Under(b, i) && a <= b
    ensures Under(a, b)
    decreases i
  {
    if i > b { UnderBoth(a, b, Parent(i)); }
  }

  /** The two children of a node have nothing in common. */
  lemma SiblingsApart(a: nat, i: nat)
    ensures !(Under(2 * a + 1, i) && Under(2 * a + 2, i))
  {
    assert Parent(2 * a + 2) == a && !Under(2 * a + 1, a);
    if Under(2 * a + 1, i) && Under(2 * a + 2, i) { UnderBoth(2 * a + 1, 2 * a + 2, i); }
  }
}
