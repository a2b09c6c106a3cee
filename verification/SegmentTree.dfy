/** cpp/datastructure/tree/segment_tree.h: range add and range sum with lazy tags. */
module SegmentTree {
  import opened ImplicitTree
  import opened Sums

  /** Node `root` and the nodes below it stand for a[cl..cr]: each node's value is the sum of its
      range, short of what its ancestors still owe it, which is what their tags say. */
  ghost predicate Holds(tree: seq<int>, lazy: seq<int>, root: nat, cl: int, cr: int, a: seq<int>)
    requires 0 <= cl <= cr < |a|
    decreases |tree|, cr - cl
  {
    && root < |tree| == |lazy| && tree[root] == Sum(a, cl, cr + 1)
    && (cl < cr ==>
          var b := Shift(a, -lazy[root]);
          && Holds(tree, lazy, 2 * root + 1, cl, cl + (cr - cl) / 2, b)
          && Holds(tree, lazy, 2 * root + 2, cl + (cr - cl) / 2 + 1, cr, b))
  }

  ghost predicate Same(t: seq<int>, t': seq<int>, j: nat) { |t| == |t'| && (j < |t| ==> t[j] == t'[j]) }

  /** The arrays agree on the subtree of `root`. */
  ghost predicate SameBelow(t: seq<int>, t': seq<int>, root: nat) {
    |t| == |t'| && forall j: nat {:trigger Same(t, t', j)} :: Under(root, j) ==> Same(t, t', j)
  }

  /** The arrays agree outside the subtree of `root`. */
  ghost predicate SameElsewhere(t: seq<int>, t': seq<int>, root: nat) {
    |t| == |t'| && forall j: nat {:trigger Same(t, t', j)} :: !Under(root, j) ==> Same(t, t', j)
  }

  lemma SameBelowChildren(t: seq<int>, t': seq<int>, root: nat)
    requires SameBelow(t, t', root)
    ensures SameBelow(t, t', 2 * root + 1) && SameBelow(t, t', 2 * root + 2) && Same(t, t', root)
  {
    forall j: nat ensures Under(2 * root + 1, j) || Under(2 * root + 2, j) ==> Under(root, j) { UnderChild(root, j); }
    assert Under(root, root);
  }

  ghost predicate Siblings(up: nat, c: nat, o: nat) {
    (c == 2 * up + 1 && o == 2 * up + 2) || (c == 2 * up + 2 && o == 2 * up + 1)
  }

  /** A change inside one child is no change in the other, and none outside the parent. */
  lemma ChildFrame(t: seq<int>, t': seq<int>, root: nat, c: nat, o: nat)
    requires SameElsewhere(t, t', c) && Siblings(root, c, o)
    ensures SameBelow(t, t', o) && SameElsewhere(t, t', root) && (root < |t| ==> t[root] == t'[root])
  {
    forall j: nat ensures !(Under(c, j) && Under(o, j)) && (Under(c, j) ==> Under(root, j)) {
      SiblingsApart(root, j);
      UnderChild(root, j);
    }
    assert Same(t, t', root);
  }

  lemma {:induction false} HoldsLocal(t: seq<int>, z: seq<int>, t': seq<int>, z': seq<int>, root: nat, cl: int, cr: int,
        a: seq<int>, b: seq<int>)
    requires 0 <= cl <= cr < |a| == |b| && (forall i :: cl <= i <= cr ==> a[i] == b[i])
    requires Holds(t, z, root, cl, cr, a) && SameBelow(t, t', root) && SameBelow(z, z', root)
    ensures Holds(t', z', root, cl, cr, b)
    decreases cr - cl
  {
    SumCong(a, b, cl, cr + 1);
    SameBelowChildren(t, t', root);
    SameBelowChildren(z, z', root);
    if cl < cr {
      var m := cl + (cr - cl) / 2;
      var a', b' := Shift(a, -z[root]), Shift(b, -z[root]);
      HoldsLocal(t, z, t', z', 2 * root + 1, cl, m, a', b');
      HoldsLocal(t, z, t', z', 2 * root + 2, m + 1, cr, a', b');
    }
  }

  /** Adding `d` to a whole range touches only the top node of that range. */
  lemma AddWhole(t: seq<int>, z: seq<int>, root: nat, cl: int, cr: int, a: seq<int>, d: int)
    requires 0 <= cl <= cr < |a| && Holds(t, z, root, cl, cr, a)
    ensures Holds(t[root := t[root] + (cr - cl + 1) * d], z[root := z[root] + d], root, cl, cr, Shift(a, d))
  {
    var t', z', b := t[root := t[root] + (cr - cl + 1) * d], z[root := z[root] + d], Shift(a, d);
    SumShift(a, d, cl, cr + 1);
    if cl < cr {
      var m := cl + (cr - cl) / 2;
      assert Shift(b, -z'[root]) == Shift(a, -z[root]);
      BelowChildren(t, t', root);
      BelowChildren(z, z', root);
      HoldsLocal(t, z, t', z', 2 * root + 1, cl, m, Shift(a, -z[root]), Shift(b, -z'[root]));
      HoldsLocal(t, z, t', z', 2 * root + 2, m + 1, cr, Shift(a, -z[root]), Shift(b, -z'[root]));
    }
  }

  /** The same for an addition on a range that contains the node's. */
  lemma AddNode(t: seq<int>, z: seq<int>, root: nat, cl: int, cr: int, l: int, r: int, value: int, a: seq<int>)
    requires 0 <= cl <= cr < |a| && Holds(t, z, root, cl, cr, a) && l <= cl && cr <= r
    ensures root < |t| == |z|
    ensures Holds(t[root := t[root] + (cr - cl + 1) * value], z[root := z[root] + value], root, cl, cr,
              AddRange(a, l, r, value))
    ensures SameElsewhere(t, t[root := t[root] + (cr - cl + 1) * value], root)
    ensures SameElsewhere(z, z[root := z[root] + value], root)
  {
    var t', z' := t[root := t[root] + (cr - cl + 1) * value], z[root := z[root] + value];
    AddWhole(t, z, root, cl, cr, a, value);
    HoldsLocal(t', z', t', z', root, cl, cr, Shift(a, value), AddRange(a, l, r, value));
    BelowChildren(t, t', root);
    BelowChildren(z, z', root);
  }

  /** An addition outside a node's range does not concern it. */
  lemma AddElsewhere(t: seq<int>, z: seq<int>, root: nat, cl: int, cr: int, l: int, r: int, value: int, a: seq<int>)
    requires 0 <= cl <= cr < |a| && Holds(t, z, root, cl, cr, a) && (cr < l || r < cl)
    ensures Holds(t, z, root, cl, cr, AddRange(a, l, r, value))
  {
    HoldsLocal(t, z, t, z, root, cl, cr, a, AddRange(a, l, r, value));
  }

  lemma BelowChildren(t: seq<int>, t': seq<int>, root: nat)
    requires |t| == |t'| && forall j: nat {:trigger t[j]} {:trigger t'[j]} :: j < |t| && j != root ==> t[j] == t'[j]
    ensures SameBelow(t, t', 2 * root + 1) && SameBelow(t, t', 2 * root + 2) && SameElsewhere(t, t', root)
  {
    assert Under(root, root);
  }

  /** All nodes used for [cl, cr] below `root` have indices below 4n. */
  ghost predicate Placed(root: nat, cl: int, cr: int, n: int)
    decreases n, cr - cl, root
  {
    && 0 <= cl <= cr < n && root < 4 * n
    && (cl < cr ==>
          && Placed(2 * root + 1, cl, cl + (cr - cl) / 2, n)
          && Placed(2 * root + 2, cl + (cr - cl) / 2 + 1, cr, n))
  }

  /** A node and its two halves have room. */
  ghost predicate PlacedHalves(root: nat, cl: int, cm: int, cr: int, n: int) {
    && 0 <= cl <= cm < cr < n && cm == cl + (cr - cl) / 2 && root < 4 * n
    && Placed(2 * root + 1, cl, cm, n) && Placed(2 * root + 2, cm + 1, cr, n)
  }

  lemma Halves(root: nat, cl: int, cr: int, n: int)
    requires Placed(root, cl, cr, n) && cl < cr
    ensures PlacedHalves(root, cl, cl + (cr - cl) / 2, cr, n)
  {}

  /** For every n >= 1 no index of the whole tree reaches 4n. */
  lemma PlacedRoot(n: int)
    requires n >= 1
    ensures Placed(0, 0, n - 1, n)
  {
    NarrowPlaced(0, 0, n - 1, n, 1);
  }

  /** With `w` nodes on its level, a node's range is no longer than an even split of n - 1 over
      them, so an inner node has w < n. */
  lemma {:induction false} NarrowPlaced(root: nat, cl: int, cr: int, n: int, w: int)
    requires 0 <= cl <= cr < n && w >= 1 && root <= 2 * w - 2 && root < 4 * n && (cr - cl) * w <= n - 1
    ensures Placed(root, cl, cr, n)
    decreases cr - cl
  {
    if cl < cr {
      var m := cl + (cr - cl) / 2;
      NarrowHalves(root, cl, cr, n, w);
      NarrowPlaced(2 * root + 1, cl, m, n, 2 * w);
      NarrowPlaced(2 * root + 2, m + 1, cr, n, 2 * w);
    }
  }

  lemma NarrowHalves(root: nat, cl: int, cr: int, n: int, w: int)
    requires cl < cr && w >= 1 && root <= 2 * w - 2 && (cr - cl) * w <= n - 1
    ensures ((cl + (cr - cl) / 2) - cl) * (2 * w) <= n - 1 && (cr - (cl + (cr - cl) / 2 + 1)) * (2 * w) <= n - 1
    ensures w <= n - 1
  {
    var m, d := cl + (cr - cl) / 2, cr - cl;
    Scaled(d, w, m - cl);
    Scaled(d, w, cr - (m + 1));
    AtLeast(d, w);
  }

  lemma AtLeast(d: int, w: int)
    requires d >= 1 && w >= 1
    ensures w <= d * w
  {}

  lemma Scaled(d: int, w: int, e: int)
    requires 2 * e <= d && w >= 1
    ensures e * (2 * w) <= d * w
  {
    assert e * (2 * w) == (2 * e) * w;
    assert (2 * e) * w <= d * w;
  }

  /** Every node below `root` holds the plain sum of its range. */
  ghost predicate SumsHold(tree: seq<int>, root: nat, cl: int, cr: int, a: seq<int>)
    requires 0 <= cl <= cr < |a|
    decreases |tree|, cr - cl
  {
    && root < |tree| && tree[root] == Sum(a, cl, cr + 1)
    && (cl < cr ==>
          && SumsHold(tree, 2 * root + 1, cl, cl + (cr - cl) / 2, a)
          && SumsHold(tree, 2 * root + 2, cl + (cr - cl) / 2 + 1, cr, a))
  }

  /** No inner node below `root` has a pending tag. */
  ghost predicate NoTags(lazy: seq<int>, root: nat, cl: int, cr: int)
    requires cl <= cr
    decreases |lazy|, cr - cl
  {
    cl < cr ==>
      && root < |lazy| && lazy[root] == 0
      && NoTags(lazy, 2 * root + 1, cl, cl + (cr - cl) / 2) && NoTags(lazy, 2 * root + 2, cl + (cr - cl) / 2 + 1, cr)
  }

  lemma {:induction false} SumsHoldLocal(t: seq<int>, t': seq<int>, root: nat, cl: int, cr: int, a: seq<int>)
    requires 0 <= cl <= cr < |a| && SumsHold(t, root, cl, cr, a) && SameBelow(t, t', root)
    ensures SumsHold(t', root, cl, cr, a)
    decreases cr - cl
  {
    SameBelowChildren(t, t', root);
    if cl < cr {
      SumsHoldLocal(t, t', 2 * root + 1, cl, cl + (cr - cl) / 2, a);
      SumsHoldLocal(t, t', 2 * root + 2, cl + (cr - cl) / 2 + 1, cr, a);
    }
  }

  /** Freshly built sums represent the array exactly when no tag is left over from before. */
  lemma {:induction false} BuiltIffNoTags(t: seq<int>, z: seq<int>, root: nat, cl: int, cr: int, a: seq<int>)
    requires 0 <= cl <= cr < |a| && |t| == |z| && SumsHold(t, root, cl, cr, a)
    ensures Holds(t, z, root, cl, cr, a) <==> NoTags(z, root, cl, cr)
    decreases cr - cl
  {
    if cl < cr {
      var m, b := cl + (cr - cl) / 2, Shift(a, -z[root]);
      BuiltIffNoTags(t, z, 2 * root + 1, cl, m, a);
      BuiltIffNoTags(t, z, 2 * root + 2, m + 1, cr, a);
      if z[root] == 0 {
        assert b == a;
      } else {
        SumShift(a, -z[root], cl, m + 1);
        NonZero(m + 1 - cl, -z[root]);
      }
    }
  }

  lemma NonZero(n: int, d: int)
    requires n >= 1 && d != 0
    ensures n * d != 0
  {}

  lemma {:induction false} NoTagsZero(z: seq<int>, root: nat, cl: int, cr: int, n: int)
    requires Placed(root, cl, cr, n) && |z| == 4 * n && forall i :: 0 <= i < |z| ==> z[i] == 0
    ensures NoTags(z, root, cl, cr)
    decreases cr - cl
  {
    if cl < cr {
      Halves(root, cl, cr, n);
      var m := cl + (cr - cl) / 2;
      NoTagsZero(z, 2 * root + 1, cl, m, n);
      NoTagsZero(z, 2 * root + 2, m + 1, cr, n);
    }
  }

  /** Two halves make a node. */
  lemma HoldsJoin(t: seq<int>, z: seq<int>, root: nat, cl: int, cr: int, a: seq<int>)
    requires 0 <= cl < cr < |a| && root < |t| == |z| && z[root] == 0
    requires Holds(t, z, 2 * root + 1, cl, cl + (cr - cl) / 2, a)
    requires Holds(t, z, 2 * root + 2, cl + (cr - cl) / 2 + 1, cr, a)
    ensures Holds(t[root := t[2 * root + 1] + t[2 * root + 2]], z, root, cl, cr, a)
  {
    var m, t' := cl + (cr - cl) / 2, t[root := t[2 * root + 1] + t[2 * root + 2]];
    assert Shift(a, -z[root]) == a;
    SumSplit(a, cl, m + 1, cr + 1);
    BelowChildren(t, t', root);
    HoldsLocal(t, z, t', z, 2 * root + 1, cl, m, a, a);
    HoldsLocal(t, z, t', z, 2 * root + 2, m + 1, cr, a, a);
  }

  /** What a change inside child `c` leaves of its sibling `o` and of the rest. */
  lemma SiblingKept(t: seq<int>, z: seq<int>, t': seq<int>, z': seq<int>, root: nat, c: nat, o: nat, ol: int, or: int,
        a: seq<int>)
    requires Siblings(root, c, o)
    requires SameElsewhere(t, t', c) && SameElsewhere(z, z', c) && 0 <= ol <= or < |a| && Holds(t, z, o, ol, or, a)
    ensures Holds(t', z', o, ol, or, a) && SameElsewhere(t, t', root) && SameElsewhere(z, z', root)
    ensures root < |t| == |z| ==> t'[root] == t[root] && z'[root] == z[root]
  {
    ChildFrame(t, t', root, c, o);
    ChildFrame(z, z', root, c, o);
    HoldsLocal(t, z, t', z', o, ol, or, a, a);
  }

  lemma SameTrans(t0: seq<int>, t1: seq<int>, t2: seq<int>, root: nat)
    requires SameElsewhere(t0, t1, root) && SameElsewhere(t1, t2, root)
    ensures SameElsewhere(t0, t2, root)
  {
    forall j: nat | !Under(root, j) ensures Same(t0, t2, j) { assert Same(t0, t1, j) && Same(t1, t2, j); }
  }

  lemma SetRoot(t0: seq<int>, t: seq<int>, root: nat, v: int)
    requires root < |t| && SameElsewhere(t0, t, root)
    ensures SameElsewhere(t0, t[root := v], root)
  {
    assert Under(root, root);
    forall j: nat | !Under(root, j) ensures Same(t0, t[root := v], j) { assert Same(t0, t, j); }
  }

  ghost function Later(l: int, cl: int): int { if l > cl then l else cl }
  ghost function Sooner(r: int, cr: int): int { if r < cr then r else cr }

  /** A node with no tag holds the array its halves hold. */
  lemma Untagged(t: seq<int>, z: seq<int>, root: nat, cl: int, cr: int, a: seq<int>)
    requires 0 <= cl < cr < |a| && root < |t| == |z| && z[root] == 0 && t[root] == Sum(a, cl, cr + 1)
    requires Holds(t, z, 2 * root + 1, cl, cl + (cr - cl) / 2, a)
    requires Holds(t, z, 2 * root + 2, cl + (cr - cl) / 2 + 1, cr, a)
    ensures Holds(t, z, root, cl, cr, a)
  {
    assert Shift(a, -z[root]) == a;
  }

  lemma NodeSum(t: seq<int>, z: seq<int>, root: nat, cl: int, cr: int, a: seq<int>)
    requires 0 <= cl <= cr < |a| && Holds(t, z, root, cl, cr, a)
    ensures root < |t| == |z| && t[root] == Sum(a, cl, cr + 1)
  {}

  /** The two parts of a sum. */
  lemma SumParts(a: seq<int>, cl: int, cm: int, cr: int, l: int, r: int)
    requires 0 <= cl <= cm < cr < |a| && l <= cr && cl <= r
    ensures Sum(a, Later(l, cl), Sooner(r, cr) + 1)
         == Sum(a, Later(l, cl), Sooner(r, cm) + 1) + Sum(a, Later(l, cm + 1), Sooner(r, cr) + 1)
  {
    if l <= cm < r {
      SumSplit(a, Later(l, cl), cm + 1, Sooner(r, cr) + 1);
    } else if r <= cm {
      SumEmpty(a, Later(l, cm + 1), Sooner(r, cr) + 1);
    } else {
      SumEmpty(a, Later(l, cl), Sooner(r, cm) + 1);
    }
  }

  lemma SumEmpty(a: seq<int>, lo: int, hi: int)
    requires 0 <= lo && hi <= |a| && lo >= hi
    ensures Sum(a, lo, hi) == 0
  {}

  /** The whole tree stands for `a`. */
  ghost predicate Whole(tree: seq<int>, lazy: seq<int>, a: seq<int>) {
    |a| >= 1 && |tree| == |lazy| == 4 * |a| && Holds(tree, lazy, 0, 0, |a| - 1, a)
  }

  lemma Opened(t: seq<int>, z: seq<int>, a: seq<int>, last: int)
    requires Whole(t, z, a) && last == |t| / 4 - 1
    ensures last == |a| - 1 && Placed(0, 0, last, |a|) && Holds(t, z, 0, 0, last, a)
  {
    Quarter(|t|, |a|);
    PlacedRoot(last + 1);
  }

  lemma Quarter(len: int, n: int)
    requires len == 4 * n
    ensures len / 4 == n
  {}

  lemma Closed(t: seq<int>, z: seq<int>, a: seq<int>, last: int)
    requires |a| >= 1 && |t| == |z| == 4 * |a| && last == |a| - 1 && Holds(t, z, 0, 0, last, a)
    ensures Whole(t, z, a)
  {}

  lemma BuiltWhole(t: seq<int>, z: seq<int>, v: seq<int>, last: int)
    requires |v| >= 1 && |t| == |z| == 4 * |v| && last == |v| - 1 && SumsHold(t, 0, 0, last, v)
    ensures Whole(t, z, v) <==> NoTags(z, 0, 0, last)
  {
    BuiltIffNoTags(t, z, 0, 0, last, v);
  }

  class SegmentTree {
    var tree: seq<int>
    var lazy: seq<int>

    /** The object stands for the plain array `a`. */
    ghost predicate Represents(a: seq<int>)
      reads this
    {
      Whole(tree, lazy, a)
    }

    constructor ()
      ensures tree == [] && lazy == []
    {
      tree, lazy := [], [];
    }

    method Init(v: seq<int>, initValue: bool)
      requires |v| >= 1
      modifies this
      ensures |tree| == |lazy| == 4 * |v| && lazy == Resize(old(lazy), 4 * |v|)
      ensures initValue ==> (Represents(v) <==> NoTags(lazy, 0, 0, |v| - 1))
      ensures !initValue ==> tree == Resize(old(tree), 4 * |v|)
      ensures !initValue && |old(tree)| == |old(lazy)| == 4 * |v| ==> tree == old(tree) && lazy == old(lazy)
      ensures old(tree) == [] && old(lazy) == [] ==> Represents(if initValue then v else seq(|v|, _ => 0))
    {
      tree := Resize(tree, |v| * 4);
      lazy := Resize(lazy, |v| * 4);
      if old(tree) == [] && old(lazy) == [] { ZerosHold(tree, lazy, |v|); }
      if !initValue {
        return;
      }
      BuildWhole(v);
    }

    /** The build from the root. */
    method BuildWhole(v: seq<int>)
      requires |v| >= 1 && |tree| == |lazy| == 4 * |v|
      modifies this`tree
      ensures |tree| == 4 * |v| && (Whole(tree, lazy, v) <==> NoTags(lazy, 0, 0, |v| - 1))
    {
      PlacedRoot(|v|);
      var last := |v| - 1;
      BuildAll(v, 0, 0, last);
      BuiltWhole(tree, lazy, v, last);
    }

    /** The build below one node, without its frame. */
    method BuildAll(v: seq<int>, root: nat, cl: int, cr: int)
      requires Placed(root, cl, cr, |v|) && |tree| == 4 * |v|
      modifies this`tree
      ensures |tree| == 4 * |v| && SumsHold(tree, root, cl, cr, v)
    {
      Build(v, root, cl, cr);
    }

    method Build(v: seq<int>, root: nat, cl: int, cr: int)
      requires Placed(root, cl, cr, |v|) && |tree| == 4 * |v|
      modifies this`tree
      ensures SumsHold(tree, root, cl, cr, v) && SameElsewhere(old(tree), tree, root)
      decreases cr - cl, 1
    {
      if cl == cr {
        BuildLeaf(tree, root, cl, v);
        tree := tree[root := v[cl]];
        return;
      }
      Halves(root, cl, cr, |v|);
      BuildHalves(v, root, cl, cl + (cr - cl) / 2, cr);
    }

    method BuildHalves(v: seq<int>, root: nat, cl: int, cm: int, cr: int)
      requires PlacedHalves(root, cl, cm, cr, |v|) && |tree| == 4 * |v|
      modifies this`tree
      ensures SumsHold(tree, root, cl, cr, v) && SameElsewhere(old(tree), tree, root)
      decreases cr - cl, 0
    {
      ghost var t0 := tree;
      Build(v, 2 * root + 1, cl, cm);
      ghost var t1 := tree;
      Build(v, 2 * root + 2, cm + 1, cr);
      ghost var t := BuildJoin(t0, t1, tree, root, cl, cm, cr, v);
      tree := tree[root := tree[2 * root + 1] + tree[2 * root + 2]];
      assert tree == t;
    }

    /** Pushing a tag down one level changes neither the array represented nor anything elsewhere. */
    method Maintain(cl: int, cr: int, root: nat, ghost a: seq<int>)
      requires Placed(root, cl, cr, |a|) && |tree| == |lazy| == 4 * |a| && Holds(tree, lazy, root, cl, cr, a)
      modifies this`tree, this`lazy
      ensures Holds(tree, lazy, root, cl, cr, a) && SameElsewhere(old(tree), tree, root)
      ensures SameElsewhere(old(lazy), lazy, root)
      ensures cl < cr ==> lazy[root] == 0
      ensures cl < cr ==> Holds(tree, lazy, 2 * root + 1, cl, cl + (cr - cl) / 2, a)
      ensures cl < cr ==> Holds(tree, lazy, 2 * root + 2, cl + (cr - cl) / 2 + 1, cr, a)
    {
      var cm := cl + (cr - cl) / 2;
      ghost var t, z := tree, lazy;
      if cl != cr && lazy[root] != 0 {
        lazy := lazy[2 * root + 1 := lazy[2 * root + 1] + lazy[root]];
        lazy := lazy[2 * root + 2 := lazy[2 * root + 2] + lazy[root]];
        tree := tree[2 * root + 1 := tree[2 * root + 1] + lazy[root] * (cm - cl + 1)];
        tree := tree[2 * root + 2 := tree[2 * root + 2] + lazy[root] * (cr - cm)];
        lazy := lazy[root := 0];
        PushDown(t, z, tree, lazy, root, cl, cm, cr, a);
      } else if cl != cr {
        assert Shift(a, -lazy[root]) == a;
      }
    }

    /** The push-down at an inner node, and what the two halves then hold. */
    method MaintainHalves(cl: int, cm: int, cr: int, root: nat, ghost a: seq<int>)
      requires Placed(root, cl, cr, |a|) && |tree| == |lazy| == 4 * |a| && Holds(tree, lazy, root, cl, cr, a) && cl < cr
      requires cm == cl + (cr - cl) / 2
      modifies this`tree, this`lazy
      ensures PlacedHalves(root, cl, cm, cr, |a|) && |tree| == |lazy| == 4 * |a| && lazy[root] == 0
      ensures tree[root] == Sum(a, cl, cr + 1)
      ensures Holds(tree, lazy, 2 * root + 1, cl, cm, a) && Holds(tree, lazy, 2 * root + 2, cm + 1, cr, a)
      ensures SameElsewhere(old(tree), tree, root) && SameElsewhere(old(lazy), lazy, root)
    {
      Halves(root, cl, cr, |a|);
      Maintain(cl, cr, root, a);
      NodeSum(tree, lazy, root, cl, cr, a);
    }

    method RangeAddFrom(cl: int, cr: int, root: nat, l: int, r: int, value: int, ghost a: seq<int>)
      requires Placed(root, cl, cr, |a|) && |tree| == |lazy| == 4 * |a| && Holds(tree, lazy, root, cl, cr, a)
      requires l <= cr && cl <= r
      modifies this`tree, this`lazy
      ensures Holds(tree, lazy, root, cl, cr, AddRange(a, l, r, value))
      ensures SameElsewhere(old(tree), tree, root) && SameElsewhere(old(lazy), lazy, root)
      ensures l <= cl && cr <= r ==> lazy[root] == old(lazy)[root] + value
      decreases cr - cl, 2
    {
      if l <= cl && cr <= r {
        AddNode(tree, lazy, root, cl, cr, l, r, value, a);
        lazy := lazy[root := lazy[root] + value];
        tree := tree[root := tree[root] + (cr - cl + 1) * value];
        return;
      }
      AddInner(cl, cl + (cr - cl) / 2, cr, root, l, r, value, a);
    }

    /** The update at a node that the range does not contain: push down, then recurse. */
    method AddInner(cl: int, cm: int, cr: int, root: nat, l: int, r: int, value: int, ghost a: seq<int>)
      requires Placed(root, cl, cr, |a|) && |tree| == |lazy| == 4 * |a| && Holds(tree, lazy, root, cl, cr, a)
      requires l <= cr && cl <= r && cl < cr && cm == cl + (cr - cl) / 2
      modifies this`tree, this`lazy
      ensures Holds(tree, lazy, root, cl, cr, AddRange(a, l, r, value))
      ensures SameElsewhere(old(tree), tree, root) && SameElsewhere(old(lazy), lazy, root)
      decreases cr - cl, 1
    {
      ghost var t0, z0 := tree, lazy;
      MaintainHalves(cl, cm, cr, root, a);
      ghost var t1, z1 := tree, lazy;
      AddHalves(cl, cm, cr, root, l, r, value, a);
      SameTrans(t0, t1, tree, root);
      SameTrans(z0, z1, lazy, root);
    }

    /** The recursive calls and the recomputed sum, after the push-down. */
    method AddHalves(cl: int, cm: int, cr: int, root: nat, l: int, r: int, value: int, ghost a: seq<int>)
      requires PlacedHalves(root, cl, cm, cr, |a|) && |tree| == |lazy| == 4 * |a| && l <= cr && cl <= r
      requires lazy[root] == 0
      requires Holds(tree, lazy, 2 * root + 1, cl, cm, a) && Holds(tree, lazy, 2 * root + 2, cm + 1, cr, a)
      modifies this`tree, this`lazy
      ensures Holds(tree, lazy, root, cl, cr, AddRange(a, l, r, value))
      ensures SameElsewhere(old(tree), tree, root) && SameElsewhere(old(lazy), lazy, root)
      decreases cr - cl, 0
    {
      ghost var t1, z1, b := tree, lazy, AddRange(a, l, r, value);
      AddPart(l <= cm, cl, cm, 2 * root + 1, l, r, value, a, root, 2 * root + 2, cm + 1, cr, a);
      ghost var t2, z2 := tree, lazy;
      AddPart(cm < r, cm + 1, cr, 2 * root + 2, l, r, value, a, root, 2 * root + 1, cl, cm, b);
      SameTrans(t1, t2, tree, root);
      SameTrans(z1, z2, lazy, root);
      HoldsJoin(tree, lazy, root, cl, cr, b);
      SetRoot(t1, tree, root, tree[2 * root + 1] + tree[2 * root + 2]);
      tree := tree[root := tree[2 * root + 1] + tree[2 * root + 2]];
    }

    /** One half of node `up`, if the update reaches it; its sibling `o`, which holds `x`, is left
        alone. */
    method AddPart(reached: bool, cl: int, cr: int, root: nat, l: int, r: int, value: int, ghost a: seq<int>,
                   ghost up: nat, ghost o: nat, ghost ol: int, ghost or: int, ghost x: seq<int>)
      requires Placed(root, cl, cr, |a|) && |tree| == |lazy| == 4 * |a| && Holds(tree, lazy, root, cl, cr, a)
      requires reached <==> l <= cr && cl <= r
      requires Siblings(up, root, o) && up < |tree| && 0 <= ol <= or < |x| && Holds(tree, lazy, o, ol, or, x)
      modifies this`tree, this`lazy
      ensures Holds(tree, lazy, root, cl, cr, AddRange(a, l, r, value)) && Holds(tree, lazy, o, ol, or, x)
      ensures SameElsewhere(old(tree), tree, up) && SameElsewhere(old(lazy), lazy, up) && lazy[up] == old(lazy)[up]
      decreases cr - cl, 3
    {
      ghost var t, z := tree, lazy;
      if reached {
        RangeAddFrom(cl, cr, root, l, r, value, a);
      } else {
        AddElsewhere(tree, lazy, root, cl, cr, l, r, value, a);
      }
      SiblingKept(t, z, tree, lazy, up, root, o, ol, or, x);
    }

    /** The update below one node, without its frame. */
    method AddBelow(cl: int, cr: int, root: nat, l: int, r: int, value: int, ghost a: seq<int>)
      requires Placed(root, cl, cr, |a|) && |tree| == |lazy| == 4 * |a| && Holds(tree, lazy, root, cl, cr, a)
      requires l <= cr && cl <= r
      modifies this`tree, this`lazy
      ensures |tree| == |lazy| == 4 * |a| && Holds(tree, lazy, root, cl, cr, AddRange(a, l, r, value))
      ensures l <= cl && cr <= r ==> lazy[root] == old(lazy)[root] + value
    {
      RangeAddFrom(cl, cr, root, l, r, value, a);
    }

    /** Adds on exactly [l, r]. */
    method RangeAdd(l: int, r: int, value: int, ghost a: seq<int>)
      requires Represents(a) && 0 <= l <= r < |a|
      modifies this`tree, this`lazy
      ensures Represents(AddRange(a, l, r, value))
      ensures l == 0 && r == |a| - 1 ==> lazy[0] == old(lazy)[0] + value
    {
      var last := |tree| / 4 - 1;
      Opened(tree, lazy, a, last);
      AddBelow(0, last, 0, l, r, value, a);
      Closed(tree, lazy, AddRange(a, l, r, value), last);
    }

    method RangeSumFrom(cl: int, cr: int, root: nat, l: int, r: int, ghost a: seq<int>) returns (sum: int)
      requires Placed(root, cl, cr, |a|) && |tree| == |lazy| == 4 * |a| && Holds(tree, lazy, root, cl, cr, a)
      requires l <= cr && cl <= r
      modifies this`tree, this`lazy
      ensures sum == Sum(a, Later(l, cl), Sooner(r, cr) + 1)
      ensures Holds(tree, lazy, root, cl, cr, a)
      ensures SameElsewhere(old(tree), tree, root) && SameElsewhere(old(lazy), lazy, root)
      decreases cr - cl, 2
    {
      NodeSum(tree, lazy, root, cl, cr, a);
      if l <= cl && cr <= r {
        assert Later(l, cl) == cl && Sooner(r, cr) == cr;
        return tree[root];
      }
      sum := SumInner(cl, cl + (cr - cl) / 2, cr, root, l, r, a);
    }

    /** The query at a node that the range does not contain: push down, then recurse. */
    method SumInner(cl: int, cm: int, cr: int, root: nat, l: int, r: int, ghost a: seq<int>) returns (sum: int)
      requires Placed(root, cl, cr, |a|) && |tree| == |lazy| == 4 * |a| && Holds(tree, lazy, root, cl, cr, a)
      requires l <= cr && cl <= r && cl < cr && cm == cl + (cr - cl) / 2
      modifies this`tree, this`lazy
      ensures sum == Sum(a, Later(l, cl), Sooner(r, cr) + 1)
      ensures Holds(tree, lazy, root, cl, cr, a)
      ensures SameElsewhere(old(tree), tree, root) && SameElsewhere(old(lazy), lazy, root)
      decreases cr - cl, 1
    {
      ghost var t0, z0 := tree, lazy;
      MaintainHalves(cl, cm, cr, root, a);
      ghost var t1, z1 := tree, lazy;
      sum := SumHalves(cl, cm, cr, root, l, r, a);
      SameTrans(t0, t1, tree, root);
      SameTrans(z0, z1, lazy, root);
    }

    /** The two recursive queries, after the push-down. */
    method SumHalves(cl: int, cm: int, cr: int, root: nat, l: int, r: int, ghost a: seq<int>) returns (sum: int)
      requires PlacedHalves(root, cl, cm, cr, |a|) && |tree| == |lazy| == 4 * |a| && l <= cr && cl <= r
      requires lazy[root] == 0
      requires tree[root] == Sum(a, cl, cr + 1)
      requires Holds(tree, lazy, 2 * root + 1, cl, cm, a) && Holds(tree, lazy, 2 * root + 2, cm + 1, cr, a)
      modifies this`tree, this`lazy
      ensures sum == Sum(a, Later(l, cl), Sooner(r, cr) + 1) && Holds(tree, lazy, root, cl, cr, a)
      ensures SameElsewhere(old(tree), tree, root) && SameElsewhere(old(lazy), lazy, root)
      decreases cr - cl, 0
    {
      ghost var t1, z1 := tree, lazy;
      sum := SumPart(l <= cm, cl, cm, 2 * root + 1, l, r, a, root, 2 * root + 2, cm + 1, cr);
      ghost var t2, z2 := tree, lazy;
      var s := SumPart(cm < r, cm + 1, cr, 2 * root + 2, l, r, a, root, 2 * root + 1, cl, cm);
      sum := sum + s;
      SameTrans(t1, t2, tree, root);
      SameTrans(z1, z2, lazy, root);
      SumParts(a, cl, cm, cr, l, r);
      Untagged(tree, lazy, root, cl, cr, a);
    }

    /** The part of the range in one half of node `up`, if any; its sibling `o` is left alone. */
    method SumPart(reached: bool, cl: int, cr: int, root: nat, l: int, r: int, ghost a: seq<int>,
                   ghost up: nat, ghost o: nat, ghost ol: int, ghost or: int) returns (sum: int)
      requires Placed(root, cl, cr, |a|) && |tree| == |lazy| == 4 * |a| && Holds(tree, lazy, root, cl, cr, a)
      requires reached <==> l <= cr && cl <= r
      requires Siblings(up, root, o) && up < |tree| && 0 <= ol <= or < |a| && Holds(tree, lazy, o, ol, or, a)
      modifies this`tree, this`lazy
      ensures sum == Sum(a, Later(l, cl), Sooner(r, cr) + 1)
      ensures Holds(tree, lazy, root, cl, cr, a) && Holds(tree, lazy, o, ol, or, a)
      ensures SameElsewhere(old(tree), tree, up) && SameElsewhere(old(lazy), lazy, up)
      ensures tree[up] == old(tree)[up] && lazy[up] == old(lazy)[up]
      decreases cr - cl, 3
    {
      ghost var t, z := tree, lazy;
      sum := 0;
      if reached {
        sum := RangeSumFrom(cl, cr, root, l, r, a);
      }
      SiblingKept(t, z, tree, lazy, up, root, o, ol, or, a);
    }

    /** The query below one node, without its frame. */
    method SumBelow(cl: int, cr: int, root: nat, l: int, r: int, ghost a: seq<int>) returns (sum: int)
      requires Placed(root, cl, cr, |a|) && |tree| == |lazy| == 4 * |a| && Holds(tree, lazy, root, cl, cr, a)
      requires l <= cr && cl <= r
      modifies this`tree, this`lazy
      ensures sum == Sum(a, Later(l, cl), Sooner(r, cr) + 1)
      ensures |tree| == |lazy| == 4 * |a| && Holds(tree, lazy, root, cl, cr, a)
    {
      sum := RangeSumFrom(cl, cr, root, l, r, a);
    }

    /** The exact sum; the push-downs on the way leave the represented array as it was. */
    method RangeSum(l: int, r: int, ghost a: seq<int>) returns (sum: int)
      requires Represents(a) && 0 <= l <= r < |a|
      modifies this`tree, this`lazy
      ensures sum == Sum(a, l, r + 1) && Represents(a)
    {
      var last := |tree| / 4 - 1;
      Opened(tree, lazy, a, last);
      sum := SumBelow(0, last, 0, l, r, a);
      Closed(tree, lazy, a, last);
    }
  }

  /** A tag left over from before spoils a second build: after any addition to the whole of two or
      more elements the tree does not stand for the input. */
  method InitAgain(v: seq<int>, value: int) returns (t: SegmentTree)
    requires |v| >= 2 && value != 0
    ensures fresh(t) && !t.Represents(v)
  {
    t := new SegmentTree();
    t.Init(v, true);
    t.RangeAdd(0, |v| - 1, value, v);
    t.Init(v, true);
  }

  lemma BuildLeaf(t: seq<int>, root: nat, i: int, v: seq<int>)
    requires root < |t| && 0 <= i < |v|
    ensures SumsHold(t[root := v[i]], root, i, i, v) && SameElsewhere(t, t[root := v[i]], root)
  {
    assert Under(root, root);
    assert Sum(v, i, i) == 0;
  }

  lemma BuildJoin(t0: seq<int>, t1: seq<int>, t2: seq<int>, root: nat, cl: int, cm: int, cr: int, v: seq<int>)
        returns (t: seq<int>)
    requires 0 <= cl <= cm < cr < |v| && cm == cl + (cr - cl) / 2 && root < |t0|
    requires SumsHold(t1, 2 * root + 1, cl, cm, v) && SameElsewhere(t0, t1, 2 * root + 1)
    requires SumsHold(t2, 2 * root + 2, cm + 1, cr, v) && SameElsewhere(t1, t2, 2 * root + 2)
    ensures |t0| == |t1| == |t2| && 2 * root + 1 < |t2| && 2 * root + 2 < |t2|
    ensures t == t2[root := t2[2 * root + 1] + t2[2 * root + 2]]
    ensures SumsHold(t, root, cl, cr, v) && SameElsewhere(t0, t, root)
  {
    ChildFrame(t0, t1, root, 2 * root + 1, 2 * root + 2);
    ChildFrame(t1, t2, root, 2 * root + 2, 2 * root + 1);
    SumsHoldLocal(t1, t2, 2 * root + 1, cl, cm, v);
    SumSplit(v, cl, cm + 1, cr + 1);
    t := t2[root := t2[2 * root + 1] + t2[2 * root + 2]];
    BelowChildren(t2, t, root);
    SumsHoldLocal(t2, t, 2 * root + 1, cl, cm, v);
    SumsHoldLocal(t2, t, 2 * root + 2, cm + 1, cr, v);
    SameTrans(t0, t1, t2, root);
    SetRoot(t0, t2, root, t2[2 * root + 1] + t2[2 * root + 2]);
  }

  /** A fresh tree represents zeros. */
  lemma ZerosHold(t: seq<int>, z: seq<int>, n: int)
    requires n >= 1 && |t| == |z| == 4 * n && (forall i :: 0 <= i < |t| ==> t[i] == 0)
    requires (forall i :: 0 <= i < |z| ==> z[i] == 0)
    ensures Whole(t, z, seq(n, _ => 0)) && NoTags(z, 0, 0, n - 1)
  {
    var last := n - 1;
    PlacedRoot(n);
    NoTagsZero(z, 0, 0, last, n);
    SumsZero(t, 0, 0, last, n);
    BuiltWhole(t, z, seq(n, _ => 0), last);
  }

  lemma {:induction false} SumsZero(t: seq<int>, root: nat, cl: int, cr: int, n: int)
    requires Placed(root, cl, cr, n) && |t| == 4 * n && forall i :: 0 <= i < |t| ==> t[i] == 0
    ensures SumsHold(t, root, cl, cr, seq(n, _ => 0))
    decreases cr - cl
  {
    ZeroSum(seq(n, _ => 0), cl, cr + 1);
    if cl < cr {
      Halves(root, cl, cr, n);
      var m := cl + (cr - cl) / 2;
      SumsZero(t, 2 * root + 1, cl, m, n);
      SumsZero(t, 2 * root + 2, m + 1, cr, n);
    }
  }

  lemma PushDown(t: seq<int>, z: seq<int>, t': seq<int>, z': seq<int>, root: nat, cl: int, m: int, cr: int, a: seq<int>)
    requires 0 <= cl <= m < cr < |a| && m == cl + (cr - cl) / 2 && Holds(t, z, root, cl, cr, a)
    requires |t'| == |t| == |z| == |z'| && 2 * root + 2 < |t|
    requires var l, r := 2 * root + 1, 2 * root + 2;
             t' == t[l := t[l] + z[root] * (m - cl + 1)][r := t[r] + z[root] * (cr - m)]
    requires z' == z[2 * root + 1 := z[2 * root + 1] + z[root]][2 * root + 2 := z[2 * root + 2] + z[root]][root := 0]
    ensures Holds(t', z', root, cl, cr, a) && SameElsewhere(t, t', root) && SameElsewhere(z, z', root)
    ensures Holds(t', z', 2 * root + 1, cl, m, a) && Holds(t', z', 2 * root + 2, m + 1, cr, a)
  {
    var l, r, d := 2 * root + 1, 2 * root + 2, z[root];
    var b := Shift(a, -d);
    assert Shift(b, d) == a;
    NodeSum(t, z, root, cl, cr, a);
    forall j: nat ensures Under(l, j) ==> j != root && j != r
      ensures Under(r, j) ==> j != root && j != l
      ensures !Under(root, j) ==> j != root && j != l && j != r
    {
      UnderChild(root, j);
      SiblingsApart(root, j);
      assert Under(l, l) && Under(r, r) && Under(root, root);
    }
    PushChild(t, z, t', z', l, cl, m, b, d);
    PushChild(t, z, t', z', r, m + 1, cr, b, d);
    Untagged(t', z', root, cl, cr, a);
  }

  lemma PushChild(t: seq<int>, z: seq<int>, t': seq<int>, z': seq<int>, c: nat, cl: int, cr: int, b: seq<int>, d: int)
    requires 0 <= cl <= cr < |b| && Holds(t, z, c, cl, cr, b) && |t'| == |t| && |z'| == |z|
    requires t'[c] == t[c] + d * (cr - cl + 1) && z'[c] == z[c] + d
    requires forall j: nat :: j < |t| && Under(c, j) && j != c ==> t'[j] == t[j] && z'[j] == z[j]
    ensures Holds(t', z', c, cl, cr, Shift(b, d))
  {
    AddWhole(t, z, c, cl, cr, b, d);
    HoldsLocal(t[c := t[c] + (cr - cl + 1) * d], z[c := z[c] + d], t', z', c, cl, cr, Shift(b, d), Shift(b, d));
  }
}
