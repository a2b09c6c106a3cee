/** cpp/datastructure/search/UFS.h: union-find with path compression and union by size. */
module UnionFind {
  import opened Powers

  type Pairs = set<(nat, nat)>

  // ---------- connection by the pairs given so far ----------

  ghost predicate Joined(pairs: Pairs, a: nat, b: nat) { (a, b) in pairs || (b, a) in pairs }

  /** `p` walks from `a` to `b` along the pairs. */
  ghost predicate IsPath(pairs: Pairs, p: seq<nat>, a: nat, b: nat) {
    && |p| >= 1 && p[0] == a && p[|p| - 1] == b
    && forall i :: 0 <= i < |p| - 1 ==> Joined(pairs, p[i], p[i + 1])
  }

  ghost predicate Connected(pairs: Pairs, a: nat, b: nat) { exists p :: IsPath(pairs, p, a, b) }

  lemma ConnectedSelf(pairs: Pairs, a: nat)
    ensures Connected(pairs, a, a)
  {
    assert IsPath(pairs, [a], a, a);
  }

  lemma ConnectedPair(pairs: Pairs, a: nat, b: nat)
    requires Joined(pairs, a, b)
    ensures Connected(pairs, a, b)
  {
    assert IsPath(pairs, [a, b], a, b);
  }

  lemma ConnectedMore(pairs: Pairs, more: Pairs, a: nat, b: nat)
    requires pairs <= more && Connected(pairs, a, b)
    ensures Connected(more, a, b)
  {
    var p :| IsPath(pairs, p, a, b);
    assert IsPath(more, p, a, b);
  }

  lemma ConnectedTrans(pairs: Pairs, a: nat, b: nat, c: nat)
    requires Connected(pairs, a, b) && Connected(pairs, b, c)
    ensures Connected(pairs, a, c)
  {
    var p :| IsPath(pairs, p, a, b);
    var q :| IsPath(pairs, q, b, c);
    var w := p + q[1..];
    forall i | 0 <= i < |w| - 1 ensures Joined(pairs, w[i], w[i + 1]) {
      if i >= |p| - 1 { assert w[i] == q[i - |p| + 1] && w[i + 1] == q[i - |p| + 2]; }
    }
    assert IsPath(pairs, w, a, c);
  }

  /** A labelling that agrees on every pair agrees along every path. */
  lemma {:induction false} SameLabel(pairs: Pairs, lab: seq<nat>, p: seq<nat>, a: nat, b: nat)
    requires IsPath(pairs, p, a, b) && a < |lab|
    requires forall x, y :: (x, y) in pairs ==> x < |lab| && y < |lab| && lab[x] == lab[y]
    ensures b < |lab| && lab[a] == lab[b]
    decreases |p|
  {
    if |p| > 1 {
      assert Joined(pairs, p[0], p[1]);
      var q := p[1..];
      forall i | 0 <= i < |q| - 1 ensures Joined(pairs, q[i], q[i + 1]) { assert Joined(pairs, p[i + 1], p[i + 2]); }
      SameLabel(pairs, lab, q, p[1], b);
    }
  }

  // ---------- the forest ----------

  /** Fathers are elements, and ranks grow towards the roots, up to `top`. */
  ghost predicate Forest(f: seq<nat>, h: seq<nat>, top: nat) {
    |h| == |f| && forall v {:trigger f[v]} :: 0 <= v < |f| ==>
        f[v] < |f| && h[v] <= top && (f[v] != v ==> h[v] < h[f[v]])
  }

  ghost function Root(f: seq<nat>, h: seq<nat>, top: nat, v: nat): (r: nat)
    requires Forest(f, h, top) && v < |f|
    ensures r < |f| && f[r] == r
    decreases top - h[v]
  {
    if f[v] == v then v else Root(f, h, top, f[v])
  }

  /** The length of the father chain. */
  ghost function ChainLength(f: seq<nat>, h: seq<nat>, top: nat, v: nat): nat
    requires Forest(f, h, top) && v < |f|
    decreases top - h[v]
  {
    if f[v] == v then 0 else 1 + ChainLength(f, h, top, f[v])
  }

  ghost function Labels(f: seq<nat>, h: seq<nat>, top: nat): (l: seq<nat>)
    requires Forest(f, h, top)
    ensures |l| == |f| && forall v :: 0 <= v < |f| ==> l[v] == Root(f, h, top, v)
  {
    seq(|f|, v requires 0 <= v < |f| => Root(f, h, top, v))
  }

  ghost function Class(lab: seq<nat>, r: nat): set<nat> { set v: nat | v < |lab| && lab[v] == r }

  ghost function Roots(f: seq<nat>): set<nat> { set v: nat | v < |f| && f[v] == v }

  /** Chains are no longer than the rank they climb. */
  lemma {:induction false} ChainBound(f: seq<nat>, h: seq<nat>, top: nat, v: nat)
    requires Forest(f, h, top) && v < |f|
    ensures ChainLength(f, h, top, v) + h[v] <= h[Root(f, h, top, v)]
    decreases top - h[v]
  {
    if f[v] != v { ChainBound(f, h, top, f[v]); }
  }

  /** Pointing `v` straight at its root changes no root. */
  lemma {:induction false} Compress(f: seq<nat>, h: seq<nat>, top: nat, v: nat, u: nat)
    requires Forest(f, h, top) && v < |f| && u < |f|
    ensures Forest(f[v := Root(f, h, top, v)], h, top)
    ensures Root(f[v := Root(f, h, top, v)], h, top, u) == Root(f, h, top, u)
    ensures ChainLength(f[v := Root(f, h, top, v)], h, top, u) <= ChainLength(f, h, top, u)
    decreases top - h[u]
  {
    var r := Root(f, h, top, v);
    var g := f[v := r];
    ChainBound(f, h, top, v);
    assert f[v] != v ==> r != v;
    assert Forest(g, h, top) by {
      forall w | 0 <= w < |g| ensures g[w] < |g| && h[w] <= top && (g[w] != w ==> h[w] < h[g[w]]) { assert f[w] < |f|; }
    }
    if f[u] != u { Compress(f, h, top, v, f[u]); }
  }

  /** Hanging root `y` below root `x`: exactly the elements of `y` change root. */
  lemma {:induction false} Hang(f: seq<nat>, h: seq<nat>, top: nat, x: nat, y: nat, h': seq<nat>, u: nat)
    requires Forest(f, h, top) && x < |f| && y < |f| && x != y && f[x] == x && f[y] == y && u < |f|
    requires h' == h[x := if h[x] > h[y] then h[x] else h[y] + 1]
    ensures Forest(f[y := x], h', top + 1)
    ensures Root(f[y := x], h', top + 1, u) == if Root(f, h, top, u) == y then x else Root(f, h, top, u)
    decreases top - h[u]
  {
    var g := f[y := x];
    assert Forest(g, h', top + 1) by {
      forall w | 0 <= w < |f|
          ensures g[w] < |g| && h'[w] <= top + 1 && (g[w] != w ==> h'[w] < h'[g[w]]) { assert f[w] < |f|; }
    }
    if f[u] != u {
      Hang(f, h, top, x, y, h', f[u]);
    } else if u == y {
      assert Root(f[y := x], h', top + 1, x) == x;
    }
  }

  // ---------- the whole state ----------

  /** A root's recorded size is the size of its class, and at least two to its rank. */
  ghost predicate Sizes(roots: set<nat>, size: seq<nat>, h: seq<nat>, lab: seq<nat>) {
    |size| == |h| == |lab| &&
    forall r {:trigger Class(lab, r)} :: r in roots ==>
        r < |size| && size[r] == |Class(lab, r)| && Pow2(h[r]) <= size[r]
  }

  /** Two elements share a root exactly when the pairs connect them. */
  ghost predicate Agrees(lab: seq<nat>, pairs: Pairs) {
    && (forall x, y :: (x, y) in pairs ==> x < |lab| && y < |lab|)
    && forall a: nat, b: nat {:trigger Connected(pairs, a, b)} :: a < |lab| && b < |lab| ==>
        (lab[a] == lab[b] <==> Connected(pairs, a, b))
  }

  /** What holds of the roots, sizes, count and root labels, apart from how fathers lead to roots. */
  ghost predicate Facts(roots: set<nat>, size: seq<nat>, count: int, h: seq<nat>, lab: seq<nat>, pairs: Pairs) {
    Sizes(roots, size, h, lab) && Agrees(lab, pairs) && count == |roots|
  }

  ghost predicate Consistent(f: seq<nat>, size: seq<nat>, count: int, h: seq<nat>, top: nat, pairs: Pairs) {
    Forest(f, h, top) && Facts(Roots(f), size, count, h, Labels(f, h, top), pairs)
  }

  /** Compression keeps the roots and which of them each element has. */
  lemma CompressKeeps(f: seq<nat>, h: seq<nat>, top: nat, v: nat)
    requires Forest(f, h, top) && v < |f|
    ensures var g := f[v := Root(f, h, top, v)];
            Forest(g, h, top) && Labels(g, h, top) == Labels(f, h, top) && Roots(g) == Roots(f)
  {
    var g := f[v := Root(f, h, top, v)];
    Compress(f, h, top, v, v);
    forall u: nat | u < |f| ensures Labels(g, h, top)[u] == Labels(f, h, top)[u] { Compress(f, h, top, v, u); }
    ChainBound(f, h, top, v);
    assert Roots(g) == Roots(f);
  }

  ghost function Merged(lab: seq<nat>, x: nat, y: nat): (l: seq<nat>)
    ensures |l| == |lab|
  {
    seq(|lab|, v requires 0 <= v < |lab| => if lab[v] == y then x else lab[v])
  }

  lemma MergedClass(lab: seq<nat>, x: nat, y: nat)
    requires x != y
    ensures Class(Merged(lab, x, y), x) == Class(lab, x) + Class(lab, y)
    ensures |Class(Merged(lab, x, y), x)| == |Class(lab, x)| + |Class(lab, y)|
    ensures forall r :: r != x && r != y ==> Class(Merged(lab, x, y), r) == Class(lab, r)
  {
    assert Class(lab, x) !! Class(lab, y);
  }

  /** Merging the classes of two elements is connecting these two elements. */
  lemma MergedAgrees(lab: seq<nat>, pairs: Pairs, a: nat, b: nat, x: nat, y: nat)
    requires Agrees(lab, pairs) && a < |lab| && b < |lab|
    requires (x == lab[a] && y == lab[b]) || (x == lab[b] && y == lab[a])
    ensures Agrees(Merged(lab, x, y), pairs + {(a, b)})
  {
    var l, more := Merged(lab, x, y), pairs + {(a, b)};
    forall u, v | (u, v) in more ensures u < |l| && v < |l| && l[u] == l[v] {
      if (u, v) in pairs { ConnectedPair(pairs, u, v); }
    }
    forall u: nat, v: nat | u < |l| && v < |l| ensures l[u] == l[v] <==> Connected(more, u, v) {
      if Connected(more, u, v) {
        var p :| IsPath(more, p, u, v);
        SameLabel(more, l, p, u, v);
      }
      if l[u] == l[v] { MergedConnected(lab, pairs, a, b, x, y, u, v); }
    }
  }

  lemma MergedConnected(lab: seq<nat>, pairs: Pairs, a: nat, b: nat, x: nat, y: nat, u: nat, v: nat)
    requires Agrees(lab, pairs) && a < |lab| && b < |lab| && u < |lab| && v < |lab|
    requires (x == lab[a] && y == lab[b]) || (x == lab[b] && y == lab[a])
    requires Merged(lab, x, y)[u] == Merged(lab, x, y)[v]
    ensures Connected(pairs + {(a, b)}, u, v)
  {
    var more := pairs + {(a, b)};
    if lab[u] == lab[v] {
      ConnectedMore(pairs, more, u, v);
    } else {
      var (s, t) := if lab[u] == lab[a] then (a, b) else (b, a);
      ConnectedMore(pairs, more, u, s);
      ConnectedPair(more, s, t);
      ConnectedMore(pairs, more, t, v);
      ConnectedTrans(more, u, s, t);
      ConnectedTrans(more, u, t, v);
    }
  }

  /** A pair that is connected already adds nothing. */
  lemma KnownPair(lab: seq<nat>, pairs: Pairs, a: nat, b: nat)
    requires Agrees(lab, pairs) && a < |lab| && b < |lab| && lab[a] == lab[b]
    ensures Agrees(lab, pairs + {(a, b)})
  {
    MergedAgrees(lab, pairs, a, b, lab[a], lab[b]);
    assert Merged(lab, lab[a], lab[b]) == lab;
  }

  /** The number of roots is the number of classes of the connection relation. */
  ghost function Component(n: nat, pairs: Pairs, a: nat): set<nat> { set b: nat | b < n && Connected(pairs, a, b) }
  ghost function Components(n: nat, pairs: Pairs): set<set<nat>> { set a: nat | a < n :: Component(n, pairs, a) }

  lemma {:induction false} InjectiveImage(s: set<nat>, n: nat, pairs: Pairs, image: set<set<nat>>)
    requires image == set a | a in s :: Component(n, pairs, a)
    requires forall a, b :: a in s && b in s && Component(n, pairs, a) == Component(n, pairs, b) ==> a == b
    ensures |image| == |s|
  {
    if s != {} {
      var a :| a in s;
      var rest := set b | b in s - {a} :: Component(n, pairs, b);
      assert image == rest + {Component(n, pairs, a)} && Component(n, pairs, a) !in rest;
      InjectiveImage(s - {a}, n, pairs, rest);
    } else {
      assert image == {};
    }
  }

  lemma CountsComponents(f: seq<nat>, size: seq<nat>, count: int, h: seq<nat>, top: nat, pairs: Pairs)
    requires Consistent(f, size, count, h, top, pairs)
    ensures count == |Components(|f|, pairs)|
  {
    var n, l, roots := |f|, Labels(f, h, top), Roots(f);
    forall a: nat, b: nat | a < n && b < n ensures Component(n, pairs, a) == Component(n, pairs, b) <==> l[a] == l[b] {
      SameComponent(l, pairs, a, b);
    }
    var image := set r | r in roots :: Component(n, pairs, r);
    forall a: nat | a < n ensures l[a] in roots && Component(n, pairs, a) == Component(n, pairs, l[a]) {
      assert l[l[a]] == l[a];
    }
    assert image == Components(n, pairs);
    InjectiveImage(roots, n, pairs, image);
  }

  lemma SameComponent(l: seq<nat>, pairs: Pairs, a: nat, b: nat)
    requires Agrees(l, pairs) && a < |l| && b < |l|
    ensures Component(|l|, pairs, a) == Component(|l|, pairs, b) <==> l[a] == l[b]
  {
    assert l[a] == l[a] && l[b] == l[b];
    if Component(|l|, pairs, a) == Component(|l|, pairs, b) {
      assert Connected(pairs, b, b);
      assert b in Component(|l|, pairs, b);
    }
    if l[a] == l[b] {
      forall c: nat | c < |l| ensures Connected(pairs, a, c) <==> Connected(pairs, b, c) {}
    }
  }

  /** Hanging `y` below `x` leaves one root fewer and merges two labels. */
  lemma HangKeeps(f: seq<nat>, h: seq<nat>, top: nat, x: nat, y: nat, h': seq<nat>)
    requires Forest(f, h, top) && x < |f| && y < |f| && x != y && f[x] == x && f[y] == y
    requires h' == h[x := if h[x] > h[y] then h[x] else h[y] + 1]
    ensures Forest(f[y := x], h', top + 1) && Labels(f[y := x], h', top + 1) == Merged(Labels(f, h, top), x, y)
    ensures Roots(f[y := x]) == Roots(f) - {y} && y in Roots(f)
  {
    var g := f[y := x];
    Hang(f, h, top, x, y, h', x);
    forall u: nat | u < |f|
        ensures Labels(g, h', top + 1)[u] == Merged(Labels(f, h, top), x, y)[u] { Hang(f, h, top, x, y, h', u); }
  }

  lemma UnitFacts(roots: set<nat>, size: seq<nat>, count: int, h: seq<nat>, lab: seq<nat>, pairs: Pairs,
                  a: nat, b: nat, x: nat, y: nat, h': seq<nat>)
    requires Facts(roots, size, count, h, lab, pairs) && a < |lab| && b < |lab| && x in roots && y in roots && x != y
    requires (x == lab[a] && y == lab[b]) || (x == lab[b] && y == lab[a])
    requires x < |size| && y < |size| && size[x] >= size[y] && h' == h[x := if h[x] > h[y] then h[x] else h[y] + 1]
    ensures Facts(roots - {y}, size[x := size[x] + size[y]], count - 1, h', Merged(lab, x, y), pairs + {(a, b)})
  {
    MergedAgrees(lab, pairs, a, b, x, y);
    MergedSizes(roots, size, h, lab, x, y, h');
  }

  lemma MergedSizes(roots: set<nat>, size: seq<nat>, h: seq<nat>, lab: seq<nat>, x: nat, y: nat, h': seq<nat>)
    requires Sizes(roots, size, h, lab) && x in roots && y in roots && x != y
    requires x < |size| && y < |size| && size[x] >= size[y] && h' == h[x := if h[x] > h[y] then h[x] else h[y] + 1]
    ensures Sizes(roots - {y}, size[x := size[x] + size[y]], h', Merged(lab, x, y))
  {
    MergedClass(lab, x, y);
    assert size[x] == |Class(lab, x)| && size[y] == |Class(lab, y)|;
    assert Pow2(h[y] + 1) == 2 * Pow2(h[y]);
    var size', lab' := size[x := size[x] + size[y]], Merged(lab, x, y);
    forall r | r in roots - {y} ensures r < |size'| && size'[r] == |Class(lab', r)| && Pow2(h'[r]) <= size'[r] {
      if r != x { assert Class(lab', r) == Class(lab, r); }
    }
  }

  lemma UnitStep(f: seq<nat>, size: seq<nat>, count: int, h: seq<nat>, top: nat, pairs: Pairs, a: nat, b: nat, x: nat,
        y: nat)
      returns (h': seq<nat>)
    requires Consistent(f, size, count, h, top, pairs) && a < |f| && b < |f| && x != y
    requires var l := Labels(f, h, top); (x == l[a] && y == l[b]) || (x == l[b] && y == l[a])
    requires x < |size| && y < |size| && size[x] >= size[y]
    ensures y < |f| && Consistent(f[y := x], size[x := size[x] + size[y]], count - 1, h', top + 1, pairs + {(a, b)})
  {
    h' := h[x := if h[x] > h[y] then h[x] else h[y] + 1];
    HangKeeps(f, h, top, x, y, h');
    UnitFacts(Roots(f), size, count, h, Labels(f, h, top), pairs, a, b, x, y, h');
  }

  class UF {
    var count: int
    var father: seq<nat>
    var size: seq<nat>
    ghost var rank: seq<nat>
    ghost var top: nat

    /** The object reflects the pairs joined so far. */
    ghost predicate Valid(pairs: Pairs)
      reads this
    {
      Consistent(father, size, count, rank, top, pairs)
    }

    constructor (n: nat)
      ensures Valid({}) && |father| == n
    {
      count := n;
      father := seq(n, i => i);
      size := seq(n, _ => 1);
      rank := seq(n, _ => 0);
      top := 0;
      new;
      Singletons(n, father, size, rank);
    }

    /** The number of classes. */
    method Count(ghost pairs: Pairs) returns (c: int)
      requires Valid(pairs)
      ensures c == |Components(|father|, pairs)|
    {
      c := count;
      CountsComponents(father, size, count, rank, top, pairs);
    }

    /** The root; compression changes neither the roots nor which of them an element has.  `hops`
        counts the recursive calls. */
    method FindAndSet(v: nat) returns (r: nat, ghost hops: nat)
      requires Forest(father, rank, top) && v < |father|
      modifies this`father
      ensures Forest(father, rank, top) && Labels(father, rank, top) == old(Labels(father, rank, top))
      ensures Roots(father) == old(Roots(father))
      ensures r == old(Root(father, rank, top, v)) && father[v] == r
      ensures hops == old(ChainLength(father, rank, top, v))
      decreases top - rank[v]
    {
      if father[v] == v {
        return v, 0;
      }
      ghost var l := Labels(father, rank, top);
      r, hops := FindAndSet(father[v]);
      hops := hops + 1;
      assert Labels(father, rank, top)[v] == l[v] == r;
      CompressKeeps(father, rank, top, v);
      father := father[v := r];
    }

    /** Joining two distinct roots: the smaller class goes below the larger. */
    method Unit(x: nat, y: nat)
      requires |size| == |father| && x < |father| && y < |father| && x != y
      modifies this`father, this`size, this`count
      ensures var p, q := Larger(old(size), x, y), Smaller(old(size), x, y);
              father == old(father)[q := p] && size == old(size)[p := old(size)[p] + old(size)[q]]
                  && count == old(count) - 1
    {
      var p, q := x, y;
      if size[p] < size[q] {
        p, q := q, p;
      }
      father := father[q := p];
      size := size[p := size[p] + size[q]];
      count := count - 1;
    }

    /** Joining the roots of two elements is joining the two elements. */
    method UnitRoots(x: nat, y: nat, ghost a: nat, ghost b: nat, ghost pairs: Pairs)
      requires Valid(pairs) && a < |father| && b < |father| && x != y
      requires x == Labels(father, rank, top)[a] && y == Labels(father, rank, top)[b]
      modifies this
      ensures Valid(pairs + {(a, b)}) && |father| == |old(father)|
    {
      ghost var p, q := Larger(size, x, y), Smaller(size, x, y);
      ghost var h := UnitStep(father, size, count, rank, top, pairs, a, b, p, q);
      ghost var f, z, c, t := father[q := p], size[p := size[p] + size[q]], count - 1, top + 1;
      Unit(x, y);
      rank, top := h, t;
      assert father == f && size == z && count == c;
      assert Consistent(father, size, count, rank, top, pairs + {(a, b)});
    }

    /** Connects `x` and `y`, and reports whether they were unconnected before. */
    method FindAndUnit(x: nat, y: nat, ghost pairs: Pairs) returns (joined: bool)
      requires Valid(pairs) && x < |father| && y < |father|
      modifies this
      ensures Valid(pairs + {(x, y)}) && |father| == |old(father)|
      ensures joined <==> !Connected(pairs, x, y)
    {
      var a, b;
      ghost var hops, l := 0, Labels(father, rank, top);
      a, hops := FindAndSet(x);
      b, hops := FindAndSet(y);
      assert Consistent(father, size, count, rank, top, pairs);
      Separate(l, pairs, x, y);
      if a != b {
        UnitRoots(a, b, x, y, pairs);
        return true;
      }
      KnownPair(l, pairs, x, y);
      return false;
    }
  }

  /** The one that stays a root, of the larger class, and the one that goes below it. */
  ghost function Larger(size: seq<nat>, x: nat, y: nat): nat
    requires x < |size| && y < |size|
  {
    if size[x] < size[y] then y else x
  }

  ghost function Smaller(size: seq<nat>, x: nat, y: nat): nat
    requires x < |size| && y < |size|
  {
    if size[x] < size[y] then x else y
  }

  lemma Separate(lab: seq<nat>, pairs: Pairs, a: nat, b: nat)
    requires Agrees(lab, pairs) && a < |lab| && b < |lab|
    ensures lab[a] == lab[b] <==> Connected(pairs, a, b)
  {}

  /** After any pairs: a root's recorded size is the size of its component, and no father chain is
      longer than log2 of that. */
  lemma ShortChain(f: seq<nat>, size: seq<nat>, count: int, h: seq<nat>, top: nat, pairs: Pairs, v: nat)
    requires Consistent(f, size, count, h, top, pairs) && v < |f|
    ensures |size| == |f| && size[Root(f, h, top, v)] == |Component(|f|, pairs, v)|
    ensures Pow2(ChainLength(f, h, top, v)) <= |Component(|f|, pairs, v)|
  {
    var l := Labels(f, h, top);
    assert Class(l, l[v]) == Component(|f|, pairs, v);
    ChainBound(f, h, top, v);
    Pow2Mono(ChainLength(f, h, top, v), h[l[v]]);
  }

  lemma Singletons(n: nat, f: seq<nat>, size: seq<nat>, h: seq<nat>)
    requires f == seq(n, i => i) && size == seq(n, _ => 1) && h == seq(n, _ => 0)
    ensures Consistent(f, size, n, h, 0, {})
  {
    var l := Labels(f, h, 0);
    forall r | r in Roots(f)
        ensures r < n && size[r] == |Class(l, r)| && Pow2(h[r]) <= size[r] { assert Class(l, r) == {r}; }
    assert Sizes(Roots(f), size, h, l);
    forall a: nat, b: nat | a < n && b < n ensures l[a] == l[b] <==> Connected({}, a, b) {
      if a == b { ConnectedSelf({}, a); }
      if Connected({}, a, b) {
        var p :| IsPath({}, p, a, b);
        SameLabel({}, l, p, a, b);
      }
    }
    Upto(n, Roots(f));
  }

  lemma {:induction false} Upto(n: nat, s: set<nat>)
    requires forall v: nat :: v in s <==> v < n
    ensures |s| == n
  {
    if n > 0 { Upto(n - 1, s - {n - 1}); } else { assert s == {}; }
  }
}
