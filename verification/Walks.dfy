/** Weighted directed graphs and walks in them, the reference for shortest paths. */
module Walks {
  /** graph[u] lists the pairs (v, w) of the edges leaving `u`. */
  type Graph = seq<seq<(int, int)>>

  datatype Edge = Edge(u: int, v: int, w: int)

  const INF: int := 0x7FFF_FFFF

  ghost predicate WellFormed(g: Graph) {
    forall u, e :: 0 <= u < |g| && e in g[u] ==> 0 <= e.0 < |g|
  }

  ghost predicate IsEdge(g: Graph, e: Edge) { 0 <= e.u < |g| && (e.v, e.w) in g[e.u] }

  /** The vertex reached after `i` edges. */
  ghost function Stop(s: int, p: seq<Edge>, i: int): int
    requires 0 <= i <= |p|
  {
    if i == 0 then s else p[i - 1].v
  }

  ghost function End(s: int, p: seq<Edge>): int { Stop(s, p, |p|) }

  /** Edge `i` leaves the vertex reached before it. */
  ghost predicate Follows(g: Graph, s: int, p: seq<Edge>, i: int)
    requires 0 <= i < |p|
  {
    IsEdge(g, p[i]) && p[i].u == Stop(s, p, i)
  }

  ghost predicate Walk(g: Graph, s: int, p: seq<Edge>) {
    forall i :: 0 <= i < |p| ==> Follows(g, s, p, i)
  }

  ghost function Weight(p: seq<Edge>): int {
    if p == [] then 0 else Weight(p[..|p| - 1]) + p[|p| - 1].w
  }

  /** Every part of the walk from its start weighs less than infinity. */
  ghost predicate Visible(p: seq<Edge>) { forall i :: 0 <= i <= |p| ==> Weight(p[..i]) < INF }

  // ---------- cutting and joining ----------

  lemma {:induction false} WeightJoin(p: seq<Edge>, q: seq<Edge>)
    ensures Weight(p + q) == Weight(p) + Weight(q)
  {
    if q == [] {
      assert p + q == p;
    } else {
      assert (p + q)[..|p + q| - 1] == p + q[..|q| - 1];
      WeightJoin(p, q[..|q| - 1]);
    }
  }

  /** A part of a walk weighs the difference of what comes before its end and its start. */
  lemma WeightSlice(p: seq<Edge>, i: int, j: int)
    requires 0 <= i <= j <= |p|
    ensures Weight(p[i..j]) == Weight(p[..j]) - Weight(p[..i])
  {
    assert p[..i] + p[i..j] == p[..j];
    WeightJoin(p[..i], p[i..j]);
  }

  lemma WalkSlice(g: Graph, s: int, p: seq<Edge>, i: int, j: int)
    requires Walk(g, s, p) && 0 <= i <= j <= |p|
    ensures Walk(g, Stop(s, p, i), p[i..j]) && End(Stop(s, p, i), p[i..j]) == Stop(s, p, j)
  {
    var q := p[i..j];
    forall k | 0 <= k < |q| ensures Follows(g, Stop(s, p, i), q, k) {
      assert Follows(g, s, p, i + k);
    }
  }

  lemma WalkJoin(g: Graph, s: int, p: seq<Edge>, q: seq<Edge>)
    requires Walk(g, s, p) && Walk(g, End(s, p), q)
    ensures Walk(g, s, p + q) && End(s, p + q) == End(End(s, p), q)
  {
    var r := p + q;
    forall k | 0 <= k < |r| ensures Follows(g, s, r, k) {
      if k < |p| {
        assert Follows(g, s, p, k);
      } else {
        assert Follows(g, End(s, p), q, k - |p|);
      }
    }
  }

  lemma StopInside(g: Graph, s: int, p: seq<Edge>, i: int)
    requires WellFormed(g) && Walk(g, s, p) && 0 <= s < |g| && 0 <= i <= |p|
    ensures 0 <= Stop(s, p, i) < |g|
  {
    if i > 0 { assert Follows(g, s, p, i - 1); }
  }

  /** Leaving out the part from stop `a` to stop `b` of the same vertex. */
  ghost function Cut(p: seq<Edge>, a: int, b: int): seq<Edge>
    requires 0 <= a <= b <= |p|
  {
    p[..a] + p[b..]
  }

  lemma CutWalk(g: Graph, s: int, p: seq<Edge>, a: int, b: int)
    requires Walk(g, s, p) && 0 <= a <= b <= |p| && Stop(s, p, a) == Stop(s, p, b)
    ensures Walk(g, s, Cut(p, a, b)) && End(s, Cut(p, a, b)) == End(s, p)
    ensures Weight(Cut(p, a, b)) == Weight(p) - Weight(p[a..b])
  {
    WalkSlice(g, s, p, 0, a);
    WalkSlice(g, s, p, b, |p|);
    assert p[0..a] == p[..a] && p[b..|p|] == p[b..];
    WalkJoin(g, s, p[..a], p[b..]);
    WeightJoin(p[..a], p[b..]);
    WeightSlice(p, a, b);
    WeightSlice(p, b, |p|);
    assert p[..|p|] == p;
  }

  lemma CutPrefix(p: seq<Edge>, a: int, b: int, i: int)
    requires 0 <= a <= b <= |p| && 0 <= i <= |p| - (b - a)
    ensures Cut(p, a, b)[..i] == if i <= a then p[..i] else Cut(p[..i + (b - a)], a, b)
  {}

  /** Cutting out a part that weighs nothing or more keeps a walk visible. */
  lemma CutVisible(p: seq<Edge>, a: int, b: int)
    requires Visible(p) && 0 <= a <= b <= |p| && Weight(p[a..b]) >= 0
    ensures Visible(Cut(p, a, b))
  {
    var q := Cut(p, a, b);
    forall i | 0 <= i <= |q| ensures Weight(q[..i]) < INF {
      CutPrefix(p, a, b, i);
      if i > a { CutLater(p, a, b, i + (b - a)); }
    }
  }

  lemma CutLater(p: seq<Edge>, a: int, b: int, j: int)
    requires Visible(p) && 0 <= a <= b <= j <= |p| && Weight(p[a..b]) >= 0
    ensures Weight(Cut(p[..j], a, b)) < INF
  {
    CutWeight(p[..j], a, b);
    assert p[..j][a..b] == p[a..b];
  }

  lemma CutWeight(p: seq<Edge>, a: int, b: int)
    requires 0 <= a <= b <= |p|
    ensures Weight(Cut(p, a, b)) == Weight(p) - Weight(p[a..b])
  {
    WeightJoin(p[..a], p[b..]);
    WeightSlice(p, a, b);
    WeightSlice(p, b, |p|);
    assert p[..|p|] == p && p[b..|p|] == p[b..];
  }

  // ---------- a vertex met twice ----------

  lemma {:induction false} DistinctSet(xs: seq<int>)
    requires forall i, j :: 0 <= i < j < |xs| ==> xs[i] != xs[j]
    ensures |set x | x in xs| == |xs|
  {
    if xs != [] {
      var ys, z := xs[..|xs| - 1], xs[|xs| - 1];
      DistinctSet(ys);
      assert (set x | x in xs) == (set x | x in ys) + {z};
    }
  }

  lemma {:induction false} AtMost(n: nat, s: set<int>)
    requires forall x :: x in s ==> 0 <= x < n
    ensures |s| <= n
  {
    if n == 0 {
      assert forall x :: x !in s;
      assert |s| == 0;
    } else {
      AtMost(n - 1, s - {n - 1});
    }
  }

  /** More stops than vertices: two of the stops coincide. */
  lemma Pigeonhole(xs: seq<int>, n: nat) returns (a: int, b: int)
    requires |xs| > n && forall i :: 0 <= i < |xs| ==> 0 <= xs[i] < n
    ensures 0 <= a < b < |xs| && xs[a] == xs[b]
  {
    if forall i, j :: 0 <= i < j < |xs| ==> xs[i] != xs[j] {
      DistinctSet(xs);
      AtMost(n, set x | x in xs);
    }
    a, b :| 0 <= a < b < |xs| && xs[a] == xs[b];
  }

  /** The first `m` stops of a walk, of which there are more than vertices, repeat one. */
  lemma Repeat(g: Graph, s: int, p: seq<Edge>, m: int) returns (a: int, b: int)
    requires WellFormed(g) && Walk(g, s, p) && 0 <= s < |g| && |g| < m <= |p| + 1
    ensures 0 <= a < b < m && Stop(s, p, a) == Stop(s, p, b)
  {
    var xs := seq(m, i requires 0 <= i < m => Stop(s, p, i));
    forall i | 0 <= i < m ensures 0 <= xs[i] < |g| { StopInside(g, s, p, i); }
    a, b := Pigeonhole(xs, |g|);
  }

  // ---------- negative cycles ----------

  /** The walk comes back at stop `j` to where it was at stop `i`, lighter than before. */
  ghost predicate Gains(s: int, p: seq<Edge>, i: int, j: int) {
    0 <= i < j <= |p| && Stop(s, p, i) == Stop(s, p, j) && Weight(p[..j]) < Weight(p[..i])
  }

  ghost predicate NegativeCycle(g: Graph, s: int) {
    exists p, i, j :: Walk(g, s, p) && Gains(s, p, i, j)
  }

  ghost predicate VisibleNegativeCycle(g: Graph, s: int) {
    exists p, i, j :: Walk(g, s, p) && Visible(p) && Gains(s, p, i, j)
  }

  /** Without a negative cycle, no walk is lighter than all short ones; and the same among visible
      walks. */
  lemma {:induction false} Shorten(g: Graph, s: int, p: seq<Edge>, visible: bool) returns (q: seq<Edge>)
    requires WellFormed(g) && 0 <= s < |g| && Walk(g, s, p)
    requires if visible then Visible(p) && !VisibleNegativeCycle(g, s) else !NegativeCycle(g, s)
    ensures Walk(g, s, q) && End(s, q) == End(s, p) && Weight(q) <= Weight(p) && |q| < |g|
    ensures visible ==> Visible(q)
    decreases |p|
  {
    if |p| < |g| {
      q := p;
    } else {
      var a, b := Repeat(g, s, p, |p| + 1);
      assert !Gains(s, p, a, b);
      WeightSlice(p, a, b);
      CutWalk(g, s, p, a, b);
      if visible { CutVisible(p, a, b); }
      q := Shorten(g, s, Cut(p, a, b), visible);
    }
  }

  // ---------- weights that stay below infinity ----------

  /** No edge weighs more than `top`, and as many edges as vertices weigh less than infinity. */
  ghost predicate Bounded(g: Graph, top: int) {
    top >= 0 && |g| * top < INF && forall u, e :: 0 <= u < |g| && e in g[u] ==> e.1 <= top
  }

  lemma {:induction false} WeightBound(g: Graph, s: int, top: int, p: seq<Edge>)
    requires Walk(g, s, p) && Bounded(g, top)
    ensures Weight(p) <= |p| * top
  {
    if p != [] {
      var k := |p| - 1;
      WalkSlice(g, s, p, 0, k);
      assert p[0..k] == p[..k];
      WeightBound(g, s, top, p[..k]);
      assert Follows(g, s, p, k);
      assert |p| * top == k * top + top;
    }
  }

  /** Short walks are visible. */
  lemma ShortVisible(g: Graph, s: int, top: int, p: seq<Edge>)
    requires Walk(g, s, p) && Bounded(g, top) && |p| <= |g|
    ensures Visible(p)
  {
    forall i | 0 <= i <= |p| ensures Weight(p[..i]) < INF {
      WalkSlice(g, s, p, 0, i);
      assert p[0..i] == p[..i];
      WeightBound(g, s, top, p[..i]);
      Scale(i, |g|, top);
    }
  }

  lemma Scale(i: int, n: int, top: int)
    requires 0 <= i <= n && top >= 0
    ensures i * top <= n * top
  {}

  /** A walk that ends with a closed part, from stop `i` on, of negative weight. */
  ghost predicate Lasso(g: Graph, s: int, p: seq<Edge>, i: int) {
    Walk(g, s, p) && 0 <= i < |p| && Stop(s, p, i) == End(s, p) && Weight(p[i..]) < 0
  }

  /** A negative closed part of a lasso is the end of a shorter lasso. */
  lemma LassoInner(g: Graph, s: int, p: seq<Edge>, a: int, b: int)
    requires Walk(g, s, p) && 0 <= a < b <= |p| && Stop(s, p, a) == Stop(s, p, b) && Weight(p[a..b]) < 0
    ensures Lasso(g, s, p[..b], a)
  {
    WalkSlice(g, s, p, 0, b);
    assert p[0..b] == p[..b] && p[..b][a..] == p[a..b];
  }

  /** Leaving out a closed part of the way to the loop. */
  lemma LassoHandle(g: Graph, s: int, p: seq<Edge>, i: int, a: int, b: int)
    requires Lasso(g, s, p, i) && 0 <= a < b <= i && Stop(s, p, a) == Stop(s, p, b)
    ensures Lasso(g, s, Cut(p, a, b), i - (b - a))
  {
    CutWalk(g, s, p, a, b);
    assert Cut(p, a, b)[i - (b - a)..] == p[i..];
    assert i > b ==> Cut(p, a, b)[i - (b - a) - 1] == p[i - 1];
  }

  /** Leaving out a closed part, not negative, of the loop itself. */
  lemma LassoLoop(g: Graph, s: int, p: seq<Edge>, i: int, a: int, b: int)
    requires Lasso(g, s, p, i) && i <= a < b < |p| && Stop(s, p, a) == Stop(s, p, b) && Weight(p[a..b]) >= 0
    ensures Lasso(g, s, Cut(p, a, b), i)
  {
    CutWalk(g, s, p, a, b);
    CutTail(p, i, a, b);
    CutWeight(p[i..], a - i, b - i);
    assert i > 0 ==> Cut(p, a, b)[i - 1] == p[i - 1];
  }

  lemma CutTail(p: seq<Edge>, i: int, a: int, b: int)
    requires 0 <= i <= a <= b <= |p|
    ensures Cut(p, a, b)[i..] == Cut(p[i..], a - i, b - i) && p[i..][a - i..b - i] == p[a..b]
  {}

  /** A closed part that overlaps the start of the loop: go round the loop from there instead. */
  lemma LassoTurn(g: Graph, s: int, p: seq<Edge>, i: int, a: int, b: int)
    requires Lasso(g, s, p, i) && 0 <= a < i < b < |p| && Stop(s, p, a) == Stop(s, p, b)
    ensures Lasso(g, s, p[..a] + (p[b..] + p[i..b]), a)
  {
    var n := |p|;
    WalkSlice(g, s, p, 0, a);
    WalkSlice(g, s, p, b, n);
    WalkSlice(g, s, p, i, b);
    assert p[0..a] == p[..a] && p[b..n] == p[b..];
    WalkJoin(g, Stop(s, p, b), p[b..], p[i..b]);
    WalkJoin(g, s, p[..a], p[b..] + p[i..b]);
    var q := p[..a] + (p[b..] + p[i..b]);
    assert q[a..] == p[b..] + p[i..b];
    WeightJoin(p[b..], p[i..b]);
    WeightJoin(p[i..b], p[b..]);
    assert p[i..b] + p[b..] == p[i..];
    assert a > 0 ==> q[a - 1] == p[a - 1];
  }

  /** A negative cycle has a lasso of at most as many edges as there are vertices. */
  lemma {:induction false} ShortLasso(g: Graph, s: int, p: seq<Edge>, i: int) returns (q: seq<Edge>, j: int)
    requires WellFormed(g) && 0 <= s < |g| && Lasso(g, s, p, i)
    ensures Lasso(g, s, q, j) && |q| <= |g|
    decreases |p|
  {
    if |p| <= |g| {
      q, j := p, i;
    } else {
      var a, b := Repeat(g, s, p, |p|);
      if Weight(p[a..b]) < 0 {
        LassoInner(g, s, p, a, b);
        q, j := ShortLasso(g, s, p[..b], a);
      } else if b <= i {
        LassoHandle(g, s, p, i, a, b);
        q, j := ShortLasso(g, s, Cut(p, a, b), i - (b - a));
      } else if i <= a {
        LassoLoop(g, s, p, i, a, b);
        q, j := ShortLasso(g, s, Cut(p, a, b), i);
      } else {
        LassoTurn(g, s, p, i, a, b);
        q, j := ShortLasso(g, s, p[..a] + (p[b..] + p[i..b]), a);
      }
    }
  }

  /** With bounded weights every negative cycle can be seen. */
  lemma SameCycles(g: Graph, s: int, top: int)
    requires WellFormed(g) && 0 <= s < |g| && Bounded(g, top)
    ensures NegativeCycle(g, s) <==> VisibleNegativeCycle(g, s)
  {
    if NegativeCycle(g, s) {
      var p, i, j :| Walk(g, s, p) && Gains(s, p, i, j);
      WeightSlice(p, i, j);
      LassoInner(g, s, p, i, j);
      var q, k := ShortLasso(g, s, p[..j], i);
      ShortVisible(g, s, top, q);
      WeightSlice(q, k, |q|);
      assert q[k..|q|] == q[k..];
      assert Gains(s, q, k, |q|);
    }
  }

  // ---------- lightest walks ----------

  ghost predicate RowAbove(row: seq<(int, int)>, low: int) { forall e :: e in row ==> e.1 >= -low }

  lemma {:induction false} RowFloor(row: seq<(int, int)>) returns (low: nat)
    ensures RowAbove(row, low)
  {
    low := 0;
    if row != [] {
      var e := row[|row| - 1];
      low := RowFloor(row[..|row| - 1]);
      low := if -e.1 > low then -e.1 else low;
      assert row == row[..|row| - 1] + [e];
    }
  }

  lemma {:induction false} EdgeFloor(g: Graph) returns (low: nat)
    ensures forall u :: 0 <= u < |g| ==> RowAbove(g[u], low)
  {
    low := 0;
    if g != [] {
      var h := g[..|g| - 1];
      var a := EdgeFloor(h);
      var b := RowFloor(g[|g| - 1]);
      low := if a > b then a else b;
      forall u | 0 <= u < |g| ensures RowAbove(g[u], low) {
        if u < |h| { assert RowAbove(h[u], a); }
      }
    }
  }

  lemma {:induction false} WeightFloor(g: Graph, s: int, low: nat, p: seq<Edge>)
    requires Walk(g, s, p) && forall u :: 0 <= u < |g| ==> RowAbove(g[u], low)
    ensures Weight(p) >= -(|p| * low)
  {
    if p != [] {
      var k := |p| - 1;
      WalkSlice(g, s, p, 0, k);
      assert p[0..k] == p[..k];
      WeightFloor(g, s, low, p[..k]);
      assert Follows(g, s, p, k) && RowAbove(g[p[k].u], low);
      assert |p| * low == k * low + low;
    }
  }

  /** No walk to the same end is lighter. */
  ghost predicate Lightest(g: Graph, s: int, p: seq<Edge>) {
    Walk(g, s, p) && forall q :: Walk(g, s, q) && End(s, q) == End(s, p) ==> Weight(p) <= Weight(q)
  }

  /** Without negative cycles weights are bounded below, so a lightest walk exists. */
  lemma {:induction false} FindLightest(g: Graph, s: int, low: nat, p: seq<Edge>) returns (q: seq<Edge>)
    requires WellFormed(g) && 0 <= s < |g| && Walk(g, s, p) && !NegativeCycle(g, s)
    requires forall u :: 0 <= u < |g| ==> RowAbove(g[u], low)
    ensures Lightest(g, s, q) && End(s, q) == End(s, p) && Weight(q) <= Weight(p)
    decreases Weight(p) + |g| * low
  {
    var r := Shorten(g, s, p, false);
    WeightFloor(g, s, low, r);
    Scale(|r|, |g|, low);
    if Lightest(g, s, p) {
      q := p;
    } else {
      var t :| Walk(g, s, t) && End(s, t) == End(s, p) && Weight(t) < Weight(p);
      q := FindLightest(g, s, low, t);
    }
  }

  /** Every vertex that a walk reaches is the end of a walk below infinity. */
  ghost predicate Near(g: Graph, s: int) {
    forall p :: Walk(g, s, p) ==> NearEnd(g, s, End(s, p))
  }

  ghost predicate NearEnd(g: Graph, s: int, v: int) {
    exists q :: Walk(g, s, q) && End(s, q) == v && Weight(q) < INF
  }

  /** The parts of a lightest walk from its start are lightest walks, so they stay below infinity. */
  lemma LightestVisible(g: Graph, s: int, p: seq<Edge>)
    requires Near(g, s) && Lightest(g, s, p)
    ensures Visible(p)
  {
    forall i | 0 <= i <= |p| ensures Weight(p[..i]) < INF {
      var n := |p|;
      assert p[i..n] == p[i..] && p[0..i] == p[..i];
      WalkSlice(g, s, p, 0, i);
      WalkSlice(g, s, p, i, n);
      assert NearEnd(g, s, End(s, p[..i]));
      var r :| Walk(g, s, r) && End(s, r) == Stop(s, p, i) && Weight(r) < INF;
      WalkJoin(g, s, r, p[i..]);
      WeightJoin(r, p[i..]);
      WeightSlice(p, i, n);
      assert p[..n] == p;
    }
  }

  // ---------- negative cycles in sight ----------

  /** A visible walk ends in `v`. */
  ghost predicate Seen(g: Graph, s: int, v: int) {
    exists p :: Walk(g, s, p) && Visible(p) && End(s, p) == v
  }

  /** A closed walk of negative weight from `u`. */
  ghost predicate NegativeLoop(g: Graph, u: int, c: seq<Edge>) {
    Walk(g, u, c) && End(u, c) == u && Weight(c) < 0
  }

  /** A negative cycle through vertices each of which is seen, however heavy the way round is. */
  ghost predicate CycleInSight(g: Graph, s: int) {
    exists u, c :: NegativeLoop(g, u, c) && forall i :: 0 <= i <= |c| ==> Seen(g, s, Stop(u, c, i))
  }

  lemma VisiblePrefix(g: Graph, s: int, p: seq<Edge>, j: int)
    requires Walk(g, s, p) && Visible(p) && 0 <= j <= |p|
    ensures Walk(g, s, p[..j]) && Visible(p[..j]) && End(s, p[..j]) == Stop(s, p, j) && Weight(p[..j]) < INF
  {
    WalkSlice(g, s, p, 0, j);
    assert p[0..j] == p[..j];
    forall i | 0 <= i <= j ensures Weight(p[..j][..i]) < INF { assert p[..j][..i] == p[..i]; }
  }

  lemma VisibleInSight(g: Graph, s: int, p: seq<Edge>, i: int, j: int)
    requires Walk(g, s, p) && Visible(p) && Gains(s, p, i, j)
    ensures CycleInSight(g, s)
  {
    var u, c := Stop(s, p, i), p[i..j];
    WalkSlice(g, s, p, i, j);
    WeightSlice(p, i, j);
    assert NegativeLoop(g, u, c);
    forall k | 0 <= k <= |c| ensures Seen(g, s, Stop(u, c, k)) {
      VisiblePrefix(g, s, p, i + k);
      assert Stop(u, c, k) == Stop(s, p, i + k);
    }
  }

  /** The stop of a walk where it is heaviest. */
  lemma {:induction false} Summit(c: seq<Edge>, n: nat) returns (m: nat)
    requires n <= |c|
    ensures m <= n && forall i :: 0 <= i <= n ==> Weight(c[..i]) <= Weight(c[..m])
    decreases n
  {
    m := n;
    if n > 0 {
      var k := Summit(c, n - 1);
      if Weight(c[..k]) > Weight(c[..n]) { m := k; }
    }
  }

  /** Seen from its heaviest stop, a negative loop only goes down. */
  lemma Downhill(g: Graph, u: int, c: seq<Edge>, m: nat, i: nat)
    requires NegativeLoop(g, u, c) && m <= |c| && i <= |c|
    requires forall k :: 0 <= k <= |c| ==> Weight(c[..k]) <= Weight(c[..m])
    ensures Weight((c[m..] + c[..m])[..i]) <= 0
  {
    var a := |c| - m;
    assert c[..|c|] == c;
    if i <= a {
      assert (c[m..] + c[..m])[..i] == c[m..m + i];
      WeightSlice(c, m, m + i);
    } else {
      assert (c[m..] + c[..m])[..i] == c[m..|c|] + c[..i - a];
      WeightJoin(c[m..|c|], c[..i - a]);
      WeightSlice(c, m, |c|);
    }
  }

  lemma Rotated(g: Graph, u: int, c: seq<Edge>, m: nat)
    requires NegativeLoop(g, u, c) && m <= |c|
    ensures NegativeLoop(g, Stop(u, c, m), c[m..] + c[..m])
  {
    WalkSlice(g, u, c, 0, m);
    WalkSlice(g, u, c, m, |c|);
    assert c[0..m] == c[..m] && c[m..|c|] == c[m..] && c[..m] + c[m..] == c;
    WalkJoin(g, Stop(u, c, m), c[m..], c[..m]);
    WeightJoin(c[m..], c[..m]);
    WeightJoin(c[..m], c[m..]);
  }

  /** A visible walk stays visible when it only goes down from its end. */
  lemma DownhillVisible(q: seq<Edge>, r: seq<Edge>)
    requires Visible(q) && forall i :: 0 <= i <= |r| ==> Weight(r[..i]) <= 0
    ensures Visible(q + r)
  {
    forall i | 0 <= i <= |q + r| ensures Weight((q + r)[..i]) < INF {
      if i <= |q| {
        assert (q + r)[..i] == q[..i];
      } else {
        assert (q + r)[..i] == q + r[..i - |q|] && q[..|q|] == q;
        WeightJoin(q, r[..i - |q|]);
      }
    }
  }

  lemma InSightVisible(g: Graph, s: int, u: int, c: seq<Edge>)
    requires NegativeLoop(g, u, c) && forall i :: 0 <= i <= |c| ==> Seen(g, s, Stop(u, c, i))
    ensures VisibleNegativeCycle(g, s)
  {
    var m := Summit(c, |c|);
    var v, r := Stop(u, c, m), c[m..] + c[..m];
    Rotated(g, u, c, m);
    forall i | 0 <= i <= |r| ensures Weight(r[..i]) <= 0 { Downhill(g, u, c, m, i); }
    assert Seen(g, s, v);
    var q :| Walk(g, s, q) && Visible(q) && End(s, q) == v;
    DownhillVisible(q, r);
    WalkJoin(g, s, q, r);
    WeightJoin(q, r);
    var p := q + r;
    assert p[..|q|] == q && p[..|p|] == p;
    assert Gains(s, p, |q|, |p|);
  }

  /** A walk that shows a negative cycle exists exactly when all vertices of some negative cycle are
      seen. */
  lemma SeenCycles(g: Graph, s: int)
    ensures VisibleNegativeCycle(g, s) <==> CycleInSight(g, s)
  {
    if VisibleNegativeCycle(g, s) {
      var p, i, j :| Walk(g, s, p) && Visible(p) && Gains(s, p, i, j);
      VisibleInSight(g, s, p, i, j);
    }
    if CycleInSight(g, s) {
      var u, c :| NegativeLoop(g, u, c) && forall i :: 0 <= i <= |c| ==> Seen(g, s, Stop(u, c, i));
      InSightVisible(g, s, u, c);
    }
  }
}
