/** cpp/algorithm/lib/graph/bellman_ford.h: single-source shortest paths with negative weights. */
module BellmanFord {
  import opened Walks

  // ---------- what the distance array knows ----------

  /** `d` is what one round of relaxations, in any order, guarantees from `d0`. */
  ghost predicate Relaxed(g: Graph, d0: seq<int>, d: seq<int>) {
    |d0| == |d| == |g| && forall u: int, e :: 0 <= u < |g| && e in g[u] && 0 <= e.0 < |d| ==> Covered(d0, d, u, e)
  }

  ghost predicate Covered(d0: seq<int>, d: seq<int>, u: int, e: (int, int))
    requires 0 <= u < |d0| && 0 <= e.0 < |d|
  {
    d0[u] < INF ==> d[e.0] <= d0[u] + e.1
  }

  ghost predicate Below(d: seq<int>, d0: seq<int>) {
    |d| == |d0| && forall v :: 0 <= v < |d| ==> d[v] <= d0[v]
  }

  /** A finite distance is the weight of a visible walk. */
  ghost predicate Attained(g: Graph, s: int, d: seq<int>) {
    |d| == |g| && forall v :: 0 <= v < |d| ==> d[v] <= INF && (d[v] < INF ==> Reached(g, s, v, d[v]))
  }

  ghost predicate Reached(g: Graph, s: int, v: int, x: int) {
    exists p :: Walk(g, s, p) && Visible(p) && End(s, p) == v && Weight(p) == x
  }

  /** Distances are no larger than visible walks of at most `k` edges. */
  ghost predicate Tight(g: Graph, s: int, d: seq<int>, k: int) {
    |d| == |g| && forall p :: Walk(g, s, p) && Visible(p) && |p| <= k && 0 <= End(s, p) < |d| ==>
        d[End(s, p)] <= Weight(p)
  }

  /** One more edge on a visible walk. */
  lemma Extend(g: Graph, s: int, p: seq<Edge>, e: Edge)
    requires Walk(g, s, p) && Visible(p) && IsEdge(g, e) && e.u == End(s, p) && Weight(p) + e.w < INF
    ensures Walk(g, s, p + [e]) && Visible(p + [e]) && End(s, p + [e]) == e.v && Weight(p + [e]) == Weight(p) + e.w
  {
    var q := p + [e];
    assert Walk(g, End(s, p), [e]) by { assert Follows(g, End(s, p), [e], 0); }
    WalkJoin(g, s, p, [e]);
    assert q[..|p|] == p;
    forall i | 0 <= i <= |q| ensures Weight(q[..i]) < INF {
      if i <= |p| { assert q[..i] == p[..i]; } else { assert q[..i] == q; }
    }
  }

  /** Relaxing one edge keeps distances attained. */
  lemma RelaxAttained(g: Graph, s: int, d: seq<int>, u: int, v: int, w: int)
    requires Attained(g, s, d) && 0 <= u < |d| && 0 <= v < |d| && (v, w) in g[u] && d[u] < INF && d[u] + w < d[v]
    ensures Attained(g, s, d[v := d[u] + w])
  {
    var p :| Walk(g, s, p) && Visible(p) && End(s, p) == u && Weight(p) == d[u];
    var e := Edge(u, v, w);
    Extend(g, s, p, e);
    assert Reached(g, s, v, d[u] + w);
  }

  lemma Prefix(g: Graph, s: int, p: seq<Edge>)
    requires WellFormed(g) && 0 <= s < |g| && Walk(g, s, p) && Visible(p) && p != []
    ensures var q, e := p[..|p| - 1], p[|p| - 1];
            && Walk(g, s, q) && Visible(q) && End(s, q) == e.u && IsEdge(g, e) && 0 <= e.v < |g|
            && Weight(p) == Weight(q) + e.w && Weight(q) < INF && End(s, p) == e.v
  {
    var k := |p| - 1;
    WalkSlice(g, s, p, 0, k);
    assert Follows(g, s, p, k);
    var q := p[..k];
    assert p[0..k] == q;
    forall i | 0 <= i <= |q| ensures Weight(q[..i]) < INF { assert q[..i] == p[..i]; }
    assert Weight(p[..k]) < INF;
  }

  /** A round adds one edge to the walks accounted for. */
  lemma RoundTight(g: Graph, s: int, d0: seq<int>, d: seq<int>, k: int)
    requires WellFormed(g) && 0 <= s < |g| && Tight(g, s, d0, k) && Relaxed(g, d0, d) && Below(d, d0) && k >= 0
    ensures Tight(g, s, d, k + 1)
  {
    forall p | Walk(g, s, p) && Visible(p) && |p| <= k + 1 && 0 <= End(s, p) < |d| ensures d[End(s, p)] <= Weight(p) {
      if p == [] {
        assert d0[End(s, p)] <= Weight(p);
      } else {
        Prefix(g, s, p);
        var q := p[..|p| - 1];
        var e: Edge := p[|p| - 1];
        assert d0[End(s, q)] <= Weight(q);
        assert Covered(d0, d, e.u, (e.v, e.w));
      }
    }
  }

  /** A round without change accounts for all visible walks. */
  lemma {:induction false} FixedTight(g: Graph, s: int, d: seq<int>, p: seq<Edge>)
    requires WellFormed(g) && 0 <= s < |g| && Tight(g, s, d, 0) && Relaxed(g, d, d) && Walk(g, s, p) && Visible(p)
    ensures 0 <= End(s, p) < |d| && d[End(s, p)] <= Weight(p)
    decreases |p|
  {
    if p != [] {
      Prefix(g, s, p);
      var q, e := p[..|p| - 1], p[|p| - 1];
      FixedTight(g, s, d, q);
      assert Covered(d, d, e.u, (e.v, e.w));
    } else {
      assert End(s, p) == s;
    }
  }

  /** Nothing is gained along a visible walk once nothing changes any more. */
  lemma {:induction false} FixedSlope(g: Graph, s: int, d: seq<int>, p: seq<Edge>, i: int, j: int)
    requires WellFormed(g) && 0 <= s < |g| && Tight(g, s, d, 0) && Relaxed(g, d, d) && Walk(g, s, p) && Visible(p)
    requires 0 <= i <= j <= |p|
    ensures 0 <= Stop(s, p, i) < |d| && 0 <= Stop(s, p, j) < |d|
    ensures d[Stop(s, p, j)] - d[Stop(s, p, i)] <= Weight(p[..j]) - Weight(p[..i])
    decreases j
  {
    StopInside(g, s, p, i);
    StopInside(g, s, p, j);
    if i < j {
      FixedSlope(g, s, d, p, i, j - 1);
      VisiblePrefix(g, s, p, j - 1);
      FixedTight(g, s, d, p[..j - 1]);
      assert Follows(g, s, p, j - 1);
      var e := p[j - 1];
      assert Covered(d, d, e.u, (e.v, e.w));
      assert p[..j][..j - 1] == p[..j - 1];
    }
  }

  // ---------- what the two outcomes mean ----------

  /** `x` is the least weight of a visible walk to `v`, or infinity if there is none. */
  ghost predicate Exact(g: Graph, s: int, v: int, x: int) {
    && x <= INF && (x < INF ==> Reached(g, s, v, x))
    && forall p :: Walk(g, s, p) && Visible(p) && End(s, p) == v ==> x <= Weight(p)
  }

  ghost predicate AllExact(g: Graph, s: int, d: seq<int>) {
    |d| == |g| && forall v :: 0 <= v < |d| ==> Exact(g, s, v, d[v])
  }

  lemma QuietRound(g: Graph, s: int, d: seq<int>)
    requires WellFormed(g) && 0 <= s < |g| && Attained(g, s, d) && Tight(g, s, d, 0) && Relaxed(g, d, d)
    ensures AllExact(g, s, d) && !VisibleNegativeCycle(g, s)
  {
    forall v | 0 <= v < |d| ensures Exact(g, s, v, d[v]) {
      forall p | Walk(g, s, p) && Visible(p) && End(s, p) == v ensures d[v] <= Weight(p) { FixedTight(g, s, d, p); }
    }
    forall p, i, j | Walk(g, s, p) && Visible(p) ensures !Gains(s, p, i, j) {
      if 0 <= i < j <= |p| { FixedSlope(g, s, d, p, i, j); }
    }
  }

  /** Still changing after all rounds: only a negative cycle explains it. */
  lemma RestlessRound(g: Graph, s: int, d0: seq<int>, d: seq<int>, v: int)
    requires WellFormed(g) && 0 <= s < |g| && Tight(g, s, d0, |g| - 1) && Attained(g, s, d) && |d0| == |d|
    requires 0 <= v < |d| && d[v] < d0[v] <= INF
    ensures VisibleNegativeCycle(g, s)
  {
    if !VisibleNegativeCycle(g, s) {
      var p :| Walk(g, s, p) && Visible(p) && End(s, p) == v && Weight(p) == d[v];
      NoLighter(g, s, d0, p);
    }
  }

  lemma NoLighter(g: Graph, s: int, d: seq<int>, p: seq<Edge>)
    requires WellFormed(g) && 0 <= s < |g| && Tight(g, s, d, |g| - 1) && !VisibleNegativeCycle(g, s)
    requires Walk(g, s, p) && Visible(p) && 0 <= End(s, p) < |d|
    ensures d[End(s, p)] <= Weight(p)
  {
    var q := Shorten(g, s, p, true);
    assert d[End(s, q)] <= Weight(q);
  }

  /** Whatever the verdict: finite answers are weights of visible walks, and no answer exceeds a visible
      walk of at most as many edges as there are vertices. */
  ghost predicate Knows(g: Graph, s: int, d: seq<int>) { Attained(g, s, d) && Tight(g, s, d, |g|) }

  lemma ExactTight(g: Graph, s: int, d: seq<int>, k: int)
    requires AllExact(g, s, d)
    ensures Tight(g, s, d, k)
  {
    forall p | Walk(g, s, p) && Visible(p) && |p| <= k && 0 <= End(s, p) < |d| ensures d[End(s, p)] <= Weight(p) {
      assert Exact(g, s, End(s, p), d[End(s, p)]);
    }
  }

  /** No visible walk to `v` gains weight by coming back to where it was. */
  ghost predicate Untouched(g: Graph, s: int, v: int) {
    forall p, i, j :: Walk(g, s, p) && Visible(p) && End(s, p) == v ==> !Gains(s, p, i, j)
  }

  /** So even with a negative cycle in sight, the answer is exact at every vertex that no visible walk
      reaches through such a cycle. */
  lemma ExactAway(g: Graph, s: int, d: seq<int>, v: int)
    requires WellFormed(g) && 0 <= s < |g| && Knows(g, s, d) && 0 <= v < |d| && Untouched(g, s, v)
    ensures Exact(g, s, v, d[v])
  {
    forall p | Walk(g, s, p) && Visible(p) && End(s, p) == v ensures d[v] <= Weight(p) {
      var q := ShortenTo(g, s, p, v);
      assert d[End(s, q)] <= Weight(q);
    }
  }

  lemma {:induction false} ShortenTo(g: Graph, s: int, p: seq<Edge>, v: int) returns (q: seq<Edge>)
    requires WellFormed(g) && 0 <= s < |g| && Walk(g, s, p) && Visible(p) && End(s, p) == v && Untouched(g, s, v)
    ensures Walk(g, s, q) && Visible(q) && End(s, q) == v && Weight(q) <= Weight(p) && |q| < |g|
    decreases |p|
  {
    if |p| < |g| {
      q := p;
    } else {
      var a, b := Repeat(g, s, p, |p| + 1);
      assert !Gains(s, p, a, b);
      WeightSlice(p, a, b);
      CutWalk(g, s, p, a, b);
      CutVisible(p, a, b);
      q := ShortenTo(g, s, Cut(p, a, b), v);
    }
  }

  lemma TightMono(g: Graph, s: int, d0: seq<int>, d: seq<int>, k: int, m: int)
    requires Tight(g, s, d0, k) && Below(d, d0) && m <= k
    ensures Tight(g, s, d, m)
  {}

  // ---------- starting from what is there ----------

  /** The graph with one more vertex, from which an edge leads to every vertex at the price already
      recorded for it. */
  ghost function Seeded(g: Graph, seeds: seq<int>): (h: Graph)
    ensures |h| == |g| + 1 && h[|g|] == seq(|seeds|, v requires 0 <= v < |seeds| => (v, seeds[v]))
    ensures forall u :: 0 <= u < |g| ==> h[u] == g[u]
  {
    g + [seq(|seeds|, v requires 0 <= v < |seeds| => (v, seeds[v]))]
  }

  lemma SeededFormed(g: Graph, seeds: seq<int>)
    requires WellFormed(g) && |seeds| == |g|
    ensures WellFormed(Seeded(g, seeds))
  {}

  /** What is recorded at the start. */
  lemma StartKnown(g: Graph, seeds: seq<int>)
    requires WellFormed(g) && |seeds| == |g| && forall v :: 0 <= v < |seeds| ==> seeds[v] <= INF
    ensures Attained(Seeded(g, seeds), |g|, seeds + [0]) && Tight(Seeded(g, seeds), |g|, seeds + [0], 1)
  {
    var h, s, d := Seeded(g, seeds), |g|, seeds + [0];
    assert Walk(h, s, []) && Visible([]) && End(s, []) == s && Weight([]) == 0;
    assert Reached(h, s, s, 0);
    forall v | 0 <= v < |g| && d[v] < INF ensures Reached(h, s, v, d[v]) {
      assert h[s][v] == (v, seeds[v]);
      Extend(h, s, [], Edge(s, v, seeds[v]));
    }
    forall q | Walk(h, s, q) && Visible(q) && |q| <= 1 && 0 <= End(s, q) < |d| ensures d[End(s, q)] <= Weight(q) {
      if q != [] {
        assert Follows(h, s, q, 0);
        assert q[..0] == [];
      }
    }
  }

  /** A round on the graph is a round on the seeded graph while nothing exceeds the seeds. */
  lemma RelaxedSeeded(g: Graph, seeds: seq<int>, d0: seq<int>, d: seq<int>)
    requires WellFormed(g) && Relaxed(g, d0, d) && |seeds| == |g| && Below(d, d0) && Below(d0, seeds)
    ensures Relaxed(Seeded(g, seeds), d0 + [0], d + [0]) && Below(d + [0], d0 + [0])
  {
    var h := Seeded(g, seeds);
    forall u: int, e: (int, int) | 0 <= u < |h| && e in h[u] && 0 <= e.0 < |d + [0]|
      ensures Covered(d0 + [0], d + [0], u, e)
    {
      if u < |g| { assert Covered(d0, d, u, e); }
    }
  }

  class BellmanFord {
    const graph: Graph
    var answer: seq<int>

    /** Each vertex has an entry, and none exceeds infinity. */
    ghost predicate Valid()
      reads this
    {
      |answer| == |graph| && forall v :: 0 <= v < |answer| ==> answer[v] <= INF
    }

    constructor (g: Graph)
      ensures graph == g && answer == seq(|g|, _ => INF) && Valid()
    {
      graph := g;
      answer := seq(|g|, _ => INF);
    }

    /** The edges leaving `u`. */
    method RelaxEdges(u: int, flag0: bool, ghost seeds: seq<int>, ghost d0: seq<int>) returns (flag: bool)
      requires WellFormed(graph) && |seeds| == |graph| && 0 <= u < |graph| && |answer| == |graph|
      requires Attained(Seeded(graph, seeds), |graph|, answer + [0]) && Below(answer, d0) && answer[u] < INF
      modifies this`answer
      ensures Attained(Seeded(graph, seeds), |graph|, answer + [0]) && Below(answer, old(answer))
      ensures forall e :: e in graph[u] && 0 <= e.0 < |answer| ==> Covered(d0, answer, u, e)
      ensures flag0 ==> flag
      ensures !flag ==> answer == old(answer)
      ensures flag && !flag0 ==> exists v :: 0 <= v < |answer| && answer[v] < old(answer)[v]
    {
      flag := flag0;
      for k := 0 to |graph[u]|
        invariant |answer| == |graph| && Attained(Seeded(graph, seeds), |graph|, answer + [0])
        invariant Below(answer, old(answer)) && answer[u] < INF
        invariant forall e :: e in graph[u][..k] && 0 <= e.0 < |answer| ==> Covered(d0, answer, u, e)
        invariant flag0 ==> flag
        invariant !flag ==> answer == old(answer)
        invariant flag && !flag0 ==> exists v :: 0 <= v < |answer| && answer[v] < old(answer)[v]
      {
        var v, w := graph[u][k].0, graph[u][k].1;
        assert graph[u][k] in graph[u] && graph[u][k] == (v, w);
        if answer[v] > answer[u] + w {
          RelaxAttained(Seeded(graph, seeds), |graph|, answer + [0], u, v, w);
          assert (answer + [0])[v := answer[u] + w] == answer[v := answer[u] + w] + [0];
          answer := answer[v := answer[u] + w];
          flag := true;
          assert answer[v] < old(answer)[v];
        }
        assert graph[u][..k + 1] == graph[u][..k] + [graph[u][k]];
      }
      assert graph[u][..|graph[u]|] == graph[u];
    }

    /** One pass over all vertices. */
    method Round(ghost seeds: seq<int>) returns (flag: bool)
      requires WellFormed(graph) && |seeds| == |graph| == |answer|
      requires Attained(Seeded(graph, seeds), |graph|, answer + [0])
      modifies this`answer
      ensures |answer| == |graph| && Attained(Seeded(graph, seeds), |graph|, answer + [0])
      ensures Below(answer, old(answer)) && Relaxed(graph, old(answer), answer)
      ensures !flag ==> answer == old(answer)
      ensures flag ==> exists v :: 0 <= v < |answer| && answer[v] < old(answer)[v]
    {
      flag := false;
      ghost var d0 := answer;
      for u := 0 to |answer|
        invariant |answer| == |graph| && Attained(Seeded(graph, seeds), |graph|, answer + [0]) && Below(answer, d0)
        invariant forall x, e :: 0 <= x < u && e in graph[x] && 0 <= e.0 < |answer| ==> Covered(d0, answer, x, e)
        invariant !flag ==> answer == d0
        invariant flag ==> exists v :: 0 <= v < |answer| && answer[v] < d0[v]
      {
        if answer[u] == INF {
          continue;
        }
        assert (answer + [0])[u] == answer[u];
        flag := RelaxEdges(u, flag, seeds, d0);
      }
    }

    /** Whatever the answers were before: true exactly when a negative cycle is in sight of the seeds,
        which are the old answers and zero at the start; otherwise each answer is the least of an old
        answer and what the walk from there weighs.  On a fresh object that is the distance from the
        start. */
    method Run(start: int) returns (flag: bool)
      requires WellFormed(graph) && 0 <= start < |graph| && Valid()
      modifies this`answer
      ensures Valid()
      ensures Outcome(Seeded(graph, old(answer)[start := 0]), |graph|, flag, answer + [0])
      ensures Knows(Seeded(graph, old(answer)[start := 0]), |graph|, answer + [0])
      ensures Dominated(graph, start, old(answer)[start := 0]) ==> Outcome(graph, start, flag, answer)
      ensures old(answer) == seq(|graph|, _ => INF) ==>
          Outcome(graph, start, flag, answer) && Knows(graph, start, answer)
    {
      answer := answer[start := 0];
      ghost var seeds := answer;
      flag := Rounds(seeds);
      if Dominated(graph, start, seeds) { DominatedOutcome(graph, start, seeds, flag, answer); }
      if old(answer) == seq(|graph|, _ => INF) {
        FreshDominated(graph, start, seeds);
        DominatedOutcome(graph, start, seeds, flag, answer);
        FreshKnows(graph, start, seeds, answer);
      }
    }

    /** The rounds, from any seeds. */
    method Rounds(ghost seeds: seq<int>) returns (flag: bool)
      requires WellFormed(graph) && |graph| > 0 && Valid() && seeds == answer
      modifies this`answer
      ensures Valid() && Outcome(Seeded(graph, seeds), |graph|, flag, answer + [0])
      ensures Knows(Seeded(graph, seeds), |graph|, answer + [0])
    {
      StartKnown(graph, seeds);
      SeededFormed(graph, seeds);
      flag := false;
      ghost var h, s, d0 := Seeded(graph, seeds), |graph|, answer;
      for i := 0 to |answer|
        invariant |answer| == |graph| && Below(answer, seeds)
        invariant Attained(h, s, answer + [0]) && Tight(h, s, answer + [0], i + 1)
        invariant i > 0 ==> flag && VisibleNegativeCycleIfLast(h, s, i + 1)
      {
        d0 := answer;
        flag := Round(seeds);
        RelaxedSeeded(graph, seeds, d0, answer);
        if !flag {
          TightMono(h, s, answer + [0], answer + [0], i + 1, 0);
          QuietRound(h, s, answer + [0]);
          ExactTight(h, s, answer + [0], |answer| + 1);
          break;
        }
        RoundTight(h, s, d0 + [0], answer + [0], i + 1);
        if i == |answer| - 1 {
          ghost var v :| 0 <= v < |answer| && answer[v] < d0[v];
          RestlessRound(h, s, d0 + [0], answer + [0], v);
        }
      }
      AnswersBelow(h, s, answer);
    }
  }

  lemma AnswersBelow(h: Graph, s: int, d: seq<int>)
    requires Attained(h, s, d + [0])
    ensures forall v :: 0 <= v < |d| ==> d[v] <= INF
  {
    forall v | 0 <= v < |d| ensures d[v] <= INF { assert (d + [0])[v] == d[v]; }
  }

  /** After the last round the question is settled. */
  ghost predicate VisibleNegativeCycleIfLast(g: Graph, s: int, i: int) { i == |g| ==> VisibleNegativeCycle(g, s) }

  // ---------- all walks, not only the visible ones ----------

  /** `x` is the distance of `v` among all walks, and infinity exactly when no walk gets there. */
  ghost predicate Distance(g: Graph, s: int, v: int, x: int) {
    && (x < INF ==> exists p :: Walk(g, s, p) && End(s, p) == v && Weight(p) == x)
    && (x >= INF ==> x == INF && forall p :: Walk(g, s, p) ==> End(s, p) != v)
    && forall p :: Walk(g, s, p) && End(s, p) == v ==> x <= Weight(p)
  }

  ghost predicate AllDistances(g: Graph, s: int, d: seq<int>) {
    |d| == |g| && forall v :: 0 <= v < |d| ==> Distance(g, s, v, d[v])
  }

  /** What a run that knows only the start leaves behind. */
  ghost predicate Outcome(g: Graph, s: int, flag: bool, d: seq<int>) {
    (flag <==> VisibleNegativeCycle(g, s)) && (!flag ==> AllExact(g, s, d))
  }

  // ---------- walks of the seeded graph ----------

  /** A walk from the additional vertex takes one seed and goes on in the graph itself. */
  lemma SeedWalk(g: Graph, seeds: seq<int>, q: seq<Edge>)
    requires WellFormed(g) && |seeds| == |g| && Walk(Seeded(g, seeds), |g|, q) && q != []
    ensures q[0].u == |g| && 0 <= q[0].v < |g| && q[0].w == seeds[q[0].v]
    ensures Walk(g, q[0].v, q[1..]) && End(q[0].v, q[1..]) == End(|g|, q)
    ensures forall i :: 1 <= i <= |q| ==> Stop(|g|, q, i) == Stop(q[0].v, q[1..], i - 1) && 0 <= Stop(|g|, q, i) < |g|
    ensures forall i :: 1 <= i <= |q| ==> Weight(q[..i]) == seeds[q[0].v] + Weight(q[1..][..i - 1])
  {
    var h, s, u := Seeded(g, seeds), |g|, q[0].v;
    assert Follows(h, s, q, 0);
    SeedStops(g, seeds, q, |q|);
    var t := q[1..];
    forall i | 0 <= i < |t| ensures Follows(g, u, t, i) {
      SeedStops(g, seeds, q, i + 1);
      assert Follows(h, s, q, i + 1);
    }
    forall i | 1 <= i <= |q| ensures Stop(s, q, i) == Stop(u, t, i - 1) && 0 <= Stop(s, q, i) < |g| {
      SeedStops(g, seeds, q, i);
    }
    forall i | 1 <= i <= |q| ensures Weight(q[..i]) == seeds[u] + Weight(t[..i - 1]) {
      assert q[..i] == [q[0]] + t[..i - 1];
      WeightJoin([q[0]], t[..i - 1]);
      assert [q[0]][..0] == [];
    }
  }

  /** After the first edge a walk stays in the graph. */
  lemma {:induction false} SeedStops(g: Graph, seeds: seq<int>, q: seq<Edge>, i: nat)
    requires WellFormed(g) && |seeds| == |g| && Walk(Seeded(g, seeds), |g|, q) && 1 <= i <= |q|
    ensures 0 <= Stop(|g|, q, i) < |g|
  {
    var h := Seeded(g, seeds);
    assert Follows(h, |g|, q, i - 1);
    if i == 1 {
      var e := q[0];
      assert (e.v, e.w) in h[|g|];
    } else {
      SeedStops(g, seeds, q, i - 1);
    }
  }

  /** And every walk of the graph goes on from a seed. */
  lemma WalkSeed(g: Graph, seeds: seq<int>, u: int, t: seq<Edge>)
    requires WellFormed(g) && |seeds| == |g| && 0 <= u < |g| && Walk(g, u, t)
    ensures var q := [Edge(|g|, u, seeds[u])] + t; Walk(Seeded(g, seeds), |g|, q) && End(|g|, q) == End(u, t)
  {
    var h, s := Seeded(g, seeds), |g|;
    var e := Edge(s, u, seeds[u]);
    assert h[s][u] == (u, seeds[u]);
    assert Follows(h, s, [e], 0);
    forall i | 0 <= i < |t| ensures Follows(h, u, t, i) { assert Follows(g, u, t, i); }
    WalkJoin(h, s, [e], t);
  }

  /** Every seed that is known is no better than a walk from `s` that can be seen. */
  ghost predicate Dominated(g: Graph, s: int, seeds: seq<int>) {
    |seeds| == |g| && forall u :: 0 <= u < |g| && seeds[u] < INF ==> Reachable(g, s, u, seeds[u])
  }

  ghost predicate Reachable(g: Graph, s: int, u: int, x: int) {
    exists r :: Walk(g, s, r) && Visible(r) && End(s, r) == u && Weight(r) <= x
  }

  lemma FreshDominated(g: Graph, s: int, seeds: seq<int>)
    requires 0 <= s < |g| && seeds == seq(|g|, _ => INF)[s := 0]
    ensures Dominated(g, s, seeds)
  {
    assert Walk(g, s, []) && Visible([]) && End(s, []) == s && Weight([]) == 0;
    assert Reachable(g, s, s, 0);
  }

  /** A seeded walk that can be seen, and the walk from `s` that takes its place. */
  lemma Replace(g: Graph, s: int, seeds: seq<int>, q: seq<Edge>) returns (r: seq<Edge>, p: seq<Edge>)
    requires WellFormed(g) && Dominated(g, s, seeds) && Walk(Seeded(g, seeds), |g|, q) && Visible(q) && q != []
    ensures p == r + q[1..] && Walk(g, s, p) && Visible(p) && End(s, p) == End(|g|, q) && Weight(p) <= Weight(q)
    ensures End(s, r) == q[0].v && Weight(r) <= q[0].w
  {
    SeedWalk(g, seeds, q);
    var u, t := q[0].v, q[1..];
    assert Weight(q[..1]) < INF && t[..0] == [];
    assert Reachable(g, s, u, seeds[u]);
    r :| Walk(g, s, r) && Visible(r) && End(s, r) == u && Weight(r) <= seeds[u];
    p := r + t;
    WalkJoin(g, s, r, t);
    JoinVisible(r, t, seeds[u], q);
  }

  lemma JoinVisible(r: seq<Edge>, t: seq<Edge>, x: int, q: seq<Edge>)
    requires Visible(r) && Weight(r) <= x && |q| == |t| + 1 && Visible(q)
    requires forall i :: 1 <= i <= |q| ==> Weight(q[..i]) == x + Weight(t[..i - 1])
    ensures Visible(r + t) && Weight(r + t) <= Weight(q)
  {
    var p := r + t;
    forall i | 0 <= i <= |p| ensures Weight(p[..i]) < INF {
      if i <= |r| {
        assert p[..i] == r[..i];
      } else {
        var j := i - |r|;
        assert p[..i] == r + t[..j];
        WeightJoin(r, t[..j]);
        assert Weight(q[..j + 1]) == x + Weight(t[..j]);
      }
    }
    WeightJoin(r, t);
    assert q[..|q|] == q && t[..|t|] == t;
  }

  /** On a fresh object what is known from the seeds is what is known from the start. */
  lemma FreshKnows(g: Graph, s: int, seeds: seq<int>, d: seq<int>)
    requires WellFormed(g) && 0 <= s < |g| == |d| && seeds == seq(|g|, _ => INF)[s := 0]
    requires Knows(Seeded(g, seeds), |g|, d + [0])
    ensures Knows(g, s, d)
  {
    var h, top := Seeded(g, seeds), |g|;
    forall v | 0 <= v < |d| ensures d[v] <= INF && (d[v] < INF ==> Reached(g, s, v, d[v])) {
      assert (d + [0])[v] == d[v];
      if d[v] < INF {
        var q :| Walk(h, top, q) && Visible(q) && End(top, q) == v && Weight(q) == d[v];
        FreshWalk(g, s, seeds, q);
      }
    }
    forall t | Walk(g, s, t) && Visible(t) && |t| <= |g| && 0 <= End(s, t) < |d| ensures d[End(s, t)] <= Weight(t) {
      FromStart(g, s, seeds, t);
      assert (d + [0])[End(s, t)] == d[End(s, t)];
    }
  }

  lemma FreshWalk(g: Graph, s: int, seeds: seq<int>, q: seq<Edge>)
    requires WellFormed(g) && 0 <= s < |g| && seeds == seq(|g|, _ => INF)[s := 0]
    requires Walk(Seeded(g, seeds), |g|, q) && Visible(q) && q != []
    ensures Walk(g, s, q[1..]) && Visible(q[1..]) && End(s, q[1..]) == End(|g|, q) && Weight(q[1..]) == Weight(q)
  {
    SeedWalk(g, seeds, q);
    var t := q[1..];
    assert Weight(q[..1]) < INF && t[..0] == [];
    assert q[0].v == s;
    forall i | 0 <= i <= |t| ensures Weight(t[..i]) < INF { assert Weight(q[..i + 1]) == Weight(t[..i]); }
    assert q[..|q|] == q && t[..|t|] == t;
  }

  /** A visible walk from `s`, whose seed is zero, is a visible seeded walk of the same weight. */
  lemma FromStart(g: Graph, s: int, seeds: seq<int>, t: seq<Edge>)
    requires WellFormed(g) && |seeds| == |g| && 0 <= s < |g| && seeds[s] == 0 && Walk(g, s, t) && Visible(t)
    ensures var q := [Edge(|g|, s, 0)] + t;
            && Walk(Seeded(g, seeds), |g|, q) && Visible(q) && End(|g|, q) == End(s, t) && Weight(q) == Weight(t)
            && q[1..] == t
  {
    var q := [Edge(|g|, s, 0)] + t;
    WalkSeed(g, seeds, s, t);
    SeedWalk(g, seeds, q);
    assert q[1..] == t;
    forall i | 0 <= i <= |q| ensures Weight(q[..i]) < INF {
      if i > 0 { assert Weight(q[..i]) == Weight(t[..i - 1]); }
    }
    assert q[..|q|] == q && t[..|t|] == t;
  }

  /** Exact distances from the seeds are exact distances from the start if the seeds are dominated. */
  lemma DominatedExact(g: Graph, s: int, seeds: seq<int>, d: seq<int>)
    requires WellFormed(g) && 0 <= s < |g| && Dominated(g, s, seeds) && seeds[s] == 0
    requires AllExact(Seeded(g, seeds), |g|, d + [0])
    ensures AllExact(g, s, d)
  {
    var h, top := Seeded(g, seeds), |g|;
    forall v | 0 <= v < |d| ensures Exact(g, s, v, d[v]) {
      assert Exact(h, top, v, (d + [0])[v]);
      forall t | Walk(g, s, t) && Visible(t) && End(s, t) == v ensures d[v] <= Weight(t) {
        FromStart(g, s, seeds, t);
      }
      if d[v] < INF {
        var q :| Walk(h, top, q) && Visible(q) && End(top, q) == v && Weight(q) == d[v];
        var r, p := Replace(g, s, seeds, q);
        assert Reached(g, s, v, d[v]);
      }
    }
  }

  lemma SeededCycle(g: Graph, s: int, seeds: seq<int>)
    requires WellFormed(g) && |seeds| == |g| && 0 <= s < |g| && seeds[s] == 0 && VisibleNegativeCycle(g, s)
    ensures VisibleNegativeCycle(Seeded(g, seeds), |g|)
  {
    var t, i, j :| Walk(g, s, t) && Visible(t) && Gains(s, t, i, j);
    FromStart(g, s, seeds, t);
    var q := [Edge(|g|, s, 0)] + t;
    SeedWalk(g, seeds, q);
    assert Gains(|g|, q, i + 1, j + 1);
  }

  /** A cycle seen on a walk that can be replaced by one from `s` is seen from `s`. */
  lemma ReplacedCycle(g: Graph, s: int, seeds: seq<int>, q: seq<Edge>, i: int, j: int, r: seq<Edge>)
    requires WellFormed(g) && |seeds| == |g| && Walk(Seeded(g, seeds), |g|, q) && q != [] && Gains(|g|, q, i, j)
    requires End(s, r) == q[0].v && Walk(g, s, r + q[1..]) && Visible(r + q[1..])
    ensures VisibleNegativeCycle(g, s)
  {
    SeedWalk(g, seeds, q);
    var t := q[1..];
    var p, a, b := r + t, |r| + i - 1, |r| + j - 1;
    assert i >= 1;
    assert p[..a] == r + t[..i - 1] && p[..b] == r + t[..j - 1];
    WeightJoin(r, t[..i - 1]);
    WeightJoin(r, t[..j - 1]);
    assert Stop(s, p, a) == Stop(q[0].v, t, i - 1) && Stop(s, p, b) == Stop(q[0].v, t, j - 1);
    assert Gains(s, p, a, b);
  }

  /** What a run leaves behind is right for the start if the seeds are dominated; and the answers are
      right only then. */
  lemma DominatedOutcome(g: Graph, s: int, seeds: seq<int>, flag: bool, d: seq<int>)
    requires WellFormed(g) && 0 <= s < |g| && |seeds| == |g| && seeds[s] == 0 && |d| == |g|
    requires Outcome(Seeded(g, seeds), |g|, flag, d + [0])
    ensures Dominated(g, s, seeds) ==> Outcome(g, s, flag, d)
    ensures !flag ==> (AllExact(g, s, d) <==> Dominated(g, s, seeds))
  {
    var h, top := Seeded(g, seeds), |g|;
    if Dominated(g, s, seeds) {
      if VisibleNegativeCycle(g, s) { SeededCycle(g, s, seeds); }
      if VisibleNegativeCycle(h, top) {
        var q, i, j :| Walk(h, top, q) && Visible(q) && Gains(top, q, i, j);
        var r, p := Replace(g, s, seeds, q);
        ReplacedCycle(g, s, seeds, q, i, j, r);
      }
      if !flag { DominatedExact(g, s, seeds, d); }
    }
    if !flag && AllExact(g, s, d) {
      forall u | 0 <= u < |g| && seeds[u] < INF ensures Reachable(g, s, u, seeds[u]) { SeedReached(g, s, seeds, d, u); }
    }
  }

  lemma SeedReached(g: Graph, s: int, seeds: seq<int>, d: seq<int>, u: int)
    requires WellFormed(g) && |seeds| == |g| == |d| && 0 <= u < |g| && seeds[u] < INF
    requires AllExact(Seeded(g, seeds), |g|, d + [0]) && AllExact(g, s, d)
    ensures Reachable(g, s, u, seeds[u])
  {
    var h, top := Seeded(g, seeds), |g|;
    assert h[top][u] == (u, seeds[u]);
    assert Walk(h, top, []) && Visible([]) && Weight([]) == 0;
    Extend(h, top, [], Edge(top, u, seeds[u]));
    assert Exact(h, top, u, (d + [0])[u]);
    assert [] + [Edge(top, u, seeds[u])] == [Edge(top, u, seeds[u])];
    assert d[u] <= seeds[u];
    assert Exact(g, s, u, d[u]);
    var r :| Walk(g, s, r) && Visible(r) && End(s, r) == u && Weight(r) == d[u];
  }

  /** A second call after one that found no cycle gives the right verdict whatever its start. */
  lemma SecondVerdict(g: Graph, s1: int, d1: seq<int>, s2: int, flag: bool, d: seq<int>)
    requires WellFormed(g) && 0 <= s1 < |g| && 0 <= s2 < |g| && Outcome(g, s1, false, d1)
    requires |d1| == |g| && Outcome(Seeded(g, d1[s2 := 0]), |g|, flag, d)
    ensures flag <==> VisibleNegativeCycle(g, s2)
  {
    var seeds, top := d1[s2 := 0], |g|;
    var h := Seeded(g, seeds);
    if VisibleNegativeCycle(g, s2) { SeededCycle(g, s2, seeds); }
    if VisibleNegativeCycle(h, top) {
      var q, i, j :| Walk(h, top, q) && Visible(q) && Gains(top, q, i, j);
      SecondCycle(g, s1, d1, s2, q, i, j);
    }
  }

  lemma SecondCycle(g: Graph, s1: int, d1: seq<int>, s2: int, q: seq<Edge>, i: int, j: int)
    requires WellFormed(g) && 0 <= s1 < |g| && 0 <= s2 < |g| && Outcome(g, s1, false, d1) && |d1| == |g|
    requires Walk(Seeded(g, d1[s2 := 0]), |g|, q) && Visible(q) && Gains(|g|, q, i, j)
    ensures VisibleNegativeCycle(g, s2)
  {
    var seeds := d1[s2 := 0];
    SeedWalk(g, seeds, q);
    var u, t := q[0].v, q[1..];
    assert Weight(q[..1]) < INF && t[..0] == [];
    if u == s2 {
      assert Visible([]) && Weight([]) == 0;
      JoinVisible([], t, 0, q);
      assert [] + t == t;
      ReplacedCycle(g, s2, seeds, q, i, j, []);
    } else {
      assert Exact(g, s1, u, d1[u]);
      var r :| Walk(g, s1, r) && Visible(r) && End(s1, r) == u && Weight(r) == d1[u];
      JoinVisible(r, t, d1[u], q);
      WalkJoin(g, s1, r, t);
      ReplacedCycle(g, s1, seeds, q, i, j, r);
    }
  }

  /** But its answers can be wrong: on one edge from 0 to 1, called for 0 and then for 1, the second call
      still has 0 at vertex 0, which no walk from 1 reaches. */
  method RunTwice() returns (b: BellmanFord, first: bool, second: bool)
    ensures fresh(b) && b.graph == [[(1, 1)], []] && !first && !second
    ensures !AllExact(b.graph, 1, b.answer)
  {
    var g: Graph := [[(1, 1)], []];
    b := new BellmanFord(g);
    NoCycle(g);
    first := b.Run(0);
    ghost var d := b.answer;
    OneEdge(g, d);
    second := b.Run(1);
    SecondVerdict(g, 0, d, 1, second, b.answer + [0]);
    DominatedOutcome(g, 1, d[1 := 0], second, b.answer);
    NotDominated(g, d[1 := 0]);
  }

  /** The verdict is right exactly when a reachable negative cycle, if there is one, comes in sight;
      and without one the distances are right exactly when every reachable vertex is nearer than
      infinity. */
  lemma RightOutcome(g: Graph, s: int, flag: bool, d: seq<int>)
    requires WellFormed(g) && 0 <= s < |g| && Outcome(g, s, flag, d)
    ensures (flag <==> NegativeCycle(g, s)) <==> (NegativeCycle(g, s) ==> CycleInSight(g, s))
    ensures !NegativeCycle(g, s) ==> !flag && (AllDistances(g, s, d) <==> Near(g, s))
  {
    SeenCycles(g, s);
    if !NegativeCycle(g, s) {
      if Near(g, s) {
        var low := EdgeFloor(g);
        forall v | 0 <= v < |d| ensures Distance(g, s, v, d[v]) { ExactDistance(g, s, low, v, d[v]); }
      }
      if AllDistances(g, s, d) {
        forall p | Walk(g, s, p) ensures NearEnd(g, s, End(s, p)) {
          StopInside(g, s, p, |p|);
          assert Distance(g, s, End(s, p), d[End(s, p)]);
        }
      }
    }
  }

  lemma ExactDistance(g: Graph, s: int, low: nat, v: int, x: int)
    requires WellFormed(g) && 0 <= s < |g| && Near(g, s) && !NegativeCycle(g, s) && Exact(g, s, v, x)
    requires forall u :: 0 <= u < |g| ==> RowAbove(g[u], low)
    ensures Distance(g, s, v, x)
  {
    forall p | Walk(g, s, p) && End(s, p) == v ensures x < INF && x <= Weight(p) {
      var q := FindLightest(g, s, low, p);
      LightestVisible(g, s, q);
      assert x <= Weight(q);
      assert q[..|q|] == q;
    }
  }

  /** When n edges cannot weigh as much as infinity, a run answers for all walks: true exactly when
      a negative cycle is reachable, and otherwise every distance is exact. */
  lemma BoundedOutcome(g: Graph, s: int, top: int, flag: bool, d: seq<int>)
    requires WellFormed(g) && 0 <= s < |g| && Bounded(g, top) && Outcome(g, s, flag, d)
    ensures flag <==> NegativeCycle(g, s)
    ensures !flag ==> AllDistances(g, s, d)
  {
    SameCycles(g, s, top);
    if !flag {
      forall p | Walk(g, s, p) ensures NearEnd(g, s, End(s, p)) {
        var q := Shorten(g, s, p, false);
        ShortVisible(g, s, top, q);
        assert q[..|q|] == q;
      }
      RightOutcome(g, s, flag, d);
    }
  }

  /** An edge as heavy as infinity is never seen, so its end counts as unreachable. */
  lemma HeavyEdge(g: Graph)
    requires g == [[(1, INF)], []]
    ensures Exact(g, 0, 1, INF) && !Distance(g, 0, 1, INF)
  {
    forall p | Walk(g, 0, p) && End(0, p) == 1 ensures !Visible(p) { HeavyStart(g, p); }
    var q := [Edge(0, 1, INF)];
    assert Follows(g, 0, q, 0);
    assert Walk(g, 0, q) && End(0, q) == 1;
  }

  /** Nor is a negative cycle behind it. */
  lemma HiddenCycle(g: Graph)
    requires g == [[(1, INF)], [(1, -1)]]
    ensures NegativeCycle(g, 0) && !VisibleNegativeCycle(g, 0)
  {
    forall p, i, j | Walk(g, 0, p) && Visible(p) ensures !Gains(0, p, i, j) {
      if p != [] { HeavyStart(g, p); }
    }
    var q := [Edge(0, 1, INF), Edge(1, 1, -1)];
    assert Follows(g, 0, q, 0) && Follows(g, 0, q, 1);
    assert q[..2] == q && q[..2][..1] == q[..1];
    assert Weight(q[..2]) == Weight(q[..1]) - 1;
    assert Walk(g, 0, q) && Gains(0, q, 1, 2);
  }

  lemma HeavyStart(g: Graph, p: seq<Edge>)
    requires |g| > 0 && g[0] == [(1, INF)] && Walk(g, 0, p) && p != []
    ensures Weight(p[..1]) == INF
  {
    assert Follows(g, 0, p, 0);
    assert (p[0].v, p[0].w) == (1, INF);
    assert p[..1] == [p[0]] && p[..1][..0] == [];
  }

  /** Walks on one edge have at most one edge. */
  lemma {:induction false} OneEdgeWalk(g: Graph, s: int, p: seq<Edge>)
    requires g == [[(1, 1)], []] && Walk(g, s, p)
    ensures |p| <= 1 && (p != [] ==> s == 0 && p[0] == Edge(0, 1, 1))
  {
    if p != [] {
      assert Follows(g, s, p, 0);
      assert |p| > 1 ==> Follows(g, s, p, 1);
    }
  }

  lemma NoCycle(g: Graph)
    requires g == [[(1, 1)], []]
    ensures forall s :: !VisibleNegativeCycle(g, s)
  {
    forall s, p, i, j | Walk(g, s, p) ensures !Gains(s, p, i, j) { OneEdgeWalk(g, s, p); }
  }

  lemma OneEdge(g: Graph, d: seq<int>)
    requires g == [[(1, 1)], []] && AllExact(g, 0, d)
    ensures |d| == 2 && d[0] == 0
  {
    assert Walk(g, 0, []) && Visible([]) && End(0, []) == 0 && Weight([]) == 0;
    assert Exact(g, 0, 0, d[0]);
    var p :| Walk(g, 0, p) && Visible(p) && End(0, p) == 0 && Weight(p) == d[0];
    OneEdgeWalk(g, 0, p);
  }

  lemma NotDominated(g: Graph, seeds: seq<int>)
    requires g == [[(1, 1)], []] && |seeds| == 2 && seeds[0] == 0
    ensures !Dominated(g, 1, seeds)
  {
    if Reachable(g, 1, 0, 0) {
      var r :| Walk(g, 1, r) && Visible(r) && End(1, r) == 0 && Weight(r) <= 0;
      OneEdgeWalk(g, 1, r);
    }
  }
}
