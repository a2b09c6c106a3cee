/** cpp/algorithm/string/kmp.h: the prefix function and the matching automaton. */
module Kmp {
  /** `b` is the length of a proper border of s[..k]: a shorter prefix that is also a suffix. */
  ghost predicate Border(s: string, k: int, b: int) {
    0 <= b < k <= |s| && s[..b] == s[k - b..k]
  }

  /** `b` is the longest proper border of s[..k]. */
  ghost predicate Longest(s: string, k: int, b: int) {
    Border(s, k, b) && forall c :: Border(s, k, c) ==> c <= b
  }

  /** pi[..m] holds the longest proper borders of the first `m` prefixes. */
  ghost predicate Borders(s: string, pi: seq<int>, m: int) {
    0 <= m <= |pi| == |s| && forall i :: 0 <= i < m ==> Longest(s, i + 1, pi[i])
  }

  lemma BorderZero(s: string, k: int)
    requires 0 < k <= |s|
    ensures Border(s, k, 0)
  {}

  /** Of two borders, the shorter is a border of the longer. */
  lemma BorderNest(s: string, k: int, b: int, c: int)
    requires Border(s, k, b) && Border(s, k, c) && c < b
    ensures Border(s, b, c)
  {
    assert s[..c] == s[k - c..k] == s[k - b..k][b - c..] == s[..b][b - c..] == s[b - c..b];
  }

  /** A border of a border is a border. */
  lemma BorderTrans(s: string, k: int, b: int, c: int)
    requires Border(s, k, b) && Border(s, b, c)
    ensures Border(s, k, c)
  {
    assert s[..c] == s[b - c..b] == s[..b][b - c..] == s[k - b..k][b - c..] == s[k - c..k];
  }

  /** A border one longer is a border of the shorter prefix, extended by one more character. */
  lemma BorderExtend(s: string, k: int, b: int)
    requires 0 < k < |s| && 0 <= b
    ensures Border(s, k + 1, b + 1) <==> Border(s, k, b) && s[b] == s[k]
  {
    if Border(s, k, b) && s[b] == s[k] {
      assert s[..b + 1] == s[..b] + [s[b]];
      assert s[k - b..k + 1] == s[k - b..k] + [s[k]];
    }
    if Border(s, k + 1, b + 1) {
      assert s[..b] == s[..b + 1][..b] == s[k - b..k + 1][..b] == s[k - b..k];
      assert s[b] == s[..b + 1][b] == s[k - b..k + 1][b] == s[k];
    }
  }

  /** `j` is a border of s[..i] and no longer border of s[..i] extends to s[..i + 1]. */
  ghost predicate Candidate(s: string, i: int, j: int) {
    0 < i < |s| && Border(s, i, j) && forall b :: Border(s, i, b) && s[b] == s[i] ==> b <= j
  }

  /** When `j` does not extend, the next candidate is the longest border of s[..j]. */
  lemma FallBack(s: string, i: int, j: int, next: int)
    requires Candidate(s, i, j) && 0 < j && s[i] != s[j] && Longest(s, j, next)
    ensures Candidate(s, i, next) && next < j
  {
    BorderTrans(s, i, j, next);
    forall b | Border(s, i, b) && s[b] == s[i] ensures b <= next {
      BorderNest(s, i, j, b);
    }
  }

  /** The candidate found decides the longest border of s[..i + 1]. */
  lemma Settle(s: string, i: int, j: int)
    requires Candidate(s, i, j) && (j == 0 || s[i] == s[j])
    ensures Longest(s, i + 1, if s[i] == s[j] then j + 1 else j)
  {
    BorderZero(s, i + 1);
    BorderExtend(s, i, j);
    var r, k := if s[i] == s[j] then j + 1 else j, i + 1;
    forall c | Border(s, k, c) ensures c <= r {
      if c > 0 { BorderExtend(s, i, c - 1); }
    }
  }

  lemma FirstCandidate(s: string, i: int, j: int)
    requires 0 < i < |s| && Longest(s, i, j)
    ensures Candidate(s, i, j)
  {}

  lemma BordersExtend(s: string, pi: seq<int>, i: int, j: int)
    requires Borders(s, pi, i) && i < |s| && Longest(s, i + 1, j)
    ensures Borders(s, pi[i := j], i + 1)
  {}

  /** The longest proper border of every prefix, for every string. */
  method PrefixFunction(s: string) returns (pi: seq<int>)
    ensures Borders(s, pi, |s|)
  {
    var n := |s|;
    pi := seq(n, _ => 0);
    if n > 0 { BorderZero(s, 1); }
    var i := 1;
    while i < n
      invariant |pi| == n && 1 <= i && (n > 0 ==> i <= n) && Borders(s, pi, if n > 0 then i else 0)
    {
      var j := pi[i - 1];
      FirstCandidate(s, i, j);
      while j > 0 && s[i] != s[j]
        invariant Candidate(s, i, j)
        decreases j
      {
        FallBack(s, i, j, pi[j - 1]);
        j := pi[j - 1];
      }
      Settle(s, i, j);
      if s[i] == s[j] {
        j := j + 1;
      }
      BordersExtend(s, pi, i, j);
      pi := pi[i := j];
      i := i + 1;
    }
  }

  // ---------- the automaton ----------

  /** pat[..k] is a suffix of `t`. */
  ghost predicate Ends(pat: string, t: string, k: int) {
    0 <= k <= |pat| && k <= |t| && pat[..k] == t[|t| - k..]
  }

  /** `k` is the length of the longest prefix of `pat` that is a suffix of `t`. */
  ghost predicate State(pat: string, t: string, k: int) {
    Ends(pat, t, k) && forall c :: Ends(pat, t, c) ==> c <= k
  }

  lemma EndsZero(pat: string, t: string)
    ensures Ends(pat, t, 0)
  {
    assert pat[..0] == t[|t|..];
  }

  lemma EndsExtend(pat: string, t: string, x: char, k: int)
    requires 0 <= k
    ensures Ends(pat, t + [x], k + 1) <==> Ends(pat, t, k) && k < |pat| && pat[k] == x
  {
    var u := t + [x];
    if Ends(pat, t, k) && k < |pat| && pat[k] == x {
      assert pat[..k + 1] == pat[..k] + [x] == t[|t| - k..] + [x] == u[|u| - k - 1..];
    }
    if Ends(pat, u, k + 1) {
      assert pat[..k] == pat[..k + 1][..k] == u[|u| - k - 1..][..k] == t[|t| - k..];
      assert pat[k] == pat[..k + 1][k] == u[|u| - k - 1..][k] == x;
    }
  }

  /** Prefixes of `pat` that end pat[..i] and are shorter than `i` are the borders of pat[..i]. */
  lemma EndsBorder(pat: string, i: int, c: int)
    requires 0 <= i <= |pat| && c < i
    ensures Ends(pat, pat[..i], c) <==> Border(pat, i, c)
  {
    if 0 <= c { assert pat[..i][i - c..] == pat[i - c..i]; }
  }

  /** A prefix that ends a text is itself known by what ends it. */
  lemma EndsNest(pat: string, t: string, k: int, c: int)
    requires Ends(pat, t, k) && c <= k
    ensures Ends(pat, t, c) <==> Ends(pat, pat[..k], c)
  {
    if 0 <= c { assert t[|t| - c..] == t[|t| - k..][k - c..] == pat[..k][k - c..]; }
  }

  /** Reading `x` after a text depends only on the state the text left behind. */
  lemma StateStep(pat: string, t: string, k: int, x: char, m: int)
    requires State(pat, t, k)
    ensures State(pat, t + [x], m) <==> State(pat, pat[..k] + [x], m)
  {
    forall c ensures Ends(pat, t + [x], c) <==> Ends(pat, pat[..k] + [x], c) {
      if c <= 0 {
        EndsZero(pat, t + [x]);
        EndsZero(pat, pat[..k] + [x]);
      } else {
        EndsExtend(pat, t, x, c - 1);
        EndsExtend(pat, pat[..k], x, c - 1);
        if c - 1 <= k { EndsNest(pat, t, k, c - 1); }
      }
    }
  }

  /** The mismatch case: the state is that of the longest border followed by the same character. */
  lemma StateBorder(pat: string, i: int, b: int, x: char, m: int)
    requires 0 < i <= |pat| && Longest(pat, i, b) && (i == |pat| || pat[i] != x)
    ensures State(pat, pat[..i] + [x], m) <==> State(pat, pat[..b] + [x], m)
  {
    EndsBorder(pat, i, b);
    forall c ensures Ends(pat, pat[..i] + [x], c) <==> Ends(pat, pat[..b] + [x], c) {
      if c <= 0 {
        EndsZero(pat, pat[..i] + [x]);
        EndsZero(pat, pat[..b] + [x]);
      } else {
        EndsExtend(pat, pat[..i], x, c - 1);
        EndsExtend(pat, pat[..b], x, c - 1);
        if c - 1 < i { EndsBorder(pat, i, c - 1); }
        if c - 1 <= b { EndsNest(pat, pat[..i], b, c - 1); }
      }
    }
  }

  /** The match case. */
  lemma StateForward(pat: string, i: int)
    requires 0 <= i < |pat|
    ensures State(pat, pat[..i] + [pat[i]], i + 1)
  {
    assert pat[..i] + [pat[i]] == pat[..i + 1];
  }

  /** At the start, a mismatch stays at the start. */
  lemma StateStay(pat: string, x: char)
    requires pat == "" || pat[0] != x
    ensures State(pat, pat[..0] + [x], 0)
  {
    var t := pat[..0] + [x];
    EndsZero(pat, t);
    EndsExtend(pat, pat[..0], x, 0);
    assert |t| == 1 && !Ends(pat, t, 1);
    forall c | Ends(pat, t, c) ensures c <= 0 {
      assert c == 0 || c == 1;
    }
  }

  function Letter(c: int): char
    requires 0 <= c < 26
  {
    ('a' as int + c) as char
  }

  /** Row `i` gives, for every letter, the state after pat[..i] and that letter. */
  ghost predicate Row(pat: string, i: int, row: seq<int>) {
    0 <= i <= |pat| && |row| == 26 && forall c :: 0 <= c < 26 ==> State(pat, pat[..i] + [Letter(c)], row[c])
  }

  ghost predicate Automaton(pat: string, aut: seq<seq<int>>) {
    |aut| == |pat| + 1 && forall i :: 0 <= i <= |pat| ==> Row(pat, i, aut[i])
  }

  /** Borders of the prefixes of `pat` do not see what follows `pat`. */
  lemma BorderLocal(s: string, pat: string, k: int, b: int)
    requires pat <= s && k <= |pat|
    ensures Longest(s, k, b) <==> Longest(pat, k, b)
  {
    forall c ensures Border(s, k, c) <==> Border(pat, k, c) {
      if 0 <= c < k { assert s[..c] == pat[..c] && s[k - c..k] == pat[k - c..k]; }
    }
  }

  /** One row of the table, for any pattern. */
  method FillRow(pat: string, s: string, i: int, pi: seq<int>, aut: seq<seq<int>>) returns (row: seq<int>)
    requires s == pat + ['#'] && 0 <= i < |s| && Borders(s, pi, |s|) && |aut| == |s|
    requires forall j :: 0 <= j < i ==> Row(pat, j, aut[j])
    ensures Row(pat, i, row)
  {
    row := seq(26, _ => 0);
    for c := 0 to 26
      invariant |row| == 26 && forall d :: 0 <= d < c ==> State(pat, pat[..i] + [Letter(d)], row[d])
    {
      if i > 0 && Letter(c) != s[i] {
        var b := pi[i - 1];
        BorderLocal(s, pat, i, b);
        StateBorder(pat, i, b, Letter(c), aut[b][c]);
        row := row[c := aut[b][c]];
      } else {
        if Letter(c) == s[i] { StateForward(pat, i); } else { StateStay(pat, Letter(c)); }
        row := row[c := i + if Letter(c) == s[i] then 1 else 0];
      }
    }
  }

  method ComputeAutomaton(pat: string) returns (aut: seq<seq<int>>)
    ensures Automaton(pat, aut)
  {
    var s := pat + ['#'];
    var n := |s|;
    var pi := PrefixFunction(s);
    aut := seq(n, _ => seq(26, _ => 0));
    for i := 0 to n
      invariant |aut| == n && forall j :: 0 <= j < i ==> Row(pat, j, aut[j])
    {
      var row := FillRow(pat, s, i, pi, aut);
      aut := aut[i := row];
    }
  }

  // ---------- what the automaton is for ----------

  ghost predicate Lowercase(t: string) { forall i :: 0 <= i < |t| ==> 'a' <= t[i] <= 'z' }

  /** The state after reading `t` from the start. */
  ghost function Run(pat: string, aut: seq<seq<int>>, t: string): (k: int)
    requires Automaton(pat, aut) && Lowercase(t)
    ensures 0 <= k <= |pat|
  {
    if t == "" then 0
    else
      var k := Run(pat, aut, t[..|t| - 1]);
      var c := t[|t| - 1] as int - 'a' as int;
      assert Row(pat, k, aut[k]) && t[|t| - 1] == Letter(c);
      aut[k][c]
  }

  /** Running the automaton over any lowercase text tracks the longest prefix of the pattern that
      ends the text. */
  lemma {:induction false} RunTracks(pat: string, aut: seq<seq<int>>, t: string)
    requires Automaton(pat, aut) && Lowercase(t)
    ensures State(pat, t, Run(pat, aut, t))
  {
    if t == "" {
      EndsZero(pat, t);
    } else {
      var u, x := t[..|t| - 1], t[|t| - 1];
      RunTracks(pat, aut, u);
      var k := Run(pat, aut, u);
      assert u + [x] == t;
      TableStep(pat, k, aut[k], x);
      StateStep(pat, u, k, x, Run(pat, aut, t));
    }
  }

  lemma TableStep(pat: string, k: int, row: seq<int>, x: char)
    requires Row(pat, k, row) && 'a' <= x <= 'z'
    ensures State(pat, pat[..k] + [x], row[x as int - 'a' as int])
  {
    assert x == Letter(x as int - 'a' as int);
  }

  /** It accepts exactly the texts that end with the pattern. */
  lemma RunMatches(pat: string, aut: seq<seq<int>>, t: string)
    requires Automaton(pat, aut) && Lowercase(t)
    ensures Run(pat, aut, t) == |pat| <==> |pat| <= |t| && t[|t| - |pat|..] == pat
  {
    RunTracks(pat, aut, t);
    FullState(pat, t, Run(pat, aut, t));
  }

  lemma FullState(pat: string, t: string, k: int)
    requires State(pat, t, k)
    ensures k == |pat| <==> |pat| <= |t| && t[|t| - |pat|..] == pat
  {
    assert pat[..|pat|] == pat;
    assert Ends(pat, t, |pat|) <==> |pat| <= |t| && t[|t| - |pat|..] == pat;
  }
}
