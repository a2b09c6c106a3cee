/** The table T of MD5 and the sine function: sine and cosine at 1 lie between two partial sums of their
    power series, and the addition theorem leads from there to every whole number. */
module Md5Sine {
  import opened Md5Spec

  function InvFact(n: nat): real {
    if n == 0 then 1.0 else InvFact(n - 1) / n as real
  }

  /** Term `n` of the series of the sine (`first` is 1) or of the cosine (`first` is 0), at 1. */
  function Term(first: nat, n: nat): real {
    if n % 2 == 0 then InvFact(first + 2 * n) else -InvFact(first + 2 * n)
  }

  /** The sum of the first `n` terms. */
  function Partial(first: nat, n: nat): real {
    if n == 0 then 0.0 else Partial(first, n - 1) + Term(first, n - 1)
  }

  /** `s1` and `c1` lie where the series put sin(1) and cos(1): an alternating series lies above its sums
      of an even number of terms and below the others. */
  ghost predicate AtOne(s1: real, c1: real) {
    Partial(1, 14) <= s1 <= Partial(1, 15) && Partial(0, 14) <= c1 <= Partial(0, 15)
  }

  datatype Point = Point(sin: real, cos: real)

  /** Sine and cosine at `n`, by the addition theorem from those at 1. */
  function At(s1: real, c1: real, n: nat): Point {
    if n == 0 then Point(0.0, 1.0) else Turned(At(s1, c1, n - 1), s1, c1)
  }

  function Turned(p: Point, s1: real, c1: real): Point {
    Point(p.sin * c1 + p.cos * s1, p.cos * c1 - p.sin * s1)
  }

  function Abs(x: real): real { if x < 0.0 then -x else x }

  /** T(i) is the integer part of 4294967296 times abs(x). */
  ghost predicate IsSine(x: real, i: nat) { (4294967296.0 * Abs(x)).Floor == T(i) as int }

  // ---------- every longer partial sum lies there too ----------

  lemma Smaller(x: real, n: nat)
    requires 0.0 < x
    ensures 0.0 < x / (n + 1) as real <= x
  {
    var q := x / (n + 1) as real;
    assert q * (n + 1) as real == x;
    assert q > 0.0;
    assert q * (n + 1) as real == q + q * n as real;
  }

  lemma {:induction false} InvFactFalls(n: nat)
    ensures 0.0 < InvFact(n + 1) <= InvFact(n)
  {
    if n > 0 { InvFactFalls(n - 1); }
    Smaller(InvFact(n), n);
  }

  lemma {:induction false} TermsFall(first: nat, n: nat)
    requires n % 2 == 0
    ensures Term(first, n) >= -Term(first, n + 1) >= Term(first, n + 2) >= 0.0
  {
    InvFactFalls(first + 2 * n);
    InvFactFalls(first + 2 * n + 1);
    InvFactFalls(first + 2 * n + 2);
    InvFactFalls(first + 2 * n + 3);
    assert Term(first, n) == InvFact(first + 2 * n) && Term(first, n + 1) == -InvFact(first + 2 * (n + 1));
    assert Term(first, n + 2) == InvFact(first + 2 * (n + 2));
  }

  /** Sums of an even number of terms rise, the others fall. */
  lemma {:induction false} Narrows(first: nat, n: nat)
    requires n % 2 == 0
    ensures Partial(first, n) <= Partial(first, n + 2) && Partial(first, n) <= Partial(first, n + 1)
    ensures Partial(first, n + 3) <= Partial(first, n + 1)
  {
    TermsFall(first, n);
    assert Partial(first, n + 1) == Partial(first, n) + Term(first, n);
    assert Partial(first, n + 2) == Partial(first, n + 1) + Term(first, n + 1);
    assert Partial(first, n + 3) == Partial(first, n + 2) + Term(first, n + 2);
  }

  lemma {:induction false} Brackets(first: nat, n: nat, m: nat)
    requires n % 2 == 0 && n <= m
    ensures Partial(first, n) <= Partial(first, m) <= Partial(first, n + 1)
    decreases m - n
  {
    Narrows(first, n);
    if m > n + 1 { Brackets(first, n + 2, m); }
  }

  /** All sums of at least fourteen terms lie where sin(1) and cos(1) do. */
  lemma SumsAtOne(m: nat, k: nat)
    requires m >= 14 && k >= 14
    ensures AtOne(Partial(1, m), Partial(0, k))
  {
    Brackets(1, 14, m);
    Brackets(0, 14, k);
  }

  // ---------- approximations in units of 10^-26 ----------

  /** How many units make one. */
  const U: real := 100_000_000_000_000_000_000_000_000.0

  function InUnits(x: real): real { x * 100_000_000_000_000_000_000_000_000.0 }

  ghost predicate Near(p: Point, s: real, c: real, e: real) {
    Close(p.sin, s, e) && Close(p.cos, c, e)
  }

  ghost predicate Close(x: real, r: real, e: real) { r - e <= x * U <= r + e }

  lemma Bound(x: real, y: real, e: real, d: real)
    requires -e <= x <= e && -d <= y <= d
    ensures -(e * d) <= x * y <= e * d
  {
    assert (e - x) * (d + y) >= 0.0 && (e + x) * (d - y) >= 0.0;
    assert (e - x) * (d - y) >= 0.0 && (e + x) * (d + y) >= 0.0;
  }

  /** How far a product is from the product of two approximations. */
  lemma Product(x: real, y: real, a: real, b: real, e: real, d: real, a2: real, b2: real, t: real)
    requires a - e <= x <= a + e && b - d <= y <= b + d && -a2 <= a <= a2 && -b2 <= b <= b2
    requires t == e * b2 + a2 * d + e * d
    ensures a * b - t <= x * y <= a * b + t
  {
    var u, v := x - a, y - b;
    assert x * y == (a + u) * (b + v);
    assert x * y - a * b == u * b + a * v + u * v;
    Bound(u, b, e, b2);
    Bound(a, v, a2, d);
    Bound(u, v, e, d);
  }

  /** One component of the addition theorem, in units. */
  lemma Combined(x: real, y: real, f: real, g: real, s: real, c: real, a: real, b: real, r: real, e: real)
    requires s - e <= x <= s + e && c - e <= y <= c + e && a - 10.0 <= f <= a + 10.0 && b - 10.0 <= g <= b + 10.0
    requires -1.1 * U <= s <= 1.1 * U && -1.1 * U <= c <= 1.1 * U
    requires -0.55 * U <= a <= 0.55 * U && -0.85 * U <= b <= 0.85 * U
    requires r * U - U <= s * a + c * b <= r * U + U
    requires 500.0 <= e && 1000.0 * e <= U
    ensures r * U - 1.5 * e * U <= x * f + y * g <= r * U + 1.5 * e * U
  {
    var p, q := e * (0.55 * U) + 1.1 * U * 10.0 + e * 10.0, e * (0.85 * U) + 1.1 * U * 10.0 + e * 10.0;
    Product(x, f, s, a, e, 10.0, 1.1 * U, 0.55 * U, p);
    Product(y, g, c, b, e, 10.0, 1.1 * U, 0.85 * U, q);
    assert p + q + U <= 1.5 * e * U;
  }

  /** Sine and cosine at 1, in units. */
  const S1: real := 84_147_098_480_789_650_665_250_232.0
  const C1: real := 54_030_230_586_813_971_740_093_661.0

  function TimesSin(x: real): real { x * 84_147_098_480_789_650_665_250_232.0 }

  function TimesCos(x: real): real { x * 54_030_230_586_813_971_740_093_661.0 }

  lemma Unscaled(x: real, y: real, f: real, g: real, r: real, e: real)
    requires r * U - e * U <= (x * U) * (f * U) + (y * U) * (g * U) <= r * U + e * U
    ensures r - e <= (x * f + y * g) * U <= r + e
  {
    assert (x * U) * (f * U) + (y * U) * (g * U) == (x * f + y * g) * U * U;
  }

  /** `r` is `s * a + c * b`, rounded. */
  ghost predicate Rounded(s: real, a: real, c: real, b: real, r: real) {
    r * U - U <= s * a + c * b <= r * U + U
  }

  lemma Component(x: real, y: real, f: real, g: real, s: real, c: real, a: real, b: real, r: real, e: real)
    requires Close(x, s, e) && Close(y, c, e) && Close(f, a, 10.0) && Close(g, b, 10.0)
    requires -1.1 * U <= s <= 1.1 * U && -1.1 * U <= c <= 1.1 * U
    requires -0.55 * U <= a <= 0.55 * U && -0.85 * U <= b <= 0.85 * U
    requires Rounded(s, a, c, b, r) && 500.0 <= e && 1000.0 * e <= U
    ensures Close(x * f + y * g, r, 1.5 * e)
  {
    Combined(x * U, y * U, f * U, g * U, s, c, a, b, r, e);
    Unscaled(x, y, f, g, r, 1.5 * e);
  }

  lemma TurnSin(p: Point, s1: real, c1: real, s: real, c: real, e: real, r: real)
    requires Near(p, s, c, e) && Near(Point(s1, c1), S1, C1, 10.0) && 500.0 <= e && 1000.0 * e <= U
    requires -1.1 * U <= s <= 1.1 * U && -1.1 * U <= c <= 1.1 * U && Rounded(s, C1, c, S1, r)
    ensures Close(Turned(p, s1, c1).sin, r, 1.5 * e)
  {
    Component(p.sin, p.cos, c1, s1, s, c, C1, S1, r, e);
  }

  lemma Minus(x: real, y: real, f: real, g: real, s: real, c: real, a: real, b: real, r: real, e: real)
    requires Close(x, s, e) && Close(y, c, e) && Close(f, a, 10.0) && Close(g, b, 10.0)
    requires -1.1 * U <= s <= 1.1 * U && -1.1 * U <= c <= 1.1 * U
    requires -0.55 * U <= a <= 0.55 * U && -0.85 * U <= b <= 0.85 * U
    requires Rounded(s, a, c, -b, r) && 500.0 <= e && 1000.0 * e <= U
    ensures Close(x * f - y * g, r, 1.5 * e)
  {
    var h := -g;
    Component(x, y, f, h, s, c, a, -b, r, e);
    assert x * f + y * h == x * f - y * g;
  }

  lemma TurnCos(p: Point, s1: real, c1: real, s: real, c: real, e: real, r: real)
    requires Near(p, s, c, e) && Near(Point(s1, c1), S1, C1, 10.0) && 500.0 <= e && 1000.0 * e <= U
    requires -1.1 * U <= s <= 1.1 * U && -1.1 * U <= c <= 1.1 * U && Rounded(c, C1, s, -S1, r)
    ensures Close(Turned(p, s1, c1).cos, r, 1.5 * e)
  {
    Minus(p.cos, p.sin, c1, s1, c, s, C1, S1, r, e);
  }

  // ---------- sine and cosine at 1 ----------

  lemma InvFactStep(n: nat, f: real, g: real)
    requires InvFact(n) * f == 1.0 && g == f * (n + 1) as real
    ensures InvFact(n + 1) * g == 1.0
  {
    var d := (n + 1) as real;
    assert InvFact(n + 1) * d == InvFact(n);
  }

  lemma InvFacts1()
    ensures InvFact(1) * 1.0 == 1.0
    ensures InvFact(2) * 2.0 == 1.0
    ensures InvFact(3) * 6.0 == 1.0
    ensures InvFact(4) * 24.0 == 1.0
    ensures InvFact(5) * 120.0 == 1.0
    ensures InvFact(6) * 720.0 == 1.0
    ensures InvFact(7) * 5_040.0 == 1.0
    ensures InvFact(8) * 40_320.0 == 1.0
    ensures InvFact(9) * 362_880.0 == 1.0
    ensures InvFact(10) * 3_628_800.0 == 1.0
  {
    InvFactStep(0, 1.0, 1.0);
    InvFactStep(1, 1.0, 2.0);
    InvFactStep(2, 2.0, 6.0);
    InvFactStep(3, 6.0, 24.0);
    InvFactStep(4, 24.0, 120.0);
    InvFactStep(5, 120.0, 720.0);
    InvFactStep(6, 720.0, 5_040.0);
    InvFactStep(7, 5_040.0, 40_320.0);
    InvFactStep(8, 40_320.0, 362_880.0);
    InvFactStep(9, 362_880.0, 3_628_800.0);
  }

  lemma InvFacts2()
    ensures InvFact(11) * 39_916_800.0 == 1.0
    ensures InvFact(12) * 479_001_600.0 == 1.0
    ensures InvFact(13) * 6_227_020_800.0 == 1.0
    ensures InvFact(14) * 87_178_291_200.0 == 1.0
    ensures InvFact(15) * 1_307_674_368_000.0 == 1.0
    ensures InvFact(16) * 20_922_789_888_000.0 == 1.0
    ensures InvFact(17) * 355_687_428_096_000.0 == 1.0
    ensures InvFact(18) * 6_402_373_705_728_000.0 == 1.0
    ensures InvFact(19) * 121_645_100_408_832_000.0 == 1.0
    ensures InvFact(20) * 2_432_902_008_176_640_000.0 == 1.0
  {
    InvFacts1();
    InvFactStep(10, 3_628_800.0, 39_916_800.0);
    InvFactStep(11, 39_916_800.0, 479_001_600.0);
    InvFactStep(12, 479_001_600.0, 6_227_020_800.0);
    InvFactStep(13, 6_227_020_800.0, 87_178_291_200.0);
    InvFactStep(14, 87_178_291_200.0, 1_307_674_368_000.0);
    InvFactStep(15, 1_307_674_368_000.0, 20_922_789_888_000.0);
    InvFactStep(16, 20_922_789_888_000.0, 355_687_428_096_000.0);
    InvFactStep(17, 355_687_428_096_000.0, 6_402_373_705_728_000.0);
    InvFactStep(18, 6_402_373_705_728_000.0, 121_645_100_408_832_000.0);
    InvFactStep(19, 121_645_100_408_832_000.0, 2_432_902_008_176_640_000.0);
  }

  lemma InvFacts3()
    ensures InvFact(21) * 51_090_942_171_709_440_000.0 == 1.0
    ensures InvFact(22) * 1_124_000_727_777_607_680_000.0 == 1.0
    ensures InvFact(23) * 25_852_016_738_884_976_640_000.0 == 1.0
    ensures InvFact(24) * 620_448_401_733_239_439_360_000.0 == 1.0
    ensures InvFact(25) * 15_511_210_043_330_985_984_000_000.0 == 1.0
    ensures InvFact(26) * 403_291_461_126_605_635_584_000_000.0 == 1.0
    ensures InvFact(27) * 10_888_869_450_418_352_160_768_000_000.0 == 1.0
    ensures InvFact(28) * 304_888_344_611_713_860_501_504_000_000.0 == 1.0
    ensures InvFact(29) * 8_841_761_993_739_701_954_543_616_000_000.0 == 1.0
  {
    InvFacts2();
    InvFactStep(20, 2_432_902_008_176_640_000.0, 51_090_942_171_709_440_000.0);
    InvFactStep(21, 51_090_942_171_709_440_000.0, 1_124_000_727_777_607_680_000.0);
    InvFactStep(22, 1_124_000_727_777_607_680_000.0, 25_852_016_738_884_976_640_000.0);
    InvFactStep(23, 25_852_016_738_884_976_640_000.0, 620_448_401_733_239_439_360_000.0);
    InvFactStep(24, 620_448_401_733_239_439_360_000.0, 15_511_210_043_330_985_984_000_000.0);
    InvFactStep(25, 15_511_210_043_330_985_984_000_000.0, 403_291_461_126_605_635_584_000_000.0);
    InvFactStep(26, 403_291_461_126_605_635_584_000_000.0, 10_888_869_450_418_352_160_768_000_000.0);
    InvFactStep(27, 10_888_869_450_418_352_160_768_000_000.0, 304_888_344_611_713_860_501_504_000_000.0);
    InvFactStep(28, 304_888_344_611_713_860_501_504_000_000.0, 8_841_761_993_739_701_954_543_616_000_000.0);
  }

  lemma Start(s1: real, c1: real)
    requires AtOne(s1, c1)
    ensures Near(Point(s1, c1), S1, C1, 10.0)
  {
    InvFacts1(); InvFacts2(); InvFacts3();
  }

  // ---------- the rows ----------

  /** The bounds that put the integer part of 4294967296 times abs(x) at `t`, for an `x` close to `r`. */
  ghost predicate Between(r: real, e: real, t: int) {
    InUnits(t as real) <= 4294967296.0 * (Abs(r) - e) && 4294967296.0 * (Abs(r) + e) < InUnits((t + 1) as real)
  }

  lemma IntegerPart(x: real, r: real, e: real, t: int)
    requires Close(x, r, e) && Between(r, e, t)
    ensures (4294967296.0 * Abs(x)).Floor == t
  {
    assert Abs(r) - e <= Abs(x) * U <= Abs(r) + e;
    assert t as real <= 4294967296.0 * Abs(x) < (t + 1) as real;
  }

  /** Approximations of sine and cosine at some number, and the error allowed. */
  datatype Approx = Approx(s: real, c: real, e: real)

  /** The approximations `p` lead to the approximations `q` and to the integer part `t`. */
  ghost predicate Leads(p: Approx, q: Approx, t: int) {
    && 500.0 <= p.e && 1000.0 * p.e <= U && -1.1 * U <= p.s <= 1.1 * U && -1.1 * U <= p.c <= 1.1 * U
    && -U <= TimesCos(p.s) + TimesSin(p.c) - InUnits(q.s) <= U
    && -U <= TimesCos(p.c) - TimesSin(p.s) - InUnits(q.c) <= U
    && 1.5 * p.e <= q.e && Between(q.s, q.e, t)
  }

  lemma Next(p: Point, s1: real, c1: real, n: nat, s: real, c: real, e: real, r: real, q: real, d: real)
    requires Near(Point(s1, c1), S1, C1, 10.0) && Near(p, s, c, e)
    requires Leads(Approx(s, c, e), Approx(r, q, d), T(n) as int)
    ensures Near(Turned(p, s1, c1), r, q, d) && IsSine(Turned(p, s1, c1).sin, n)
  {
    TurnSin(p, s1, c1, s, c, e, r);
    TurnCos(p, s1, c1, s, c, e, q);
    IntegerPart(Turned(p, s1, c1).sin, r, d, T(n) as int);
  }

  ghost predicate Linked(ps: seq<Point>, s1: real, c1: real, n: nat)
    requires n + 1 < |ps|
  {
    ps[n + 1] == Turned(ps[n], s1, c1)
  }

  /** The points at 0 to 64. */
  ghost predicate Orbit(ps: seq<Point>, s1: real, c1: real) {
    && |ps| == 65 && ps[0] == Point(0.0, 1.0) && Near(Point(s1, c1), S1, C1, 10.0)
    && forall n :: 0 <= n < 64 ==> Linked(ps, s1, c1, n)
  }

  ghost predicate Known(ps: seq<Point>, n: nat, a: Approx)
    requires n < |ps|
  {
    Near(ps[n], a.s, a.c, a.e)
  }

  ghost predicate Right(ps: seq<Point>, n: nat)
    requires n + 1 < |ps|
  {
    IsSine(ps[n + 1].sin, n)
  }

  ghost predicate RightUpTo(ps: seq<Point>, m: nat)
    requires m < |ps|
  {
    forall n :: 0 <= n < m ==> Right(ps, n)
  }

  /** One row of the table: the approximations `a` lead to the approximations `b` and to the constant `t`. */
  lemma Row(ps: seq<Point>, s1: real, c1: real, n: nat, a: Approx, b: Approx, t: int)
    requires Orbit(ps, s1, c1) && n < 64 && Known(ps, n, a) && RightUpTo(ps, n)
    requires Leads(a, b, t) && T(n) as int == t
    ensures Known(ps, n + 1, b) && RightUpTo(ps, n + 1)
  {
    assert Linked(ps, s1, c1, n);
    Next(ps[n], s1, c1, n, a.s, a.c, a.e, b.s, b.c, b.e);
    assert Right(ps, n);
  }

  // Sine and cosine at 0 to 64, in units; the error grows by a half from each to the next.
  const A0 := Approx(0.0, 10_00000_00000_00000_00000_00000.0, 500.0)
  const A1 := Approx(8_41470_98480_78965_06652_50232.0, 5_40302_30586_81397_17400_93661.0, 750.0)
  const A2 := Approx(9_09297_42682_56816_95396_01987.0, -4_16146_83654_71423_86997_56822.0, 1125.0)
  const A3 := Approx(1_41120_00805_98672_22100_74482.0, -9_89992_49660_04454_57271_57279.0, 1688.0)
  const A4 := Approx(-7_56802_49530_79282_51372_63908.0, -6_53643_62086_36119_14639_16820.0, 2532.0)
  const A5 := Approx(-9_58924_27466_31384_68893_15441.0, 2_83662_18546_32262_64466_63915.0, 3798.0)
  const A6 := Approx(-2_79415_49819_89258_72811_55547.0, 9_60170_28665_03660_20545_65229.0, 5697.0)
  const A7 := Approx(6_56986_59871_87890_90396_99907.0, 7_53902_25434_33046_38141_19754.0, 8546.0)
  const A8 := Approx(9_89358_24662_33817_77808_12360.0, -1_45500_03380_86135_25868_84135.0, 12819.0)
  const A9 := Approx(4_12118_48524_17565_69756_27260.0, -9_11130_26188_46769_88368_29469.0, 19229.0)
  const A10 := Approx(-5_44021_11088_93698_13404_74762.0, -8_39071_52907_64524_52258_86397.0, 28844.0)
  const A11 := Approx(-9_99990_20655_07034_57051_56490.0, 4425_69798_80507_85748_35497.0, 43266.0)
  const A12 := Approx(-5_36572_91800_04349_71665_37428.0, 8_43853_95873_24921_04653_95526.0, 64899.0)
  const A13 := Approx(4_20167_03682_66409_21868_95498.0, 9_07446_78145_01962_13852_68618.0, 97349.0)
  const A14 := Approx(9_90607_35569_48703_07875_35479.0, 1_36737_21820_78335_94248_92894.0, 1_46024.0)
  const A15 := Approx(6_50287_84015_71168_65829_74032.0, -7_59687_91285_88212_73848_14636.0, 2_19036.0)
  const A16 := Approx(-2_87903_31666_50652_94784_45618.0, -9_57659_48032_33846_41899_63725.0, 3_28554.0)
  const A17 := Approx(-9_61397_49187_95568_57261_63692.0, -2_75163_33805_15969_22220_34273.0, 4_92831.0)
  const A18 := Approx(-7_50987_24677_16761_03750_15613.0, 6_60316_70824_40801_44816_09998.0, 7_39247.0)
  const A19 := Approx(1_49877_20966_29523_29754_23924.0, 9_88704_61818_66692_52898_35286.0, 11_08871.0)
  const A20 := Approx(9_12945_25072_76276_54376_09994.0, 4_08082_06181_33919_86062_26793.0, 16_63307.0)
  const A21 := Approx(8_36655_63853_60560_31866_48081.0, -5_47729_26022_42684_21384_27106.0, 24_94961.0)
  const A22 := Approx(-8851_30929_04038_75921_69017.0, -9_99960_82639_46371_26454_17473.0, 37_42442.0)
  const A23 := Approx(-8_46220_40417_51706_35241_32622.0, -5_32833_02033_33975_55215_75773.0, 56_13663.0)
  const A24 := Approx(-9_05578_36200_66238_45135_79339.0, 4_24179_00733_69969_75937_05086.0, 84_20495.0)
  const A25 := Approx(-1_32351_75009_77730_28902_00519.0, 9_91202_81186_34735_98083_29470.0, 126_30743.0)
  const A26 := Approx(7_62558_45047_96027_37515_82322.0, 6_46919_32232_86403_42721_38397.0, 189_46115.0)
  const A27 := Approx(9_56375_92840_45030_13432_34058.0, -2_92138_80873_38361_93371_40473.0, 284_19173.0)
  const A28 := Approx(2_70905_78830_78690_19986_34320.0, -9_62605_86631_35666_01975_45302.0, 426_28760.0)
  const A29 := Approx(-6_63633_88421_29675_02151_17325.0, -7_48057_52968_90003_51765_19186.0, 639_43140.0)
  const A30 := Approx(-9_88031_62409_28617_89987_74892.0, 1_54251_44988_75840_50718_66203.0, 959_14710.0)
  const A31 := Approx(-4_04037_64532_30650_06048_77101.0, 9_14742_35780_45312_78962_43577.0, 1438_72065.0)
  const A32 := Approx(5_51426_68124_16905_50661_55806.0, 8_34223_36050_65102_72215_52654.0, 2158_08098.0)
  const A33 := Approx(9_99911_86010_72671_45728_08438.0, -13276_74722_30594_78915_21990.0, 3237_12147.0)
  const A34 := Approx(5_29082_68612_00238_20832_48725.0, -8_48570_27478_46051_86599_97202.0, 4855_68221.0)
  const A35 := Approx(-4_28182_66949_61510_04406_75277.0, -9_03692_20509_15067_59847_30463.0, 7283_52332.0)
  const A36 := Approx(-9_91778_85344_31157_36835_28895.0, -1_27963_68962_74046_81028_32811.0, 10925_28498.0)
  const A37 := Approx(-6_43538_13335_69994_60685_67012.0, 7_65414_05194_53433_56491_08120.0, 16387_92747.0)
  const A38 := Approx(2_96368_57870_93853_17392_29651.0, 9_55073_64404_72948_57586_53627.0, 24581_89121.0)
  const A39 := Approx(9_63795_38628_40877_53260_66492.0, 2_66642_93235_99372_51526_82593.0, 36872_83682.0)
  const A40 := Approx(7_45113_16047_93487_86987_70949.0, -6_66938_06165_22618_44384_09266.0, 55309_25523.0)
  const A41 := Approx(-1_58622_66880_47089_87103_31686.0, -9_87339_27752_38264_58228_82514.0, 82963_88285.0)
  const A42 := Approx(-9_16521_54791_56337_85898_98908.0, -3_99985_31498_83512_93954_70747.0, 1_24445_82428.0)
  const A43 := Approx(-8_31774_74262_85982_88209_57833.0, 5_55113_30152_06256_77044_87930.0, 1_86668_73642.0)
  const A44 := Approx(17701_92510_54135_77807_95389.0, 9_99843_30864_76912_20069_00900.0, 2_80003_10463.0)
  const A45 := Approx(8_50903_52453_41184_24862_37957.0, 5_25321_98881_77296_96047_46454.0, 4_20004_65695.0)
  const A46 := Approx(9_01788_34764_88091_85033_29310.0, -4_32177_94488_47782_94952_77636.0, 6_30006_98543.0)
  const A47 := Approx(1_23573_12274_52240_04061_52952.0, -9_92335_46915_09287_18279_75238.0, 9_45010_47815.0)
  const A48 := Approx(-7_68254_66132_36667_99044_96554.0, -6_40144_33946_91997_31312_94154.0, 14_17515_71723.0)
  const A49 := Approx(-9_53752_65275_94718_18360_42359.0, 3_00592_54374_36370_83687_02583.0, 21_26273_57585.0)
  const A50 := Approx(-2_62374_85370_39287_85914_39381.0, 9_64966_02849_21132_74068_95699.0, 31_89410_36378.0)
  const A51 := Approx(6_70229_17584_33747_34494_34493.0, 7_42154_19681_37825_39467_37728.0, 47_84115_54567.0)
  const A52 := Approx(9_86627_59204_04852_96587_56894.0, -1_62990_78079_57054_81003_32963.0, 71_76173_31851.0)
  const A53 := Approx(3_95925_15018_18341_81503_38630.0, -9_18282_78621_21188_91199_72623.0, 107_64259_97777.0)
  const A54 := Approx(-5_58789_04885_16162_45817_87115.0, -8_29309_83286_31501_47727_85013.0, 161_46389_96666.0)
  const A55 := Approx(-9_99755_17335_86198_36598_63167.0, 22126_75626_19557_34563_56407.0, 242_19584_94999.0)
  const A56 := Approx(-5_21551_00208_69118_80187_41018.0, 8_53220_10772_25841_13969_68112.0, 363_29377_42499.0)
  const A57 := Approx(4_36164_75524_78249_59080_53461.0, 8_99866_82696_91937_86503_00048.0, 544_94066_13749.0)
  const A58 := Approx(9_92872_64808_45371_18165_08813.0, 1_19180_13544_88192_85435_84381.0, 817_41099_20624.0)
  const A59 := Approx(6_36738_00713_91378_80771_23364.0, -7_71080_22297_58452_29387_43516.0, 1226_11648_80936.0)
  const A60 := Approx(-3_04810_62110_22167_05625_64927.0, -9_52412_98041_51562_92693_81665.0, 1839_17473_21404.0)
  const A61 := Approx(-9_66117_77000_83929_47018_28793.0, -2_58101_63593_82674_45701_20754.0, 2758_76209_82106.0)
  const A62 := Approx(-7_39180_69664_92228_67276_01707.0, 6_73507_16232_35862_52887_83325.0, 4138_14314_73159.0)
  const A63 := Approx(1_67355_70030_28069_21527_83816.0, 9_85896_58158_25496_97438_63579.0, 6207_21472_09739.0)
  const A64 := Approx(9_20026_03819_67906_83351_53652.0, 3_91857_23042_95500_05161_71006.0, 9310_82208_14609.0)

  lemma Rows1(ps: seq<Point>, s1: real, c1: real)
    requires Orbit(ps, s1, c1) && Known(ps, 0, A0) && RightUpTo(ps, 0)
    ensures Known(ps, 4, A4) && RightUpTo(ps, 4)
  {
    Row(ps, s1, c1, 0, A0, A1, 0xD76A_A478);
    Row(ps, s1, c1, 1, A1, A2, 0xE8C7_B756);
    Row(ps, s1, c1, 2, A2, A3, 0x2420_70DB);
    Row(ps, s1, c1, 3, A3, A4, 0xC1BD_CEEE);
  }

  lemma Rows2(ps: seq<Point>, s1: real, c1: real)
    requires Orbit(ps, s1, c1) && Known(ps, 4, A4) && RightUpTo(ps, 4)
    ensures Known(ps, 8, A8) && RightUpTo(ps, 8)
  {
    Row(ps, s1, c1, 4, A4, A5, 0xF57C_0FAF);
    Row(ps, s1, c1, 5, A5, A6, 0x4787_C62A);
    Row(ps, s1, c1, 6, A6, A7, 0xA830_4613);
    Row(ps, s1, c1, 7, A7, A8, 0xFD46_9501);
  }

  lemma Rows3(ps: seq<Point>, s1: real, c1: real)
    requires Orbit(ps, s1, c1) && Known(ps, 8, A8) && RightUpTo(ps, 8)
    ensures Known(ps, 12, A12) && RightUpTo(ps, 12)
  {
    Row(ps, s1, c1, 8, A8, A9, 0x6980_98D8);
    Row(ps, s1, c1, 9, A9, A10, 0x8B44_F7AF);
    Row(ps, s1, c1, 10, A10, A11, 0xFFFF_5BB1);
    Row(ps, s1, c1, 11, A11, A12, 0x895C_D7BE);
  }

  lemma Rows4(ps: seq<Point>, s1: real, c1: real)
    requires Orbit(ps, s1, c1) && Known(ps, 12, A12) && RightUpTo(ps, 12)
    ensures Known(ps, 16, A16) && RightUpTo(ps, 16)
  {
    Row(ps, s1, c1, 12, A12, A13, 0x6B90_1122);
    Row(ps, s1, c1, 13, A13, A14, 0xFD98_7193);
    Row(ps, s1, c1, 14, A14, A15, 0xA679_438E);
    Row(ps, s1, c1, 15, A15, A16, 0x49B4_0821);
  }

  lemma Rows5(ps: seq<Point>, s1: real, c1: real)
    requires Orbit(ps, s1, c1) && Known(ps, 16, A16) && RightUpTo(ps, 16)
    ensures Known(ps, 20, A20) && RightUpTo(ps, 20)
  {
    Row(ps, s1, c1, 16, A16, A17, 0xF61E_2562);
    Row(ps, s1, c1, 17, A17, A18, 0xC040_B340);
    Row(ps, s1, c1, 18, A18, A19, 0x265E_5A51);
    Row(ps, s1, c1, 19, A19, A20, 0xE9B6_C7AA);
  }

  lemma Rows6(ps: seq<Point>, s1: real, c1: real)
    requires Orbit(ps, s1, c1) && Known(ps, 20, A20) && RightUpTo(ps, 20)
    ensures Known(ps, 24, A24) && RightUpTo(ps, 24)
  {
    Row(ps, s1, c1, 20, A20, A21, 0xD62F_105D);
    Row(ps, s1, c1, 21, A21, A22, 0x0244_1453);
    Row(ps, s1, c1, 22, A22, A23, 0xD8A1_E681);
    Row(ps, s1, c1, 23, A23, A24, 0xE7D3_FBC8);
  }

  lemma Rows7(ps: seq<Point>, s1: real, c1: real)
    requires Orbit(ps, s1, c1) && Known(ps, 24, A24) && RightUpTo(ps, 24)
    ensures Known(ps, 28, A28) && RightUpTo(ps, 28)
  {
    Row(ps, s1, c1, 24, A24, A25, 0x21E1_CDE6);
    Row(ps, s1, c1, 25, A25, A26, 0xC337_07D6);
    Row(ps, s1, c1, 26, A26, A27, 0xF4D5_0D87);
    Row(ps, s1, c1, 27, A27, A28, 0x455A_14ED);
  }

  lemma Rows8(ps: seq<Point>, s1: real, c1: real)
    requires Orbit(ps, s1, c1) && Known(ps, 28, A28) && RightUpTo(ps, 28)
    ensures Known(ps, 32, A32) && RightUpTo(ps, 32)
  {
    Row(ps, s1, c1, 28, A28, A29, 0xA9E3_E905);
    Row(ps, s1, c1, 29, A29, A30, 0xFCEF_A3F8);
    Row(ps, s1, c1, 30, A30, A31, 0x676F_02D9);
    Row(ps, s1, c1, 31, A31, A32, 0x8D2A_4C8A);
  }

  lemma Rows9(ps: seq<Point>, s1: real, c1: real)
    requires Orbit(ps, s1, c1) && Known(ps, 32, A32) && RightUpTo(ps, 32)
    ensures Known(ps, 36, A36) && RightUpTo(ps, 36)
  {
    Row(ps, s1, c1, 32, A32, A33, 0xFFFA_3942);
    Row(ps, s1, c1, 33, A33, A34, 0x8771_F681);
    Row(ps, s1, c1, 34, A34, A35, 0x6D9D_6122);
    Row(ps, s1, c1, 35, A35, A36, 0xFDE5_380C);
  }

  lemma Rows10(ps: seq<Point>, s1: real, c1: real)
    requires Orbit(ps, s1, c1) && Known(ps, 36, A36) && RightUpTo(ps, 36)
    ensures Known(ps, 40, A40) && RightUpTo(ps, 40)
  {
    Row(ps, s1, c1, 36, A36, A37, 0xA4BE_EA44);
    Row(ps, s1, c1, 37, A37, A38, 0x4BDE_CFA9);
    Row(ps, s1, c1, 38, A38, A39, 0xF6BB_4B60);
    Row(ps, s1, c1, 39, A39, A40, 0xBEBF_BC70);
  }

  lemma Rows11(ps: seq<Point>, s1: real, c1: real)
    requires Orbit(ps, s1, c1) && Known(ps, 40, A40) && RightUpTo(ps, 40)
    ensures Known(ps, 44, A44) && RightUpTo(ps, 44)
  {
    Row(ps, s1, c1, 40, A40, A41, 0x289B_7EC6);
    Row(ps, s1, c1, 41, A41, A42, 0xEAA1_27FA);
    Row(ps, s1, c1, 42, A42, A43, 0xD4EF_3085);
    Row(ps, s1, c1, 43, A43, A44, 0x0488_1D05);
  }

  lemma Rows12(ps: seq<Point>, s1: real, c1: real)
    requires Orbit(ps, s1, c1) && Known(ps, 44, A44) && RightUpTo(ps, 44)
    ensures Known(ps, 48, A48) && RightUpTo(ps, 48)
  {
    Row(ps, s1, c1, 44, A44, A45, 0xD9D4_D039);
    Row(ps, s1, c1, 45, A45, A46, 0xE6DB_99E5);
    Row(ps, s1, c1, 46, A46, A47, 0x1FA2_7CF8);
    Row(ps, s1, c1, 47, A47, A48, 0xC4AC_5665);
  }

  lemma Rows13(ps: seq<Point>, s1: real, c1: real)
    requires Orbit(ps, s1, c1) && Known(ps, 48, A48) && RightUpTo(ps, 48)
    ensures Known(ps, 52, A52) && RightUpTo(ps, 52)
  {
    Row(ps, s1, c1, 48, A48, A49, 0xF429_2244);
    Row(ps, s1, c1, 49, A49, A50, 0x432A_FF97);
    Row(ps, s1, c1, 50, A50, A51, 0xAB94_23A7);
    Row(ps, s1, c1, 51, A51, A52, 0xFC93_A039);
  }

  lemma Rows14(ps: seq<Point>, s1: real, c1: real)
    requires Orbit(ps, s1, c1) && Known(ps, 52, A52) && RightUpTo(ps, 52)
    ensures Known(ps, 56, A56) && RightUpTo(ps, 56)
  {
    Row(ps, s1, c1, 52, A52, A53, 0x655B_59C3);
    Row(ps, s1, c1, 53, A53, A54, 0x8F0C_CC92);
    Row(ps, s1, c1, 54, A54, A55, 0xFFEF_F47D);
    Row(ps, s1, c1, 55, A55, A56, 0x8584_5DD1);
  }

  lemma Rows15(ps: seq<Point>, s1: real, c1: real)
    requires Orbit(ps, s1, c1) && Known(ps, 56, A56) && RightUpTo(ps, 56)
    ensures Known(ps, 60, A60) && RightUpTo(ps, 60)
  {
    Row(ps, s1, c1, 56, A56, A57, 0x6FA8_7E4F);
    Row(ps, s1, c1, 57, A57, A58, 0xFE2C_E6E0);
    Row(ps, s1, c1, 58, A58, A59, 0xA301_4314);
    Row(ps, s1, c1, 59, A59, A60, 0x4E08_11A1);
  }

  lemma Rows16(ps: seq<Point>, s1: real, c1: real)
    requires Orbit(ps, s1, c1) && Known(ps, 60, A60) && RightUpTo(ps, 60)
    ensures Known(ps, 64, A64) && RightUpTo(ps, 64)
  {
    Row(ps, s1, c1, 60, A60, A61, 0xF753_7E82);
    Row(ps, s1, c1, 61, A61, A62, 0xBD3A_F235);
    Row(ps, s1, c1, 62, A62, A63, 0x2AD7_D2BB);
    Row(ps, s1, c1, 63, A63, A64, 0xEB86_D391);
  }

  lemma AllRows(ps: seq<Point>, s1: real, c1: real)
    requires Orbit(ps, s1, c1)
    ensures RightUpTo(ps, 64)
  {
    Rows1(ps, s1, c1);
    Rows2(ps, s1, c1);
    Rows3(ps, s1, c1);
    Rows4(ps, s1, c1);
    Rows5(ps, s1, c1);
    Rows6(ps, s1, c1);
    Rows7(ps, s1, c1);
    Rows8(ps, s1, c1);
    Rows9(ps, s1, c1);
    Rows10(ps, s1, c1);
    Rows11(ps, s1, c1);
    Rows12(ps, s1, c1);
    Rows13(ps, s1, c1);
    Rows14(ps, s1, c1);
    Rows15(ps, s1, c1);
    Rows16(ps, s1, c1);
  }

  /** The table of the standard, row by row. */
  lemma TableIsSine(s1: real, c1: real, i: nat)
    requires AtOne(s1, c1) && i < 64
    ensures IsSine(At(s1, c1, i + 1).sin, i)
  {
    Start(s1, c1);
    var ps := seq(65, n requires 0 <= n < 65 => At(s1, c1, n));
    assert forall n :: 0 <= n < 64 ==> Linked(ps, s1, c1, n);
    AllRows(ps, s1, c1);
    assert Right(ps, i);
  }

  /** The same from the partial sums themselves, as soon as they have fourteen terms. */
  lemma TableFromSeries(m: nat, k: nat, i: nat)
    requires m >= 14 && k >= 14 && i < 64
    ensures IsSine(At(Partial(1, m), Partial(0, k), i + 1).sin, i)
  {
    SumsAtOne(m, k);
    TableIsSine(Partial(1, m), Partial(0, k), i);
  }
}
