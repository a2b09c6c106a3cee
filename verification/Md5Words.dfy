/** cpp/datastructure/hash/md5.cc: the block function.  The source keeps its 32-bit words in 64-bit
    `unsigned long`s and lets the upper halves run wild; `Low` is the half that counts. */
module Md5Words {
  import opened Md5Spec

  // ---------- wide words ----------

  function Low(x: bv64): bv32 { (x & 0xFFFF_FFFF) as bv32 }

  /** The source's rotation. */
  function S(x: bv64, n: bv8): bv64
    requires 1 <= n <= 31
  {
    (x << n) | ((x & 0xFFFF_FFFF) >> (32 - n))
  }

  /** The source's four definitions of F. */
  function F(round: nat, x: bv64, y: bv64, z: bv64): bv64 {
    match round
    case 0 => z ^ (x & (y ^ z))
    case 1 => y ^ (z & (x ^ y))
    case 2 => x ^ y ^ z
    case _ => y ^ (x | !z)
  }

  lemma LowIs(x: bv64)
    ensures Low(x) == (x & 0xFFFF_FFFF) as bv32
  {}

  lemma SIs(x: bv64, n: bv8)
    requires 1 <= n <= 31
    ensures S(x, n) == (x << n) | ((x & 0xFFFF_FFFF) >> (32 - n))
  {}

  lemma RotlIs(x: bv32, n: bv8)
    requires 1 <= n <= 31
    ensures Rotl(x, n) == (x << n) | (x >> (32 - n))
  {}

  // The facts about bits, with every intermediate value named.

  lemma AddBits(a: bv64, b: bv64, la: bv32, lb: bv32, ls: bv32)
    requires la == (a & 0xFFFF_FFFF) as bv32 && lb == (b & 0xFFFF_FFFF) as bv32 && ls == ((a + b) & 0xFFFF_FFFF) as bv32
    ensures ls == la + lb
  {}

  lemma RotateBits(x: bv64, n: bv8, s: bv64, l: bv32, ls: bv32)
    requires 1 <= n <= 31 && s == (x << n) | ((x & 0xFFFF_FFFF) >> (32 - n))
    requires l == (x & 0xFFFF_FFFF) as bv32 && ls == (s & 0xFFFF_FFFF) as bv32
    ensures ls == (l << n) | (l >> (32 - n))
  {}

  /** `l` is the lower half of `x`. */
  ghost predicate Half(l: bv32, x: bv64) { l == (x & 0xFFFF_FFFF) as bv32 }

  lemma AuxBits0(x: bv64, y: bv64, z: bv64, f: bv64, lx: bv32, ly: bv32, lz: bv32, lf: bv32)
    requires Half(lx, x) && Half(ly, y) && Half(lz, z) && Half(lf, f) && f == z ^ (x & (y ^ z))
    ensures lf == (lx & ly) | (!lx & lz)
  {}

  lemma AuxBits1(x: bv64, y: bv64, z: bv64, f: bv64, lx: bv32, ly: bv32, lz: bv32, lf: bv32)
    requires Half(lx, x) && Half(ly, y) && Half(lz, z) && Half(lf, f) && f == y ^ (z & (x ^ y))
    ensures lf == (lx & lz) | (ly & !lz)
  {}

  lemma AuxBits2(x: bv64, y: bv64, z: bv64, f: bv64, lx: bv32, ly: bv32, lz: bv32, lf: bv32)
    requires Half(lx, x) && Half(ly, y) && Half(lz, z) && Half(lf, f) && f == x ^ y ^ z
    ensures lf == lx ^ ly ^ lz
  {}

  lemma AuxBits3(x: bv64, y: bv64, z: bv64, f: bv64, lx: bv32, ly: bv32, lz: bv32, lf: bv32)
    requires Half(lx, x) && Half(ly, y) && Half(lz, z) && Half(lf, f) && f == y ^ (x | !z)
    ensures lf == ly ^ (lx | !lz)
  {}

  /** 64-bit addition. */
  function Add(x: bv64, y: bv64): bv64 { x + y }

  lemma AddIs(x: bv64, y: bv64)
    ensures Add(x, y) == x + y
  {}

  lemma PlusIs(x: bv32, y: bv32)
    ensures Plus(x, y) == x + y
  {}

  lemma LowSum(a: bv64, b: bv64)
    ensures Low(a + b) == Low(a) + Low(b)
  {
    AddBits(a, b, Low(a), Low(b), Low(a + b));
  }

  lemma LowAdd(a: bv64, b: bv64)
    ensures Low(Add(a, b)) == Plus(Low(a), Low(b))
  {
    LowSum(a, b);
    AddIs(a, b);
    PlusIs(Low(a), Low(b));
  }

  /** Rotating a wide word rotates its lower half. */
  lemma LowRotate(x: bv64, n: bv8)
    requires 1 <= n <= 31
    ensures Low(S(x, n)) == Rotl(Low(x), n)
  {
    var s := S(x, n);
    var l, ls := Low(x), Low(s);
    SIs(x, n);
    LowIs(x);
    LowIs(s);
    RotateBits(x, n, s, l, ls);
    RotlIs(l, n);
  }

  lemma F0Is(x: bv64, y: bv64, z: bv64)
    ensures F(0, x, y, z) == z ^ (x & (y ^ z))
  {}

  lemma F1Is(x: bv64, y: bv64, z: bv64)
    ensures F(1, x, y, z) == y ^ (z & (x ^ y))
  {}

  lemma F2Is(x: bv64, y: bv64, z: bv64)
    ensures F(2, x, y, z) == x ^ y ^ z
  {}

  lemma F3Is(round: nat, x: bv64, y: bv64, z: bv64)
    requires round >= 3
    ensures F(round, x, y, z) == y ^ (x | !z)
  {}

  lemma Aux0Is(x: bv32, y: bv32, z: bv32)
    ensures Aux(0, x, y, z) == (x & y) | (!x & z)
  {}

  lemma Aux1Is(x: bv32, y: bv32, z: bv32)
    ensures Aux(1, x, y, z) == (x & z) | (y & !z)
  {}

  lemma Aux2Is(x: bv32, y: bv32, z: bv32)
    ensures Aux(2, x, y, z) == x ^ y ^ z
  {}

  lemma Aux3Is(round: nat, x: bv32, y: bv32, z: bv32)
    requires round >= 3
    ensures Aux(round, x, y, z) == y ^ (x | !z)
  {}

  /** The source's forms of F compute the functions of the standard. */
  lemma LowAux(round: nat, x: bv64, y: bv64, z: bv64)
    ensures Low(F(round, x, y, z)) == Aux(round, Low(x), Low(y), Low(z))
  {
    var f := F(round, x, y, z);
    var lx, ly, lz, lf := Low(x), Low(y), Low(z), Low(f);
    LowIs(x);
    LowIs(y);
    LowIs(z);
    LowIs(f);
    if round == 0 {
      F0Is(x, y, z);
      AuxBits0(x, y, z, f, lx, ly, lz, lf);
      Aux0Is(lx, ly, lz);
    } else if round == 1 {
      F1Is(x, y, z);
      AuxBits1(x, y, z, f, lx, ly, lz, lf);
      Aux1Is(lx, ly, lz);
    } else if round == 2 {
      F2Is(x, y, z);
      AuxBits2(x, y, z, f, lx, ly, lz, lf);
      Aux2Is(lx, ly, lz);
    } else {
      F3Is(round, x, y, z);
      AuxBits3(x, y, z, f, lx, ly, lz, lf);
      Aux3Is(round, lx, ly, lz);
    }
  }

  /** One macro step on wide words. */
  function Wide(round: nat, a: bv64, b: bv64, c: bv64, d: bv64, x: bv64, s: bv8, t: bv64): bv64
    requires 1 <= s <= 31
  {
    Add(S(Add(Add(Add(a, F(round, b, c, d)), x), t), s), b)
  }

  /** Bits above 31 do not matter: the lower half of a step is the step on lower halves. */
  lemma LowStep(round: nat, a: bv64, b: bv64, c: bv64, d: bv64, x: bv64, s: bv8, t: bv64)
    requires 1 <= s <= 31
    ensures Low(Wide(round, a, b, c, d, x, s, t)) == Op(round, Low(a), Low(b), Low(c), Low(d), Low(x), s, Low(t))
  {
    var f := F(round, b, c, d);
    var u := Add(a, f);
    var v := Add(u, x);
    var y := Add(v, t);
    LowAux(round, b, c, d);
    LowAdd(a, f);
    LowAdd(u, x);
    LowAdd(v, t);
    LowRotate(y, s);
    LowAdd(S(y, s), b);
  }

  lemma LowNarrow(t: bv32)
    ensures Low(t as bv64) == t
  {}

  // ---------- the macro calls ----------

  /** The last three arguments of the macro calls in order: word, shift and constant. */
  function Row(i: nat): (nat, bv8, bv32) {
    if i < 16 then Row1(i) else if i < 32 then Row2(i - 16) else if i < 48 then Row3(i - 32) else Row4(i - 48)
  }

  function Row1(j: int): (nat, bv8, bv32) {
    match j
    case 0 => (0, 7, 0xD76A_A478)
    case 1 => (1, 12, 0xE8C7_B756)
    case 2 => (2, 17, 0x2420_70DB)
    case 3 => (3, 22, 0xC1BD_CEEE)
    case 4 => (4, 7, 0xF57C_0FAF)
    case 5 => (5, 12, 0x4787_C62A)
    case 6 => (6, 17, 0xA830_4613)
    case 7 => (7, 22, 0xFD46_9501)
    case 8 => (8, 7, 0x6980_98D8)
    case 9 => (9, 12, 0x8B44_F7AF)
    case 10 => (10, 17, 0xFFFF_5BB1)
    case 11 => (11, 22, 0x895C_D7BE)
    case 12 => (12, 7, 0x6B90_1122)
    case 13 => (13, 12, 0xFD98_7193)
    case 14 => (14, 17, 0xA679_438E)
    case _ => (15, 22, 0x49B4_0821)
  }

  function Row2(j: int): (nat, bv8, bv32) {
    match j
    case 0 => (1, 5, 0xF61E_2562)
    case 1 => (6, 9, 0xC040_B340)
    case 2 => (11, 14, 0x265E_5A51)
    case 3 => (0, 20, 0xE9B6_C7AA)
    case 4 => (5, 5, 0xD62F_105D)
    case 5 => (10, 9, 0x0244_1453)
    case 6 => (15, 14, 0xD8A1_E681)
    case 7 => (4, 20, 0xE7D3_FBC8)
    case 8 => (9, 5, 0x21E1_CDE6)
    case 9 => (14, 9, 0xC337_07D6)
    case 10 => (3, 14, 0xF4D5_0D87)
    case 11 => (8, 20, 0x455A_14ED)
    case 12 => (13, 5, 0xA9E3_E905)
    case 13 => (2, 9, 0xFCEF_A3F8)
    case 14 => (7, 14, 0x676F_02D9)
    case _ => (12, 20, 0x8D2A_4C8A)
  }

  function Row3(j: int): (nat, bv8, bv32) {
    match j
    case 0 => (5, 4, 0xFFFA_3942)
    case 1 => (8, 11, 0x8771_F681)
    case 2 => (11, 16, 0x6D9D_6122)
    case 3 => (14, 23, 0xFDE5_380C)
    case 4 => (1, 4, 0xA4BE_EA44)
    case 5 => (4, 11, 0x4BDE_CFA9)
    case 6 => (7, 16, 0xF6BB_4B60)
    case 7 => (10, 23, 0xBEBF_BC70)
    case 8 => (13, 4, 0x289B_7EC6)
    case 9 => (0, 11, 0xEAA1_27FA)
    case 10 => (3, 16, 0xD4EF_3085)
    case 11 => (6, 23, 0x0488_1D05)
    case 12 => (9, 4, 0xD9D4_D039)
    case 13 => (12, 11, 0xE6DB_99E5)
    case 14 => (15, 16, 0x1FA2_7CF8)
    case _ => (2, 23, 0xC4AC_5665)
  }

  function Row4(j: int): (nat, bv8, bv32) {
    match j
    case 0 => (0, 6, 0xF429_2244)
    case 1 => (7, 10, 0x432A_FF97)
    case 2 => (14, 15, 0xAB94_23A7)
    case 3 => (5, 21, 0xFC93_A039)
    case 4 => (12, 6, 0x655B_59C3)
    case 5 => (3, 10, 0x8F0C_CC92)
    case 6 => (10, 15, 0xFFEF_F47D)
    case 7 => (1, 21, 0x8584_5DD1)
    case 8 => (8, 6, 0x6FA8_7E4F)
    case 9 => (15, 10, 0xFE2C_E6E0)
    case 10 => (6, 15, 0xA301_4314)
    case 11 => (13, 21, 0x4E08_11A1)
    case 12 => (4, 6, 0xF753_7E82)
    case 13 => (11, 10, 0xBD3A_F235)
    case 14 => (2, 15, 0x2AD7_D2BB)
    case _ => (9, 21, 0xEB86_D391)
  }

  lemma Rows1(j: nat)
    requires j < 16
    ensures Row1(j) == (WordIndex(0 + j), Shift(0 + j), T1(j))
  {}

  lemma Rows2(j: nat)
    requires j < 16
    ensures Row2(j) == (WordIndex(16 + j), Shift(16 + j), T2(j))
  {}

  lemma Rows3(j: nat)
    requires j < 16
    ensures Row3(j) == (WordIndex(32 + j), Shift(32 + j), T3(j))
  {}

  lemma Rows4(j: nat)
    requires j < 16
    ensures Row4(j) == (WordIndex(48 + j), Shift(48 + j), T4(j))
  {}

  /** The source's tables are those of the standard. */
  lemma RowAgrees(i: nat)
    requires i < 64
    ensures Row(i) == (WordIndex(i), Shift(i), T(i)) && Row(i).0 < 16
  {
    if i < 16 { Rows1(i); } else if i < 32 { Rows2(i - 16); } else if i < 48 { Rows3(i - 32); } else { Rows4(i - 48); }
  }

  // ---------- the rounds ----------

  /** The words read from the block, and what they stand for. */
  ghost predicate Reads(x: seq<bv64>, w: seq<bv32>) {
    |x| == |w| == 16 && forall k :: 0 <= k < 16 ==> Low(x[k]) == w[k]
  }

  /** `rs` lists the states after each operation of the standard. */
  ghost predicate Trace(rs: seq<Regs>, w: seq<bv32>) {
    |w| == 16 && |rs| == 65 && forall i {:trigger Step(i, rs[i], w)} :: 0 <= i < 64 ==> rs[i + 1] == Step(i, rs[i], w)
  }

  /** The registers hold the state `r`. */
  ghost predicate Holds(a: bv64, b: bv64, c: bv64, d: bv64, r: Regs) { Regs(Low(a), Low(b), Low(c), Low(d)) == r }

  lemma {:induction false} TraceSteps(rs: seq<Regs>, w: seq<bv32>, i: nat)
    requires Trace(rs, w) && i <= 64
    ensures rs[i] == Steps(rs[0], w, i)
  {
    if i > 0 {
      TraceSteps(rs, w, i - 1);
      assert rs[i - 1 + 1] == Step(i - 1, rs[i - 1], w);
    }
  }

  lemma StepIs(i: nat, r: Regs, w: seq<bv32>)
    requires |w| == 16 && i < 64
    ensures Step(i, r, w) == Regs(r.d, Op(i / 16, r.a, r.b, r.c, r.d, w[WordIndex(i)], Shift(i), T(i)), r.b, r.c)
  {}

  /** The macro P: call `i`, on the register whose turn it is. */
  method P(i: nat, a: bv64, b: bv64, c: bv64, d: bv64, x: seq<bv64>, ghost rs: seq<Regs>, ghost w: seq<bv32>)
        returns (v: bv64)
    requires Reads(x, w) && Trace(rs, w) && i < 64 && Holds(a, b, c, d, rs[i])
    ensures Holds(d, v, b, c, rs[i + 1])
  {
    RowAgrees(i);
    var (k, s, t) := Row(i);
    v := Wide(i / 16, a, b, c, d, x[k], s, t as bv64);
    LowStep(i / 16, a, b, c, d, x[k], s, t as bv64);
    LowNarrow(t);
    StepIs(i, rs[i], w);
  }

  /** Round 1: the register values of the source, and how far along they are. */
  method Round1(a: bv64, b: bv64, c: bv64, d: bv64, x: seq<bv64>, ghost rs: seq<Regs>, ghost w: seq<bv32>)
      returns (A: bv64, B: bv64, C: bv64, D: bv64)
    requires Reads(x, w) && Trace(rs, w) && Holds(a, b, c, d, rs[0])
    ensures Holds(A, B, C, D, rs[16])
  {
    A, B, C, D := a, b, c, d;
    A := P(0, A, B, C, D, x, rs, w);
    D := P(1, D, A, B, C, x, rs, w);
    C := P(2, C, D, A, B, x, rs, w);
    B := P(3, B, C, D, A, x, rs, w);
    A := P(4, A, B, C, D, x, rs, w);
    D := P(5, D, A, B, C, x, rs, w);
    C := P(6, C, D, A, B, x, rs, w);
    B := P(7, B, C, D, A, x, rs, w);
    A := P(8, A, B, C, D, x, rs, w);
    D := P(9, D, A, B, C, x, rs, w);
    C := P(10, C, D, A, B, x, rs, w);
    B := P(11, B, C, D, A, x, rs, w);
    A := P(12, A, B, C, D, x, rs, w);
    D := P(13, D, A, B, C, x, rs, w);
    C := P(14, C, D, A, B, x, rs, w);
    B := P(15, B, C, D, A, x, rs, w);
  }

  /** Round 2: the register values of the source, and how far along they are. */
  method Round2(a: bv64, b: bv64, c: bv64, d: bv64, x: seq<bv64>, ghost rs: seq<Regs>, ghost w: seq<bv32>)
      returns (A: bv64, B: bv64, C: bv64, D: bv64)
    requires Reads(x, w) && Trace(rs, w) && Holds(a, b, c, d, rs[16])
    ensures Holds(A, B, C, D, rs[32])
  {
    A, B, C, D := a, b, c, d;
    A := P(16, A, B, C, D, x, rs, w);
    D := P(17, D, A, B, C, x, rs, w);
    C := P(18, C, D, A, B, x, rs, w);
    B := P(19, B, C, D, A, x, rs, w);
    A := P(20, A, B, C, D, x, rs, w);
    D := P(21, D, A, B, C, x, rs, w);
    C := P(22, C, D, A, B, x, rs, w);
    B := P(23, B, C, D, A, x, rs, w);
    A := P(24, A, B, C, D, x, rs, w);
    D := P(25, D, A, B, C, x, rs, w);
    C := P(26, C, D, A, B, x, rs, w);
    B := P(27, B, C, D, A, x, rs, w);
    A := P(28, A, B, C, D, x, rs, w);
    D := P(29, D, A, B, C, x, rs, w);
    C := P(30, C, D, A, B, x, rs, w);
    B := P(31, B, C, D, A, x, rs, w);
  }

  /** Round 3: the register values of the source, and how far along they are. */
  method Round3(a: bv64, b: bv64, c: bv64, d: bv64, x: seq<bv64>, ghost rs: seq<Regs>, ghost w: seq<bv32>)
      returns (A: bv64, B: bv64, C: bv64, D: bv64)
    requires Reads(x, w) && Trace(rs, w) && Holds(a, b, c, d, rs[32])
    ensures Holds(A, B, C, D, rs[48])
  {
    A, B, C, D := a, b, c, d;
    A := P(32, A, B, C, D, x, rs, w);
    D := P(33, D, A, B, C, x, rs, w);
    C := P(34, C, D, A, B, x, rs, w);
    B := P(35, B, C, D, A, x, rs, w);
    A := P(36, A, B, C, D, x, rs, w);
    D := P(37, D, A, B, C, x, rs, w);
    C := P(38, C, D, A, B, x, rs, w);
    B := P(39, B, C, D, A, x, rs, w);
    A := P(40, A, B, C, D, x, rs, w);
    D := P(41, D, A, B, C, x, rs, w);
    C := P(42, C, D, A, B, x, rs, w);
    B := P(43, B, C, D, A, x, rs, w);
    A := P(44, A, B, C, D, x, rs, w);
    D := P(45, D, A, B, C, x, rs, w);
    C := P(46, C, D, A, B, x, rs, w);
    B := P(47, B, C, D, A, x, rs, w);
  }

  /** Round 4: the register values of the source, and how far along they are. */
  method Round4(a: bv64, b: bv64, c: bv64, d: bv64, x: seq<bv64>, ghost rs: seq<Regs>, ghost w: seq<bv32>)
      returns (A: bv64, B: bv64, C: bv64, D: bv64)
    requires Reads(x, w) && Trace(rs, w) && Holds(a, b, c, d, rs[48])
    ensures Holds(A, B, C, D, rs[64])
  {
    A, B, C, D := a, b, c, d;
    A := P(48, A, B, C, D, x, rs, w);
    D := P(49, D, A, B, C, x, rs, w);
    C := P(50, C, D, A, B, x, rs, w);
    B := P(51, B, C, D, A, x, rs, w);
    A := P(52, A, B, C, D, x, rs, w);
    D := P(53, D, A, B, C, x, rs, w);
    C := P(54, C, D, A, B, x, rs, w);
    B := P(55, B, C, D, A, x, rs, w);
    A := P(56, A, B, C, D, x, rs, w);
    D := P(57, D, A, B, C, x, rs, w);
    C := P(58, C, D, A, B, x, rs, w);
    B := P(59, B, C, D, A, x, rs, w);
    A := P(60, A, B, C, D, x, rs, w);
    D := P(61, D, A, B, C, x, rs, w);
    C := P(62, C, D, A, B, x, rs, w);
    B := P(63, B, C, D, A, x, rs, w);
  }

  // ---------- reading and writing words ----------

  /** GET_ULONG_LE */
  function GetWord(b0: Byte, b1: Byte, b2: Byte, b3: Byte): bv64 {
    (b0 as bv64) | ((b1 as bv64) << 8) | ((b2 as bv64) << 16) | ((b3 as bv64) << 24)
  }

  /** PUT_ULONG_LE: casts to `unsigned char` keep eight bits. */
  function PutWord(n: bv64): (s: seq<Byte>)
    ensures |s| == 4
  {
    [(n & 0xFF) as bv8, ((n >> 8) & 0xFF) as bv8, ((n >> 16) & 0xFF) as bv8, ((n >> 24) & 0xFF) as bv8]
  }

  lemma GetBits(b0: Byte, b1: Byte, b2: Byte, b3: Byte, l: bv32)
    requires l ==
              (((b0 as bv64) | ((b1 as bv64) << 8) | ((b2 as bv64) << 16) | ((b3 as bv64) << 24)) & 0xFFFF_FFFF) as bv32
    ensures l == (b0 as bv32) | ((b1 as bv32) << 8) | ((b2 as bv32) << 16) | ((b3 as bv32) << 24)
  {}

  lemma GetLow(b0: Byte, b1: Byte, b2: Byte, b3: Byte)
    ensures Low(GetWord(b0, b1, b2, b3)) == Word(b0, b1, b2, b3)
  {
    var n := GetWord(b0, b1, b2, b3);
    LowIs(n);
    GetBits(b0, b1, b2, b3, Low(n));
  }

  lemma PutBits(n: bv64, l: bv32)
    requires l == (n & 0xFFFF_FFFF) as bv32
    ensures (n & 0xFF) as bv8 == (l & 0xFF) as bv8
    ensures ((n >> 8) & 0xFF) as bv8 == ((l >> 8) & 0xFF) as bv8
    ensures ((n >> 16) & 0xFF) as bv8 == ((l >> 16) & 0xFF) as bv8
    ensures ((n >> 24) & 0xFF) as bv8 == ((l >> 24) & 0xFF) as bv8
  {}

  /** Bits above 31 do not reach the output. */
  lemma PutLow(n: bv64)
    ensures PutWord(n) == WordBytes(Low(n))
  {
    LowIs(n);
    PutBits(n, Low(n));
  }

  // ---------- the context ----------

  datatype Quad = Quad(a: bv64, b: bv64, c: bv64, d: bv64)

  ghost function Lows(q: Quad): Regs { Regs(Low(q.a), Low(q.b), Low(q.c), Low(q.d)) }

  method ReadWords(data: seq<Byte>) returns (x: seq<bv64>)
    requires |data| == 64
    ensures Reads(x, Words(data))
  {
    x := seq(16, i requires 0 <= i < 16 => GetWord(data[4 * i], data[4 * i + 1], data[4 * i + 2], data[4 * i + 3]));
    forall k | 0 <= k < 16 ensures Low(x[k]) == Words(data)[k] {
      GetLow(data[4 * k], data[4 * k + 1], data[4 * k + 2], data[4 * k + 3]);
    }
  }

  lemma MakeTrace(r: Regs, w: seq<bv32>) returns (rs: seq<Regs>)
    requires |w| == 16
    ensures Trace(rs, w) && rs[0] == r && rs[64] == Steps(r, w, OPERATIONS)
  {
    rs := seq(65, i requires 0 <= i < 65 => Steps(r, w, i));
    forall i | 0 <= i < 64 ensures rs[i + 1] == Step(i, rs[i], w) {}
    TraceSteps(rs, w, OPERATIONS);
  }

  /** The four rounds. */
  method Rounds(q: Quad, data: seq<Byte>) returns (n: Quad)
    requires |data| == 64
    ensures Lows(n) == Steps(Lows(q), Words(data), OPERATIONS)
  {
    var x := ReadWords(data);
    ghost var w := Words(data);
    ghost var rs := MakeTrace(Lows(q), w);
    var A, B, C, D := Round1(q.a, q.b, q.c, q.d, x, rs, w);
    A, B, C, D := Round2(A, B, C, D, x, rs, w);
    A, B, C, D := Round3(A, B, C, D, x, rs, w);
    A, B, C, D := Round4(A, B, C, D, x, rs, w);
    n := Quad(A, B, C, D);
  }

  /** md5_process: the wide state goes through one compression of the standard. */
  method Process(q: Quad, data: seq<Byte>) returns (n: Quad)
    requires |data| == 64
    ensures Lows(n) == Compress(Lows(q), data)
  {
    var m := Rounds(q, data);
    LowAdd(q.a, m.a);
    LowAdd(q.b, m.b);
    LowAdd(q.c, m.c);
    LowAdd(q.d, m.d);
    n := Quad(Add(q.a, m.a), Add(q.b, m.b), Add(q.c, m.c), Add(q.d, m.d));
    CompressIs(Lows(q), data);
  }

  lemma CompressIs(r: Regs, data: seq<Byte>)
    requires |data| == 64
    ensures var n := Steps(r, Words(data), OPERATIONS);
            Compress(r, data) == Regs(Plus(r.a, n.a), Plus(r.b, n.b), Plus(r.c, n.c), Plus(r.d, n.d))
  {}
}
