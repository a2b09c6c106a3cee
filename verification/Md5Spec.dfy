/** The MD5 algorithm of RFC 1321, on 32-bit words. */
module Md5Spec {
  type Byte = bv8

  /** The four state words. */
  datatype Regs = Regs(a: bv32, b: bv32, c: bv32, d: bv32)

  /** How many operations a block takes: four rounds of sixteen. */
  const OPERATIONS: nat := 64

  const IV := Regs(0x6745_2301, 0xEFCD_AB89, 0x98BA_DCFE, 0x1032_5476)

  // ---------- section 3.4: sixteen-word blocks in four rounds ----------

  /** The auxiliary functions F, G, H and I, one a round. */
  function Aux(round: nat, x: bv32, y: bv32, z: bv32): bv32 {
    match round
    case 0 => (x & y) | (!x & z)
    case 1 => (x & z) | (y & !z)
    case 2 => x ^ y ^ z
    case _ => y ^ (x | !z)
  }

  /** Addition modulo 2^32. */
  function Plus(x: bv32, y: bv32): bv32 { x + y }

  function Rotl(x: bv32, n: bv8): bv32
    requires 1 <= n <= 31
  {
    (x << n) | (x >> (32 - n))
  }

  /** Which word of the block operation `i` uses. */
  function WordIndex(i: nat): nat {
    if i < 16 then i else if i < 32 then (5 * i + 1) % 16 else if i < 48 then (3 * i + 5) % 16 else (7 * i) % 16
  }

  function Shift(i: nat): (n: bv8)
    ensures 1 <= n <= 31
  {
    if i < 16 then (if i % 4 == 0 then 7 else if i % 4 == 1 then 12 else if i % 4 == 2 then 17 else 22)
    else if i < 32 then (if i % 4 == 0 then 5 else if i % 4 == 1 then 9 else if i % 4 == 2 then 14 else 20)
    else if i < 48 then (if i % 4 == 0 then 4 else if i % 4 == 1 then 11 else if i % 4 == 2 then 16 else 23)
    else (if i % 4 == 0 then 6 else if i % 4 == 1 then 10 else if i % 4 == 2 then 15 else 21)
  }

  /** The table T: the integer part of 4294967296 times abs(sin(i + 1)). */
  function T(i: nat): bv32 {
    if i < 16 then T1(i) else if i < 32 then T2(i - 16) else if i < 48 then T3(i - 32) else T4(i - 48)
  }

  function T1(j: int): bv32 {
    match j
    case 0 => 0xD76A_A478
    case 1 => 0xE8C7_B756
    case 2 => 0x2420_70DB
    case 3 => 0xC1BD_CEEE
    case 4 => 0xF57C_0FAF
    case 5 => 0x4787_C62A
    case 6 => 0xA830_4613
    case 7 => 0xFD46_9501
    case 8 => 0x6980_98D8
    case 9 => 0x8B44_F7AF
    case 10 => 0xFFFF_5BB1
    case 11 => 0x895C_D7BE
    case 12 => 0x6B90_1122
    case 13 => 0xFD98_7193
    case 14 => 0xA679_438E
    case _ => 0x49B4_0821
  }

  function T2(j: int): bv32 {
    match j
    case 0 => 0xF61E_2562
    case 1 => 0xC040_B340
    case 2 => 0x265E_5A51
    case 3 => 0xE9B6_C7AA
    case 4 => 0xD62F_105D
    case 5 => 0x0244_1453
    case 6 => 0xD8A1_E681
    case 7 => 0xE7D3_FBC8
    case 8 => 0x21E1_CDE6
    case 9 => 0xC337_07D6
    case 10 => 0xF4D5_0D87
    case 11 => 0x455A_14ED
    case 12 => 0xA9E3_E905
    case 13 => 0xFCEF_A3F8
    case 14 => 0x676F_02D9
    case _ => 0x8D2A_4C8A
  }

  function T3(j: int): bv32 {
    match j
    case 0 => 0xFFFA_3942
    case 1 => 0x8771_F681
    case 2 => 0x6D9D_6122
    case 3 => 0xFDE5_380C
    case 4 => 0xA4BE_EA44
    case 5 => 0x4BDE_CFA9
    case 6 => 0xF6BB_4B60
    case 7 => 0xBEBF_BC70
    case 8 => 0x289B_7EC6
    case 9 => 0xEAA1_27FA
    case 10 => 0xD4EF_3085
    case 11 => 0x0488_1D05
    case 12 => 0xD9D4_D039
    case 13 => 0xE6DB_99E5
    case 14 => 0x1FA2_7CF8
    case _ => 0xC4AC_5665
  }

  function T4(j: int): bv32 {
    match j
    case 0 => 0xF429_2244
    case 1 => 0x432A_FF97
    case 2 => 0xAB94_23A7
    case 3 => 0xFC93_A039
    case 4 => 0x655B_59C3
    case 5 => 0x8F0C_CC92
    case 6 => 0xFFEF_F47D
    case 7 => 0x8584_5DD1
    case 8 => 0x6FA8_7E4F
    case 9 => 0xFE2C_E6E0
    case 10 => 0xA301_4314
    case 11 => 0x4E08_11A1
    case 12 => 0xF753_7E82
    case 13 => 0xBD3A_F235
    case 14 => 0x2AD7_D2BB
    case _ => 0xEB86_D391
  }

  /** a = b + ((a + Aux(b, c, d) + x + t) <<< s) */
  function Op(round: nat, a: bv32, b: bv32, c: bv32, d: bv32, x: bv32, s: bv8, t: bv32): bv32
    requires 1 <= s <= 31
  {
    Plus(Rotl(Plus(Plus(Plus(a, Aux(round, b, c, d)), x), t), s), b)
  }

  /** Operation `i`; the registers change roles, so that the one just computed is next `b`. */
  function Step(i: nat, r: Regs, x: seq<bv32>): Regs
    requires |x| == 16
  {
    Regs(r.d, Op(i / 16, r.a, r.b, r.c, r.d, x[WordIndex(i)], Shift(i), T(i)), r.b, r.c)
  }

  /** The first `n` operations. */
  function Steps(r: Regs, x: seq<bv32>, n: nat): Regs
    requires |x| == 16
  {
    if n == 0 then r else Step(n - 1, Steps(r, x, n - 1), x)
  }

  /** Four bytes, low-order first, as a word. */
  function Word(b0: Byte, b1: Byte, b2: Byte, b3: Byte): bv32 {
    (b0 as bv32) | ((b1 as bv32) << 8) | ((b2 as bv32) << 16) | ((b3 as bv32) << 24)
  }

  function Words(block: seq<Byte>): (x: seq<bv32>)
    requires |block| == 64
    ensures |x| == 16
  {
    seq(16, i requires 0 <= i < 16 => Word(block[4 * i], block[4 * i + 1], block[4 * i + 2], block[4 * i + 3]))
  }

  function Compress(r: Regs, block: seq<Byte>): Regs
    requires |block| == 64
  {
    var n := Steps(r, Words(block), OPERATIONS);
    Regs(Plus(r.a, n.a), Plus(r.b, n.b), Plus(r.c, n.c), Plus(r.d, n.d))
  }

  function Fold(r: Regs, data: seq<Byte>): Regs
    requires |data| % 64 == 0
  {
    if data == [] then r else Compress(Fold(r, data[..|data| - 64]), data[|data| - 64..])
  }

  // ---------- sections 3.1, 3.2 and 3.5: padding, length and output ----------

  /** How many zero bytes follow the byte 0x80: the least number that leaves eight bytes to the end
      of a block. */
  function ZeroCount(n: nat): (z: nat)
    ensures (n + 1 + z) % 64 == 56 && z < 64
  {
    (119 - n % 64) % 64
  }

  /** A word as four bytes, low-order first. */
  function WordBytes(w: bv32): (s: seq<Byte>)
    ensures |s| == 4
  {
    [(w & 0xFF) as bv8, ((w >> 8) & 0xFF) as bv8, ((w >> 16) & 0xFF) as bv8, ((w >> 24) & 0xFF) as bv8]
  }

  /** The length in bits modulo 2^64 as two words, low-order first. */
  function LengthBytes(bits: nat): (s: seq<Byte>)
    ensures |s| == 8
  {
    WordBytes((bits % 0x1_0000_0000) as bv32) + WordBytes((bits / 0x1_0000_0000 % 0x1_0000_0000) as bv32)
  }

  lemma WholeBlocks(n: nat)
    ensures (n + 9 + ZeroCount(n)) % 64 == 0
  {}

  function Padded(m: seq<Byte>): (p: seq<Byte>)
    ensures |p| == |m| + 9 + ZeroCount(|m|) && |p| % 64 == 0
  {
    WholeBlocks(|m|);
    m + [0x80] + seq(ZeroCount(|m|), _ => 0) + LengthBytes(8 * |m|)
  }

  function Digest(m: seq<Byte>): (s: seq<Byte>)
    ensures |s| == 16
  {
    var r := Fold(IV, Padded(m));
    WordBytes(r.a) + WordBytes(r.b) + WordBytes(r.c) + WordBytes(r.d)
  }
}
