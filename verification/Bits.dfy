/** Machine words and the numbers they stand for. */
module Bits {
  lemma Double(y: bv64)
    requires y < 0x8000_0000_0000_0000
    ensures (y << 1) as int == 2 * (y as int) && ((y << 1) | 1) as int == 2 * (y as int) + 1
  {}

  /** A word is twice its upper bits, or one more. */
  lemma Halve(x: bv64, y: bv64)
    requires y == x >> 1
    ensures y < 0x8000_0000_0000_0000 && (x == (y << 1) | 1 || x == y << 1)
  {}

  lemma Positive(x: bv64)
    ensures x != 0 <==> x as int >= 1
  {}

  /** Every number of the range has its word. */
  lemma {:induction false} FindWord(n: nat) returns (x: bv64)
    requires n < 0x1_0000_0000_0000_0000
    ensures x as int == n
  {
    if n == 0 {
      x := 0;
    } else {
      var y := FindWord(n / 2);
      SmallWord(y, n / 2);
      Double(y);
      x := if n % 2 == 0 then y << 1 else (y << 1) | 1;
    }
  }

  lemma SmallWord(y: bv64, n: nat)
    requires y as int == n < 0x8000_0000_0000_0000
    ensures y < 0x8000_0000_0000_0000
  {}

  lemma SmallHalf(x: bv64)
    requires x as int < 0x1_0000_0000
    ensures x < 0x1_0000_0000
  {}

  lemma WordIs(x: bv64, n: nat)
    requires n < 0x1_0000_0000_0000_0000 && x as int == n
    ensures n as bv64 == x
  {}

  /** Converting a number of the range to a word and back. */
  lemma WordValue(n: nat)
    requires n < 0x1_0000_0000_0000_0000
    ensures (n as bv64) as int == n
  {
    var x := FindWord(n);
    WordIs(x, n);
  }

  /** What a shift by three loses. */
  lemma Times8(x: bv64)
    ensures (x << 3) as int == (x as int) * 8 - ((x >> 61) as int) * 0x1_0000_0000_0000_0000
  {}

  /** Three bits below a word shifted by three. */
  lemma OrIsPlus(h: bv3, y: bv64)
    ensures ((h as bv64) | (y << 3)) as int == h as int + (y << 3) as int
  {}

  lemma CutBits(x: bv64, h: bv3, l: bv29)
    requires x < 0x1_0000_0000 && h == ((x >> 29) & 7) as bv3 && l == (x & 0x1FFF_FFFF) as bv29
    ensures x >> 29 == h as bv64 && x == ((h as bv64) << 29) | (l as bv64)
  {}

  lemma CutValue(x: bv64, h: bv3, l: bv29)
    requires x == ((h as bv64) << 29) | (l as bv64)
    ensures x as int == 0x2000_0000 * (h as int) + l as int
  {}

  lemma HalfBits(w: bv64, u: bv32, l: bv32)
    requires u == (w >> 32) as bv32 && l == (w & 0xFFFF_FFFF) as bv32
    ensures w == ((u as bv64) << 32) | (l as bv64)
  {}

  lemma HalfValue(w: bv64, u: bv32, l: bv32)
    requires w == ((u as bv64) << 32) | (l as bv64)
    ensures w as int == 0x1_0000_0000 * (u as int) + l as int
  {}

  lemma HalfIs(l: bv32, n: nat)
    requires n < 0x1_0000_0000 && l as int == n
    ensures n as bv32 == l
  {}

  lemma SplitWord(w: bv64, l: bv32) returns (u: int, t: int)
    requires l == (w & 0xFFFF_FFFF) as bv32
    ensures w as int == 0x1_0000_0000 * u + t && t == l as int
  {
    var h := (w >> 32) as bv32;
    HalfBits(w, h, l);
    HalfValue(w, h, l);
    u, t := h as int, l as int;
  }

  lemma LowerIs(l: bv32, n: nat, k: int)
    requires n == 0x1_0000_0000 * k + l as int
    ensures l == (n % 0x1_0000_0000) as bv32
  {
    Remainder(n, k, l as int);
    HalfIs(l, n % 0x1_0000_0000);
  }

  /** The lower half of a word that stands for `n` up to multiples of 2^32. */
  lemma LowerHalf(w: bv64, l: bv32, n: nat, k: int)
    requires l == (w & 0xFFFF_FFFF) as bv32 && w as int == n + k * 0x1_0000_0000
    ensures l == (n % 0x1_0000_0000) as bv32
  {
    var u, t := SplitWord(w, l);
    LowerIs(l, n, u - k);
  }

  lemma Remainder(n: nat, k: int, t: nat)
    requires n == 0x1_0000_0000 * k + t && t < 0x1_0000_0000
    ensures n % 0x1_0000_0000 == t
  {}
}
