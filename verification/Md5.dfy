/** cpp/datastructure/hash/md5.cc: buffering, padding and length of streaming MD5. */
module Md5 {
  import opened Md5Spec
  import opened Md5Words
  import opened Bits

  // ---------- whole blocks ----------

  /** Block `i` of `w` takes the state from `cs[i]` to `cs[i + 1]`. */
  ghost predicate Link(cs: seq<Regs>, w: seq<Byte>, i: nat)
    requires i + 1 < |cs| && 64 * i + 64 <= |w|
  {
    cs[i + 1] == Compress(cs[i], w[64 * i..64 * i + 64])
  }

  /** `cs` lists the states after each complete block of `w`. */
  ghost predicate Chain(cs: seq<Regs>, w: seq<Byte>) {
    |cs| == |w| / 64 + 1 && cs[0] == IV && forall i: nat {:trigger Link(cs, w, i)} :: i < |w| / 64 ==> Link(cs, w, i)
  }

  /** A chain is the fold of the compression over the complete blocks. */
  lemma {:induction false} ChainFolds(cs: seq<Regs>, w: seq<Byte>, i: nat)
    requires Chain(cs, w) && i <= |w| / 64
    ensures 64 * i <= |w| && cs[i] == Fold(IV, w[..64 * i])
  {
    if i > 0 {
      var k := i - 1;
      ChainFolds(cs, w, k);
      assert Link(cs, w, k);
      LinkFolds(cs, w, k);
    } else {
      FoldNone(w);
    }
  }

  lemma FoldNone(w: seq<Byte>)
    ensures Fold(IV, w[..0]) == IV
  {
    assert w[..0] == [];
  }

  lemma LinkFolds(cs: seq<Regs>, w: seq<Byte>, k: nat)
    requires k + 1 < |cs| && 64 * k + 64 <= |w| && Link(cs, w, k) && cs[k] == Fold(IV, w[..64 * k])
    ensures cs[k + 1] == Fold(IV, w[..64 * (k + 1)])
  {
    FoldStep(w, k);
  }

  lemma FoldStep(w: seq<Byte>, i: nat)
    requires 64 * i + 64 <= |w|
    ensures Fold(IV, w[..64 * (i + 1)]) == Compress(Fold(IV, w[..64 * i]), w[64 * i..64 * i + 64])
  {
    var v := w[..64 * (i + 1)];
    assert v[..|v| - 64] == w[..64 * i] && v[|v| - 64..] == w[64 * i..64 * i + 64];
  }

  ghost function ChainOf(w: seq<Byte>): (cs: seq<Regs>) {
    seq(|w| / 64 + 1, i requires 0 <= i <= |w| / 64 => Fold(IV, w[..64 * i]))
  }

  lemma ChainOfIs(w: seq<Byte>)
    ensures Chain(ChainOf(w), w)
  {
    var cs := ChainOf(w);
    forall i: nat | i < |w| / 64 ensures Link(cs, w, i) { FoldStep(w, i); }
    assert w[..0] == [];
  }

  /** Longer data has a longer chain that starts the same. */
  lemma ChainExtends(cs: seq<Regs>, m: seq<Byte>, w: seq<Byte>) returns (ds: seq<Regs>)
    requires Chain(cs, m) && m <= w
    ensures Chain(ds, w) && |cs| <= |ds| && forall i :: 0 <= i < |cs| ==> ds[i] == cs[i]
  {
    ds := ChainOf(w);
    ChainOfIs(w);
    forall i: nat | i < |cs| ensures ds[i] == cs[i] {
      ChainFolds(cs, m, i);
      assert m[..64 * i] == w[..64 * i];
    }
  }

  /** `i` blocks of `w` are compressed and the next `left` bytes are buffered. */
  ghost predicate Partial(state: Quad, buffer: seq<Byte>, cs: seq<Regs>, w: seq<Byte>, i: nat, left: nat) {
    && i < |cs| && 64 * i + left <= |w| && |buffer| == 64 && left <= 64
    && Lows(state) == cs[i] && buffer[..left] == w[64 * i..64 * i + left]
  }

  /** One block through the compression. */
  method Feed(q: Quad, data: seq<Byte>, ghost cs: seq<Regs>, ghost w: seq<Byte>, ghost i: nat) returns (n: Quad)
    requires Chain(cs, w) && i < |w| / 64 && data == w[64 * i..64 * i + 64] && Lows(q) == cs[i]
    ensures Lows(n) == cs[i + 1]
  {
    assert Link(cs, w, i);
    n := Process(q, data);
  }

  /** The bytes copied over the buffer from position `left` on. */
  function Overlay(buffer: seq<Byte>, left: nat, data: seq<Byte>): (b: seq<Byte>)
    requires left + |data| <= |buffer|
    ensures |b| == |buffer|
  {
    buffer[..left] + data + buffer[left + |data|..]
  }

  lemma OverlayPartial(state: Quad, buffer: seq<Byte>, cs: seq<Regs>, w: seq<Byte>, i: nat, left: nat, data: seq<Byte>)
    requires Partial(state, buffer, cs, w, i, left) && left + |data| <= 64 && 64 * i + left + |data| <= |w|
    requires data == w[64 * i + left..64 * i + left + |data|]
    ensures Partial(state, Overlay(buffer, left, data), cs, w, i, left + |data|)
  {
    assert Overlay(buffer, left, data)[..left + |data|] == buffer[..left] + data;
    assert w[64 * i..64 * i + left + |data|] == w[64 * i..64 * i + left] + data;
  }

  lemma WholeBlock(state: Quad, buffer: seq<Byte>, cs: seq<Regs>, w: seq<Byte>, i: nat)
    requires Partial(state, buffer, cs, w, i, 64)
    ensures buffer == w[64 * i..64 * i + 64]
  {
    assert buffer[..64] == buffer;
  }

  // ---------- the byte count ----------

  /** The two counters after `n` bytes. */
  ghost predicate Counted(total0: nat, total1: nat, n: nat) {
    total0 == n % 0x1_0000_0000 && total1 == n / 0x1_0000_0000 % 0x1_0000_0000_0000_0000
  }

  /** The carry test: the masked sum is smaller than what was added exactly when it wrapped. */
  lemma Carry(total0: nat, total1: nat, n: nat, k: nat)
    requires Counted(total0, total1, n) && 0 < k < 0x8000_0000
    ensures var t := (total0 + k) % 0x1_0000_0000;
            Counted(t, if t < k then (total1 + 1) % 0x1_0000_0000_0000_0000 else total1, n + k)
  {
    var q := n / 0x1_0000_0000;
    if total0 + k < 0x1_0000_0000 {
      Split32(n + k, q, total0 + k);
    } else {
      Split32(n + k, q + 1, total0 + k - 0x1_0000_0000);
      Successor64(q);
    }
  }

  lemma Split32(n: nat, q: nat, t: nat)
    requires n == q * 0x1_0000_0000 + t && t < 0x1_0000_0000
    ensures n / 0x1_0000_0000 == q && n % 0x1_0000_0000 == t
  {}

  lemma Successor64(q: nat)
    ensures (q + 1) % 0x1_0000_0000_0000_0000 == (q % 0x1_0000_0000_0000_0000 + 1) % 0x1_0000_0000_0000_0000
  {}

  // ---------- the length words ----------

  /** The eight bytes of `md5_finish`: the low word, then the high word. */
  function LengthField(total0: nat, total1: nat): (s: seq<Byte>)
    requires total0 < 0x1_0000_0000_0000_0000 && total1 < 0x1_0000_0000_0000_0000
    ensures |s| == 8
  {
    PutWord((total0 as bv64) << 3) + PutWord(((total0 as bv64) >> 29) | ((total1 as bv64) << 3))
  }

  /** They are the bit count modulo 2^64. */
  lemma LengthWords(total0: nat, total1: nat, n: nat)
    requires Counted(total0, total1, n)
    ensures LengthField(total0, total1) == LengthBytes(8 * n)
  {
    WordValue(total0);
    WordValue(total1);
    LowLength(total0 as bv64, n);
    HighLength(total0 as bv64, total1 as bv64, n);
  }

  /** A wide word that stands for `k` up to multiples of 2^32 is written like `k`. */
  lemma PutValue(w: bv64, k: nat, c: int)
    requires w as int == k + c * 0x1_0000_0000
    ensures PutWord(w) == WordBytes((k % 0x1_0000_0000) as bv32)
  {
    PutLow(w);
    LowIs(w);
    LowerHalf(w, Low(w), k, c);
  }

  lemma LowLength(x: bv64, n: nat)
    requires x as int == n % 0x1_0000_0000
    ensures PutWord(x << 3) == WordBytes((8 * n % 0x1_0000_0000) as bv32)
  {
    var q, c := n / 0x1_0000_0000, (x >> 61) as int;
    Times8(x);
    LowMultiple(n, q, x as int, c);
    PutValue(x << 3, 8 * n, -(8 * q) - c * 0x1_0000_0000);
  }

  lemma LowMultiple(n: int, q: int, t: int, c: int)
    requires n == q * 0x1_0000_0000 + t
    ensures t * 8 - c * 0x1_0000_0000_0000_0000 == 8 * n + (-(8 * q) - c * 0x1_0000_0000) * 0x1_0000_0000
  {}

  lemma HighLength(x: bv64, y: bv64, n: nat)
    requires Counted(x as int, y as int, n)
    ensures PutWord((x >> 29) | (y << 3)) == WordBytes((8 * n / 0x1_0000_0000 % 0x1_0000_0000) as bv32)
  {
    WrittenHigh(x, y, (x >> 29) | (y << 3), n);
  }

  lemma WrittenHigh(x: bv64, y: bv64, w: bv64, n: nat)
    requires Counted(x as int, y as int, n) && w == (x >> 29) | (y << 3)
    ensures PutWord(w) == WordBytes((8 * n / 0x1_0000_0000 % 0x1_0000_0000) as bv32)
  {
    var c := HighWord(x, y, w);
    HighBytes(w, x as int, y as int, n, c);
  }

  lemma HighBytes(w: bv64, t0: nat, t1: nat, n: nat, c: int)
    requires Counted(t0, t1, n) && w as int == t0 / 0x2000_0000 + t1 * 8 - c * 0x1_0000_0000_0000_0000
    ensures PutWord(w) == WordBytes((8 * n / 0x1_0000_0000 % 0x1_0000_0000) as bv32)
  {
    var k := HighCount(t0, t1, n, c);
    PutValue(w, 8 * n / 0x1_0000_0000, k);
  }

  lemma HighCount(t0: nat, t1: nat, n: nat, c: int) returns (k: int)
    requires Counted(t0, t1, n)
    ensures t0 / 0x2000_0000 + t1 * 8 - c * 0x1_0000_0000_0000_0000 == 8 * n / 0x1_0000_0000 + k * 0x1_0000_0000
  {
    var q := n / 0x1_0000_0000;
    EighthOf(n, q, t0);
    var e := q / 0x1_0000_0000_0000_0000;
    HighMultiple(q, t1, t0 / 0x2000_0000, e, c);
    k := -(8 * e + c) * 0x1_0000_0000;
  }

  lemma HighMultiple(q: int, t: int, a: int, k: int, c: int)
    requires q == k * 0x1_0000_0000_0000_0000 + t
    ensures a + t * 8 - c * 0x1_0000_0000_0000_0000 == 8 * q + a + (-(8 * k + c) * 0x1_0000_0000) * 0x1_0000_0000
  {}

  /** The two parts of the high word share no bit. */
  lemma HighWord(x: bv64, y: bv64, w: bv64) returns (c: int)
    requires x as int < 0x1_0000_0000 && w == (x >> 29) | (y << 3)
    ensures w as int == x as int / 0x2000_0000 + y as int * 8 - c * 0x1_0000_0000_0000_0000
  {
    var h := TopBits(x);
    OrIsPlus(h, y);
    Times8(y);
    c := (y >> 61) as int;
  }

  lemma TopBits(x: bv64) returns (h: bv3)
    requires x as int < 0x1_0000_0000
    ensures x >> 29 == h as bv64 && h as int == x as int / 0x2000_0000
  {
    SmallHalf(x);
    h := ((x >> 29) & 7) as bv3;
    var l := (x & 0x1FFF_FFFF) as bv29;
    CutBits(x, h, l);
    CutValue(x, h, l);
    Quotient(x as int, h as int, l as int);
  }

  lemma Quotient(n: int, q: int, t: int)
    requires n == 0x2000_0000 * q + t && 0 <= t < 0x2000_0000
    ensures n / 0x2000_0000 == q
  {}

  lemma EighthOf(n: nat, q: nat, t: nat)
    requires n == q * 0x1_0000_0000 + t && t < 0x1_0000_0000
    ensures 8 * n / 0x1_0000_0000 == 8 * q + t / 0x2000_0000
  {}

  lemma PadCount(n: nat)
    ensures 1 + ZeroCount(n) == if n % 64 < 56 then 56 - n % 64 else 120 - n % 64
  {}

  // ---------- the context ----------

  const PADDING: seq<Byte> := [0x80] + seq(63, _ => 0)

  /** The bytes `md5_update` takes: none if the length is not positive. */
  function Taken(input: seq<Byte>, ilen: int): seq<Byte>
    requires ilen <= |input|
  {
    if ilen <= 0 then [] else input[..ilen]
  }

  class Context {
    var total0: nat
    var total1: nat
    var state: Quad
    const buffer: array<Byte>
    ghost var chain: seq<Regs>

    /** The context after the bytes `m`: all complete blocks compressed, the rest buffered. */
    ghost predicate Absorbed(m: seq<Byte>)
      reads this, buffer
    {
      && Counted(total0, total1, |m|) && buffer.Length == 64 && Chain(chain, m)
      && Partial(state, buffer[..], chain, m, |m| / 64, |m| % 64)
    }

    /** That is, the state is the fold of the compression over all complete blocks. */
    lemma AbsorbedFolds(m: seq<Byte>)
      requires Absorbed(m)
      ensures Lows(state) == Fold(IV, m[..64 * (|m| / 64)]) && buffer[..|m| % 64] == m[64 * (|m| / 64)..]
    {
      ChainFolds(chain, m, |m| / 64);
    }

    /** md5_starts; the buffer holds anything. */
    constructor (junk: array<Byte>)
      requires junk.Length == 64
      ensures buffer == junk && Absorbed([])
    {
      total0, total1 := 0, 0;
      state := Quad(0x6745_2301, 0xEFCD_AB89, 0x98BA_DCFE, 0x1032_5476);
      buffer := junk;
      chain := [IV];
      new;
      StartLows(state);
    }

    /** memcpy into the buffer. */
    method Copy(left: nat, data: seq<Byte>)
      requires left + |data| <= buffer.Length
      modifies buffer
      ensures buffer[..] == Overlay(old(buffer[..]), left, data)
    {
      ghost var was := buffer[..];
      forall i | 0 <= i < |data| {
        buffer[left + i] := data[i];
      }
      assert buffer[..left] == was[..left] && buffer[left..left + |data|] == data
          && buffer[left + |data|..] == was[left + |data|..];
      assert buffer[..] == buffer[..left] + buffer[left..left + |data|] + buffer[left + |data|..];
    }

    method Count(ilen: int, ghost n: nat)
      requires Counted(total0, total1, n) && 0 < ilen < 0x8000_0000
      modifies this`total0, this`total1
      ensures Counted(total0, total1, n + ilen)
    {
      Carry(total0, total1, n, ilen);
      total0 := (total0 + ilen) % 0x1_0000_0000;
      if total0 < ilen {
        total1 := (total1 + 1) % 0x1_0000_0000_0000_0000;
      }
    }

    /** The block loop: compresses whole blocks straight from the input. */
    method Blocks(input: seq<Byte>, start: nat, ilen: nat, ghost cs: seq<Regs>, ghost w: seq<Byte>, ghost i: nat)
        returns (pos: nat, ghost k: nat)
      requires start <= ilen <= |input| && Chain(cs, w) && i < |cs| && Lows(state) == cs[i]
      requires 64 * i + ilen - start == |w| && w[64 * i..] == input[start..ilen]
      modifies this`state
      ensures start <= pos <= ilen < pos + 64 && k < |cs| && Lows(state) == cs[k]
      ensures 64 * k + ilen - pos == |w| && w[64 * k..] == input[pos..ilen]
    {
      pos, k := start, i;
      while ilen - pos >= 64
        invariant start <= pos <= ilen && k < |cs| && Lows(state) == cs[k]
        invariant 64 * k + ilen - pos == |w| && w[64 * k..] == input[pos..ilen]
      {
        NextBlock(w, k, input, pos, ilen);
        state := Feed(state, input[pos..pos + 64], cs, w, k);
        pos, k := pos + 64, k + 1;
      }
    }

    /** Any split of the message into chunks leaves the same context: chunk after chunk is appended
        to what was absorbed. */
    method Update(input: seq<Byte>, ilen: int, ghost m: seq<Byte>)
      requires ilen <= |input| && ilen < 0x8000_0000 && Absorbed(m)
      modifies this`total0, this`total1, this`state, this`chain, buffer
      ensures Absorbed(m + Taken(input, ilen))
    {
      if ilen <= 0 {
        assert m + Taken(input, ilen) == m;
        return;
      }
      UpdateSome(input, ilen, m, m + input[..ilen]);
    }

    /** The same when there is something to absorb. */
    method UpdateSome(input: seq<Byte>, ilen: nat, ghost m: seq<Byte>, ghost w: seq<Byte>)
      requires 0 < ilen <= |input| && ilen < 0x8000_0000 && Absorbed(m) && w == m + input[..ilen]
      modifies this`total0, this`total1, this`state, this`chain, buffer
      ensures Absorbed(w)
    {
      var left := total0 % 64;
      LeftOver(total0, total1, |m|);
      Count(ilen, |m|);
      ghost var cs := ChainExtends(chain, m, w);
      Extended(state, buffer[..], chain, cs, m, w);
      chain := cs;
      Absorb(input, ilen, left, m, w);
    }

    /** The part of `md5_update` after the counters. */
    method Absorb(input: seq<Byte>, ilen: nat, left: nat, ghost m: seq<Byte>, ghost w: seq<Byte>)
      requires 0 < ilen <= |input| && left == |m| % 64 && w == m + input[..ilen] && buffer.Length == 64
      requires Chain(chain, w)
      requires Partial(state, buffer[..], chain, w, |m| / 64, left)
      modifies this`state, buffer
      ensures Partial(state, buffer[..], chain, w, |w| / 64, |w| % 64)
    {
      var fill := 64 - left;
      if left != 0 && ilen < fill {
        KeepShort(input, ilen, left, m, w);
        return;
      }
      var pos := 0;
      ghost var i := |m| / 64;
      if left != 0 {
        FillBlock(input, ilen, left, m, w);
        pos, i := fill, i + 1;
      }
      RestIs(w, m, input, ilen, pos, i);
      pos, i := Blocks(input, pos, ilen, chain, w, i);
      KeepRest(input, ilen, pos, w, i);
    }

    /** The final memcpy when the block stays incomplete. */
    method KeepShort(input: seq<Byte>, ilen: nat, left: nat, ghost m: seq<Byte>, ghost w: seq<Byte>)
      requires ilen <= |input| && left == |m| % 64 && left + ilen < 64 && w == m + input[..ilen] && buffer.Length == 64
      requires Partial(state, buffer[..], chain, w, |m| / 64, left)
      modifies buffer
      ensures Partial(state, buffer[..], chain, w, |w| / 64, |w| % 64)
    {
      Short(w, m, input[..ilen]);
      OverlayPartial(state, buffer[..], chain, w, |m| / 64, left, input[..ilen]);
      Copy(left, input[..ilen]);
    }

    /** The final memcpy after whole blocks. */
    method KeepRest(input: seq<Byte>, ilen: nat, pos: nat, ghost w: seq<Byte>, ghost i: nat)
      requires pos <= ilen <= |input| && ilen < pos + 64 && buffer.Length == 64 && i < |chain|
      requires Lows(state) == chain[i]
      requires 64 * i + ilen - pos == |w| && w[64 * i..] == input[pos..ilen]
      modifies buffer
      ensures Partial(state, buffer[..], chain, w, |w| / 64, |w| % 64)
    {
      LastBlock(w, i, ilen - pos);
      assert Partial(state, buffer[..], chain, w, i, 0);
      if ilen - pos > 0 {
        OverlayPartial(state, buffer[..], chain, w, i, 0, input[pos..ilen]);
        Copy(0, input[pos..ilen]);
      }
    }

    /** Completing the buffered block. */
    method FillBlock(input: seq<Byte>, ilen: nat, left: nat, ghost m: seq<Byte>, ghost w: seq<Byte>)
      requires ilen <= |input| && 0 < left == |m| % 64 && 64 - left <= ilen && w == m + input[..ilen]
      requires buffer.Length == 64
      requires Chain(chain, w) && Partial(state, buffer[..], chain, w, |m| / 64, left)
      modifies this`state, buffer
      ensures |m| / 64 + 1 < |chain| && Lows(state) == chain[|m| / 64 + 1]
    {
      ghost var i := |m| / 64;
      var fill := 64 - left;
      NextBytes(w, m, input, ilen, 64 * i + left, fill);
      OverlayPartial(state, buffer[..], chain, w, i, left, input[..fill]);
      Copy(left, input[..fill]);
      WholeBlock(state, buffer[..], chain, w, i);
      state := Feed(state, buffer[..], chain, w, i);
    }

    /** md5_finish: the digest of the standard. */
    method Finish(ghost m: seq<Byte>) returns (output: seq<Byte>)
      requires Absorbed(m)
      modifies this`total0, this`total1, this`state, this`chain, buffer
      ensures output == Digest(m)
    {
      var msglen, padn := Lengths(|m|);
      Update(PADDING, padn, m);
      ghost var padded := m + Taken(PADDING, padn);
      Update(msglen, 8, padded);
      PaddedIs(m, padn, padded + Taken(msglen, 8));
      output := Output(m);
    }

    /** The length field, and how many bytes of padding come before it. */
    method Lengths(ghost n: nat) returns (msglen: seq<Byte>, padn: nat)
      requires Counted(total0, total1, n)
      ensures msglen == LengthBytes(8 * n) && padn == 1 + ZeroCount(n)
    {
      msglen := LengthField(total0, total1);
      LengthWords(total0, total1, n);
      var last := total0 % 64;
      LeftOver(total0, total1, n);
      PadCount(n);
      padn := if last < 56 then 56 - last else 120 - last;
    }

    method Output(ghost m: seq<Byte>) returns (output: seq<Byte>)
      requires Absorbed(Padded(m))
      ensures output == Digest(m)
    {
      output := PutWord(state.a) + PutWord(state.b) + PutWord(state.c) + PutWord(state.d);
      AbsorbedFolds(Padded(m));
      assert Padded(m)[..64 * (|Padded(m)| / 64)] == Padded(m);
      DigestIs(state, m);
    }
  }

  lemma DigestIs(q: Quad, m: seq<Byte>)
    requires Lows(q) == Fold(IV, Padded(m))
    ensures Digest(m) == PutWord(q.a) + PutWord(q.b) + PutWord(q.c) + PutWord(q.d)
  {
    PutLow(q.a);
    PutLow(q.b);
    PutLow(q.c);
    PutLow(q.d);
  }

  lemma StartLows(q: Quad)
    requires q == Quad(0x6745_2301, 0xEFCD_AB89, 0x98BA_DCFE, 0x1032_5476)
    ensures Lows(q) == IV
  {}

  lemma LeftOver(total0: nat, total1: nat, n: nat)
    requires Counted(total0, total1, n)
    ensures total0 % 64 == n % 64
  {}

  /** Reading on does not change what was read. */
  lemma Extended(state: Quad, buffer: seq<Byte>, cs: seq<Regs>, ds: seq<Regs>, m: seq<Byte>, w: seq<Byte>)
    requires m <= w && Partial(state, buffer, cs, m, |m| / 64, |m| % 64)
    requires |cs| <= |ds| && forall i :: 0 <= i < |cs| ==> ds[i] == cs[i]
    ensures Partial(state, buffer, ds, w, |m| / 64, |m| % 64)
  {
    var q := 64 * (|m| / 64);
    assert w[q..q + |m| % 64] == m[q..q + |m| % 64];
  }

  lemma NextBlock(w: seq<Byte>, k: nat, input: seq<Byte>, pos: nat, ilen: nat)
    requires pos + 64 <= ilen <= |input| && 64 * k + ilen - pos == |w| && w[64 * k..] == input[pos..ilen]
    ensures k < |w| / 64 && input[pos..pos + 64] == w[64 * k..64 * k + 64] && w[64 * (k + 1)..] == input[pos + 64..ilen]
  {
    assert input[pos..pos + 64] == input[pos..ilen][..64] == w[64 * k..][..64];
    assert input[pos + 64..ilen] == input[pos..ilen][64..] == w[64 * k..][64..];
  }

  lemma LastBlock(w: seq<Byte>, i: nat, rest: nat)
    requires |w| == 64 * i + rest && rest < 64
    ensures |w| / 64 == i && |w| % 64 == rest
  {}

  /** A chunk that does not complete the block. */
  lemma Short(w: seq<Byte>, m: seq<Byte>, v: seq<Byte>)
    requires w == m + v && |m| % 64 + |v| < 64
    ensures |w| / 64 == |m| / 64 && |w| % 64 == |m| % 64 + |v|
    ensures var q := 64 * (|m| / 64) + |m| % 64; v == w[q..q + |v|]
  {}

  lemma NextBytes(w: seq<Byte>, m: seq<Byte>, input: seq<Byte>, ilen: nat, at: nat, fill: nat)
    requires ilen <= |input| && w == m + input[..ilen] && at == |m| && fill <= ilen
    ensures input[..fill] == w[at..at + fill]
  {}

  lemma RestIs(w: seq<Byte>, m: seq<Byte>, input: seq<Byte>, ilen: nat, pos: nat, i: nat)
    requires ilen <= |input| && w == m + input[..ilen] && pos <= ilen && |m| + pos == 64 * i
    ensures w[64 * i..] == input[pos..ilen]
  {}

  lemma PaddedIs(m: seq<Byte>, padn: nat, p: seq<Byte>)
    requires padn == 1 + ZeroCount(|m|) && p == m + Taken(PADDING, padn) + LengthBytes(8 * |m|)
    ensures p == Padded(m)
  {
    assert PADDING[..padn] == [0x80] + seq(ZeroCount(|m|), _ => 0);
  }

  datatype Type = Md5_32 | Md5_128

  /** The one-shot digest, cut to four bytes for `md5_32`. */
  method Hash(input: seq<Byte>, len: int, kind: Type, junk: array<Byte>) returns (output: seq<Byte>)
    requires len <= |input| && len < 0x8000_0000 && junk.Length == 64
    modifies junk
    ensures output == if kind.Md5_32? then Digest(Taken(input, len))[..4] else Digest(Taken(input, len))
  {
    var ctx := new Context(junk);
    ctx.Update(input, len, []);
    assert [] + Taken(input, len) == Taken(input, len);
    output := ctx.Finish(Taken(input, len));
    if kind.Md5_32? {
      output := output[..4];
    }
  }
}
