/** The most-significant-bit-first reader of the Huffman decoder. A 32-bit
    accumulator c keeps the lc bits read ahead in its low bits; getChar shifts
    in one byte of a Uint8Array (a byte past the end reads as 0) and getBits
    refills byte by byte until at least nBits are held, then takes the top
    nBits of them. The bit-stream view (Stream) says which bits of the file
    those are. */
module Bits {
  import opened Common
  import opened Readers

  // ------------------------------------------------------- the bit stream

  /** Bit k of the byte stream, the most significant bit of each byte first. */
  function Bit(buf: seq<Byte>, k: nat): (b: nat)
    ensures b < 2
  {
    (ByteOr0(buf, k / 8) / Pow2(7 - k % 8)) % 2
  }

  /** The number whose binary digits, most significant first, are bits. */
  function Value(bits: seq<int>): int
  {
    if |bits| == 0 then 0 else 2 * Value(bits[..|bits| - 1]) + bits[|bits| - 1]
  }

  /** The bits start .. start + n - 1 of the stream. */
  function BitsAt(buf: seq<Byte>, start: nat, n: nat): (r: seq<int>)
    ensures |r| == n
  {
    seq(n, i requires 0 <= i < n => Bit(buf, start + i))
  }

  /** The value of the bits start .. start + n - 1 of the stream. */
  function Stream(buf: seq<Byte>, start: nat, n: nat): int
  {
    Value(BitsAt(buf, start, n))
  }

  /** The accumulator holds, in its low lc bits, the lc stream bits that end
      where byte pos begins. */
  predicate Synced(buf: seq<Byte>, c: int, lc: int, pos: int)
  {
    0 <= lc <= 32 && 0 <= pos && lc <= 8 * pos && LowBits(c, lc) == Stream(buf, 8 * pos - lc, lc)
  }

  /** The reader at the start of a block: nothing held. */
  lemma SyncedAtStart(buf: seq<Byte>, pos: nat)
    ensures Synced(buf, 0, 0, pos)
  {
  }

  // ---------------------------------------------------------- the readers

  /** getCharReturn together with the cursor. */
  datatype Char = Char(c: int, lc: int, pos: int)

  /** getChar: one more byte shifted in below the held bits. */
  function GetChar(buf: seq<Byte>, c: int, lc: int, pos: int): (r: Char)
    ensures r.lc == lc + 8 && r.pos == pos + 1
    ensures -TWO31 <= r.c < TWO31
  {
    Char(ShiftInByte(c, ByteOr0(buf, pos)), lc + 8, pos + 1)
  }

  /** getBitsReturn together with the cursor. */
  datatype BitsRead = BitsRead(l: int, c: int, lc: int, pos: int)

  /** getBits(nBits, c, lc): refill while fewer than nBits bits are held, then
      `(c >> lc) & ((1 << nBits) - 1)` with lc reduced by nBits. */
  function ReadBits(buf: seq<Byte>, nBits: nat, c: int, lc: int, pos: int): (r: BitsRead)
    requires nBits < 32
    ensures 0 <= r.l < Pow2(nBits)
    ensures r.pos >= pos && r.lc >= lc - nBits
    decreases if lc < nBits then nBits - lc else 0
  {
    if lc < nBits then
      var ch := GetChar(buf, c, lc, pos);
      ReadBits(buf, nBits, ch.c, ch.lc, ch.pos)
    else BitsRead(LowBits(Sar(c, lc - nBits), nBits), c, lc - nBits, pos)
  }

  /** The refill loop of getBits. */
  method GetBits(buf: seq<Byte>, nBits: nat, c0: int, lc0: int, pos0: int) returns (r: BitsRead)
    requires nBits < 32
    ensures r == ReadBits(buf, nBits, c0, lc0, pos0)
  {
    var c, lc, pos := c0, lc0, pos0;
    while lc < nBits
      invariant ReadBits(buf, nBits, c, lc, pos) == ReadBits(buf, nBits, c0, lc0, pos0)
      decreases nBits - lc
    {
      c := ShiftInByte(c, ByteOr0(buf, pos));
      lc := lc + 8;
      pos := pos + 1;
    }
    lc := lc - nBits;
    r := BitsRead(LowBits(Sar(c, lc), nBits), c, lc, pos);
  }

  // ------------------------------------------- reading the stream in order

  /** getChar keeps the accumulator in step with the stream: the new byte's
      eight bits come right after the bits already held. */
  lemma GetCharSynced(buf: seq<Byte>, c: int, lc: int, pos: int)
    requires Synced(buf, c, lc, pos) && lc <= 24
    ensures var r := GetChar(buf, c, lc, pos);
      Synced(buf, r.c, r.lc, r.pos) && 8 * r.pos - r.lc == 8 * pos - lc
  {
    var b := ByteOr0(buf, pos);
    var s := 8 * pos - lc;
    LowBitsShiftIn(c, lc, b);
    ByteStream(buf, pos);
    assert s + lc == 8 * pos;
    StreamSplit(buf, s, lc, 8);
    ShiftedByte(Stream(buf, s, lc));
  }

  /** getBits returns the next nBits bits of the stream and stays in step. */
  lemma {:induction false} ReadBitsNext(buf: seq<Byte>, nBits: nat, c: int, lc: int, pos: int)
    requires 0 < nBits <= 24 && Synced(buf, c, lc, pos)
    ensures var r := ReadBits(buf, nBits, c, lc, pos);
      r.l == Stream(buf, 8 * pos - lc, nBits)
      && Synced(buf, r.c, r.lc, r.pos) && 8 * r.pos - r.lc == 8 * pos - lc + nBits
    decreases if lc < nBits then nBits - lc else 0
  {
    if lc < nBits {
      GetCharSynced(buf, c, lc, pos);
      var ch := GetChar(buf, c, lc, pos);
      ReadBitsNext(buf, nBits, ch.c, ch.lc, ch.pos);
    } else {
      TakeTopBits(buf, c, lc, pos, nBits);
    }
  }

  /** The top n of the held bits, and what is left held. */
  lemma TakeTopBits(buf: seq<Byte>, c: int, lc: int, pos: int, n: nat)
    requires 0 < n <= lc && Synced(buf, c, lc, pos)
    ensures LowBits(Sar(c, lc - n), n) == Stream(buf, 8 * pos - lc, n)
    ensures Synced(buf, c, lc - n, pos)
  {
    var k := lc - n;
    var s := 8 * pos - lc;
    SarLow(c, k, n);
    Pow2Add(k, n);
    StreamSplit(buf, s, n, k);
    ShiftedIsProduct(Stream(buf, s, n), k);
    StreamBound(buf, s + n, k);
    TopDigits(ToInt32(c), Pow2(k), Pow2(n), Stream(buf, s, n), Stream(buf, s + n, k));
  }

  /** The low n bits of c >> k, for a shift count below 32. */
  lemma SarLow(c: int, k: nat, n: nat)
    requires k < 32 && n <= 32
    ensures LowBits(Sar(c, k), n) == (ToInt32(c) / Pow2(k)) % Pow2(n)
  {
    assert k % 32 == k;
    Int32Low(ToInt32(c) / Pow2(k), n);
  }

  /** The digits of x % (A * B) in the radix A. */
  lemma TopDigits(x: int, A: int, B: int, hi: int, lo: int)
    requires A > 0 && B > 0 && 0 <= lo < A
    requires x % (A * B) == hi * A + lo
    ensures (x / A) % B == hi && x % A == lo
  {
    DivThenMod(x, A, B);
    ModOfMod(x, A, B);
    LowHigh(hi, lo, A);
  }

  // ------------------------------------------------ stream arithmetic

  /** h * 2^n, written as n doublings. */
  function Shifted(h: int, n: nat): int
    decreases n
  {
    if n == 0 then h else 2 * Shifted(h, n - 1)
  }

  lemma {:induction false} ShiftedIsProduct(h: int, n: nat)
    ensures Shifted(h, n) == h * Pow2(n)
    decreases n
  {
    if n > 0 {
      ShiftedIsProduct(h, n - 1);
      DoubleStep(h, Pow2(n - 1), Pow2(n));
    }
  }

  lemma ShiftedByte(h: int)
    ensures Shifted(h, 8) == h * 256
  {
    ShiftedIsProduct(h, 8);
    assert Pow2(8) == 256;
  }

  lemma DoubleStep(h: int, p: int, P: int)
    requires P == 2 * p
    ensures 2 * (h * p) == h * P
  {
  }

  /** The bits of a + b: those of a shifted up past those of b. */
  lemma {:induction false} ValueConcat(a: seq<int>, b: seq<int>)
    ensures Value(a + b) == Shifted(Value(a), |b|) + Value(b)
    decreases |b|
  {
    if |b| > 0 {
      var b1 := b[..|b| - 1];
      ValueConcat(a, b1);
      assert (a + b)[..|a + b| - 1] == a + b1;
    } else {
      assert a + b == a;
    }
  }

  lemma StreamSplit(buf: seq<Byte>, s: nat, m: nat, n: nat)
    ensures Stream(buf, s, m + n) == Shifted(Stream(buf, s, m), n) + Stream(buf, s + m, n)
  {
    assert BitsAt(buf, s, m + n) == BitsAt(buf, s, m) + BitsAt(buf, s + m, n);
    ValueConcat(BitsAt(buf, s, m), BitsAt(buf, s + m, n));
  }

  /** n bits make a number below 2^n. */
  lemma {:induction false} StreamBound(buf: seq<Byte>, s: nat, n: nat)
    ensures 0 <= Stream(buf, s, n) < Pow2(n)
    decreases n
  {
    if n > 0 {
      StreamBound(buf, s, n - 1);
      StreamLast(buf, s, n);
    }
  }

  /** One more bit of the stream. */
  lemma StreamLast(buf: seq<Byte>, s: nat, n: nat)
    requires n > 0
    ensures Stream(buf, s, n) == 2 * Stream(buf, s, n - 1) + Bit(buf, s + n - 1)
  {
    assert BitsAt(buf, s, n)[..n - 1] == BitsAt(buf, s, n - 1);
  }

  /** The eight bits of byte pos spell the byte. */
  lemma ByteStream(buf: seq<Byte>, pos: nat)
    ensures Stream(buf, 8 * pos, 8) == ByteOr0(buf, pos)
  {
    ByteTop(buf, pos, 8);
    assert Pow2(0) == 1;
  }

  /** The first n bits of byte pos are its value shifted right by 8 - n. */
  lemma {:induction false} ByteTop(buf: seq<Byte>, pos: nat, n: nat)
    requires n <= 8
    ensures Stream(buf, 8 * pos, n) == ByteOr0(buf, pos) / Pow2(8 - n)
    decreases n
  {
    var b := ByteOr0(buf, pos);
    if n == 0 {
      assert Pow2(8) == 256;
    } else {
      ByteTop(buf, pos, n - 1);
      StreamLast(buf, 8 * pos, n);
      var k := 8 * pos + n - 1;
      ModUnique(k, 8, pos, n - 1);
      var e := 8 - n;
      assert Bit(buf, k) == (b / Pow2(e)) % 2;
      HalveFloor(b, e);
    }
  }

  /** Shifting right by one more bit: the quotient by 2^(e+1) is half the
      quotient by 2^e, rounded down. */
  lemma HalveFloor(b: nat, e: nat)
    ensures b / Pow2(e + 1) * 2 + (b / Pow2(e)) % 2 == b / Pow2(e)
  {
    var P := Pow2(e);
    assert Pow2(e + 1) == P * 2;
    DivDiv(b, P, 2);
  }

  /** The low lc + 8 bits after shifting in byte b are the old low lc bits
      followed by b, as long as no held bit is shifted out of 32. */
  lemma LowBitsShiftIn(c: int, lc: nat, b: Byte)
    requires lc <= 24
    ensures LowBits(ShiftInByte(c, b), lc + 8) == LowBits(c, lc) * 256 + b
  {
    var x := ToInt32(c);
    assert Pow2(8) == 256;
    assert 8 % 32 == 8;
    var t := Shl(c, 8);
    assert t == ToInt32(x * 256);
    Pow2Add(lc, 8);
    Int32Low(t + b, lc + 8);
    Int32Low(x * 256, lc + 8);
    ShiftInDigits(x, t, b, Pow2(lc), Pow2(lc + 8));
  }

  /** The arithmetic of LowBitsShiftIn: t agrees with 256 * x below P8. */
  lemma ShiftInDigits(x: int, t: int, b: int, P: int, P8: int)
    requires P > 0 && P8 == P * 256 && 0 <= b < 256
    requires t % P8 == (x * 256) % P8
    ensures (t + b) % P8 == (x % P) * 256 + b
  {
    var q, r := x / P, x % P;
    assert x == P * q + r;
    assert x * 256 == P8 * q + 256 * r;
    ModUnique(x * 256, P8, q, 256 * r);
    assert t == P8 * (t / P8) + 256 * r;
    ModUnique(t + b, P8, t / P8, 256 * r + b);
  }
}
