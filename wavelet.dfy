/** The integer lifting wavelet of the PIZ codec: the 14-bit and 16-bit
    two-point decoders, their encoder partners, and the in-place inverse 2-D
    transform wav2Decode over one channel plane of a Uint16Array. */
module Wavelet {
  import opened Common

  const A_OFFSET: int := 0x8000
  const M_OFFSET: int := 0x8000
  const U16_RANGE: int := 0x1_0000

  /** `value & 0xFFFF`: the low 16 bits (an `undefined` read counts as 0). */
  function UInt16(v: int): (r: U16)
    ensures (r - v) % U16_RANGE == 0
    ensures 0 <= v < U16_RANGE ==> r == v
  {
    v % U16_RANGE
  }

  /** The signed reading of the low 16 bits. */
  function Int16(v: int): (r: int)
    ensures -0x8000 <= r < 0x8000
    ensures (r - v) % U16_RANGE == 0
    ensures -0x8000 <= v < 0x8000 ==> r == v
  {
    var u := UInt16(v);
    if u > 0x7FFF then u - U16_RANGE else u
  }

  /** The two outputs of a two-point decoder (the shared `wdec14Return`). */
  datatype Pair = Pair(a: int, b: int)

  /** wdec14: l is the floor mean and h the difference of the decoded pair.
      `hi & 1` and `hi >> 1` on a 16-bit signed value are its Euclidean
      remainder and quotient by 2. */
  function Wdec14(l: int, h: int): (r: Pair)
    ensures r.a - r.b == Int16(h)
    ensures (r.a + r.b) / 2 == Int16(l)
    ensures -0x8000 - 0x4000 <= r.b && r.a < 0x8000 + 0x4000
  {
    var ls := Int16(l);
    var hs := Int16(h);
    var ai := ls + hs % 2 + hs / 2;
    Pair(ai, ai - hs)
  }

  /** wenc14 of OpenEXR's wavelet encoder, storing into unsigned shorts: the
      floor mean and the difference of the signed readings. */
  function Wenc14(a: int, b: int): (r: Pair)
    ensures 0 <= r.a < U16_RANGE && 0 <= r.b < U16_RANGE
  {
    var as_ := Int16(a);
    var bs := Int16(b);
    Pair(UInt16((as_ + bs) / 2), UInt16(as_ - bs))
  }

  /** Decoding undoes 14-bit encoding: on values below 2^14 the pair comes
      back exactly. */
  lemma Wdec14Wenc14(a: int, b: int)
    requires 0 <= a < 0x4000 && 0 <= b < 0x4000
    ensures Wdec14(Wenc14(a, b).a, Wenc14(a, b).b) == Pair(a, b)
  {
    var e := Wenc14(a, b);
    assert e.a == (a + b) / 2;
    assert Int16(e.b) == a - b;
    var r := Wdec14(e.a, e.b);
    assert r.a - r.b == a - b;
    assert (r.a + r.b) / 2 == (a + b) / 2;
  }

  /** wdec16: the modular decoder. Both outputs are 16-bit, with
      b = m - (d >> 1) and a = d + b - 2^15 modulo 2^16. */
  function Wdec16(l: int, h: int): (r: Pair)
    ensures 0 <= r.a < U16_RANGE && 0 <= r.b < U16_RANGE
    ensures (r.b - (UInt16(l) - UInt16(h) / 2)) % U16_RANGE == 0
    ensures (r.a - (UInt16(h) + r.b - A_OFFSET)) % U16_RANGE == 0
  {
    var m := UInt16(l);
    var d := UInt16(h);
    var bb := UInt16(m - d / 2);
    var aa := UInt16(d + bb - A_OFFSET);
    Pair(aa, bb)
  }

  /** wenc16 of OpenEXR's wavelet encoder. */
  function Wenc16(a: int, b: int): (r: Pair)
    requires 0 <= a < U16_RANGE && 0 <= b < U16_RANGE
    ensures 0 <= r.a < U16_RANGE && 0 <= r.b < U16_RANGE
  {
    var ao := UInt16(a + A_OFFSET);
    var m := (ao + b) / 2;
    var d := ao - b;
    Pair(if d < 0 then UInt16(m + M_OFFSET) else m, UInt16(d))
  }

  /** `ao - b` and `ao + b` have the same parity, so their halves differ by b. */
  lemma HalfDifference(ao: int, b: int)
    ensures (ao + b) / 2 - (ao - b) / 2 == b
  {
  }

  /** ao = (a + 2^15) & 0xFFFF, less 2^15, is a again modulo 2^16. */
  lemma OffsetBack(a: int)
    requires 0 <= a < U16_RANGE
    ensures UInt16(UInt16(a + A_OFFSET) - A_OFFSET) == a
  {
    if a + A_OFFSET >= U16_RANGE {
      assert UInt16(a + A_OFFSET) == a + A_OFFSET - U16_RANGE;
      assert UInt16(a + A_OFFSET) - A_OFFSET == a - U16_RANGE;
    }
  }

  lemma Wdec16Wenc16Up(a: int, b: int)
    requires 0 <= a < U16_RANGE && 0 <= b < U16_RANGE
    requires UInt16(a + A_OFFSET) - b >= 0
    ensures Wdec16(Wenc16(a, b).a, Wenc16(a, b).b) == Pair(a, b)
  {
    var ao := UInt16(a + A_OFFSET);
    HalfDifference(ao, b);
    var e := Wenc16(a, b);
    assert e == Pair((ao + b) / 2, ao - b);
    assert UInt16(e.a - e.b / 2) == b;
    assert e.b + b - A_OFFSET == ao - A_OFFSET;
    OffsetBack(a);
  }

  /** With ao < b the encoder lifts m by 2^15 and d by 2^16; the decoder's
      b comes back. */
  lemma DownLow(ao: int, b: int)
    requires 0 <= ao < U16_RANGE && 0 <= b < U16_RANGE && ao - b < 0
    ensures UInt16(UInt16((ao + b) / 2 + M_OFFSET) - (ao - b + U16_RANGE) / 2) == b
  {
    HalfDifference(ao, b);
    var m := (ao + b) / 2;
    assert (ao - b + U16_RANGE) / 2 == (ao - b) / 2 + M_OFFSET;
    assert m + M_OFFSET - ((ao - b) / 2 + M_OFFSET) == b;
    var lifted := UInt16(m + M_OFFSET);
    assert (lifted - ((ao - b) / 2 + M_OFFSET) - b) % U16_RANGE == 0;
  }

  lemma UInt16Period(x: int)
    ensures UInt16(x + U16_RANGE) == UInt16(x)
  {
  }

  /** wdec16 on 16-bit inputs: b from l and h, then a from h and b. */
  lemma Wdec16Parts(l: int, h: int)
    requires 0 <= l < U16_RANGE && 0 <= h < U16_RANGE
    ensures Wdec16(l, h).b == UInt16(l - h / 2)
    ensures Wdec16(l, h).a == UInt16(h + UInt16(l - h / 2) - A_OFFSET)
  {
  }

  /** The two steps of wdec16 on the lifted encoding. */
  lemma DownParts(ea: int, eb: int, ao: int, b: int)
    requires 0 <= ao < U16_RANGE && 0 <= b < U16_RANGE && ao - b < 0
    requires ea == UInt16((ao + b) / 2 + M_OFFSET) && eb == ao - b + U16_RANGE
    ensures UInt16(ea - eb / 2) == b
    ensures UInt16(eb + UInt16(ea - eb / 2) - A_OFFSET) == UInt16(ao - A_OFFSET)
  {
    DownLow(ao, b);
    UInt16Period(ao - A_OFFSET);
    assert eb + b - A_OFFSET == ao - A_OFFSET + U16_RANGE;
  }

  lemma Wdec16Wenc16Down(a: int, b: int)
    requires 0 <= a < U16_RANGE && 0 <= b < U16_RANGE
    requires UInt16(a + A_OFFSET) - b < 0
    ensures Wdec16(Wenc16(a, b).a, Wenc16(a, b).b) == Pair(a, b)
  {
    var ao := UInt16(a + A_OFFSET);
    var e := Wenc16(a, b);
    assert e.a == UInt16((ao + b) / 2 + M_OFFSET) && e.b == ao - b + U16_RANGE;
    DownParts(e.a, e.b, ao, b);
    Wdec16Parts(e.a, e.b);
    OffsetBack(a);
  }

  /** Decoding undoes 16-bit encoding on every pair of 16-bit values. */
  lemma Wdec16Wenc16(a: int, b: int)
    requires 0 <= a < U16_RANGE && 0 <= b < U16_RANGE
    ensures Wdec16(Wenc16(a, b).a, Wenc16(a, b).b) == Pair(a, b)
  {
    if UInt16(a + A_OFFSET) - b >= 0 {
      Wdec16Wenc16Up(a, b);
    } else {
      Wdec16Wenc16Down(a, b);
    }
  }

  /** The decoder wav2Decode calls: wdec14 exactly when the largest value
      is below 2^14, wdec16 otherwise. */
  function Decoder(mx: int): (int, int) -> Pair
  {
    if mx < 0x4000 then Wdec14 else Wdec16
  }

  /** `buffer[i]` of the Uint16Array: `undefined` past either end, which the
      decoders read as 0. */
  function At(buf: seq<U16>, i: int): (r: U16)
    ensures 0 <= i < |buf| ==> r == buf[i]
  {
    if 0 <= i < |buf| then buf[i] else 0
  }

  /** `buffer[i] = v`: the Uint16Array stores v modulo 2^16 and drops a store
      past its end. */
  function Put(buf: seq<U16>, i: int, v: int): (r: seq<U16>)
  {
    if 0 <= i < |buf| then buf[i := UInt16(v)] else buf
  }

  /** A list of stores `buffer[i] = v`, applied first to last. */
  datatype Writes = Done | Write(i: int, v: int, rest: Writes)

  function Stores(buf: seq<U16>, ws: Writes): (r: seq<U16>)
    decreases ws
  {
    match ws
    case Done => buf
    case Write(i, v, rest) => Stores(Put(buf, i, v), rest)
  }

  /** One 2x2 step at q: the two columns (q, q + oy1) and (q + ox1, q + oy1 + ox1)
      first, then the two rows of the intermediate results. */
  function Quad(buf: seq<U16>, dec: (int, int) -> Pair, q: int, ox1: int, oy1: int): (r: seq<U16>)
  {
    var c0 := dec(At(buf, q), At(buf, q + oy1));
    var c1 := dec(At(buf, q + ox1), At(buf, q + oy1 + ox1));
    var r0 := dec(c0.a, c1.a);
    var r1 := dec(c0.b, c1.b);
    Stores(buf, Write(q, r0.a, Write(q + ox1, r0.b, Write(q + oy1, r1.a, Write(q + oy1 + ox1, r1.b, Done)))))
  }

  /** One two-point step on q0 and q1: q1 receives b before q0 receives a. */
  function Duo(buf: seq<U16>, dec: (int, int) -> Pair, q0: int, q1: int): (r: seq<U16>)
  {
    var d := dec(At(buf, q0), At(buf, q1));
    Stores(buf, Write(q1, d.b, Write(q0, d.a, Done)))
  }

  /** The buffer after a scan and the value of the scan's cursor when it
      stopped. */
  datatype Scan = Scan(buf: seq<U16>, at: int)

  /** The offsets of one level: ox1 = ox*p, oy1 = oy*p, ox2 = ox*p2, oy2 = oy*p2,
      exOff = ox*(nx - p2) and eyOff = oy*(ny - p2). */
  datatype Steps = Steps(ox1: int, oy1: int, ox2: int, oy2: int, exOff: int, eyOff: int)

  /** The inner loop of one row: 2x2 steps at px, px + ox2, ... while px <= ex. */
  function ColsFrom(buf: seq<U16>, dec: (int, int) -> Pair, j: int, px: int, ex: int, s: Steps): (r: Scan)
    requires s.ox2 >= 1
    decreases ex - px
  {
    if px > ex then Scan(buf, px)
    else ColsFrom(Quad(buf, dec, px + j, s.ox1, s.oy1), dec, j, px + s.ox2, ex, s)
  }

  /** The row loop of one level: each row's 2x2 steps, then, when the width has
      the level's bit, a two-point step on the column where the row's scan
      stopped. */
  function RowsFrom(buf: seq<U16>, dec: (int, int) -> Pair, j: int, py: int, ey: int, s: Steps, oddX: bool): (r: Scan)
    requires s.ox2 >= 1 && s.oy2 >= 1
    decreases ey - py
  {
    if py > ey then Scan(buf, py)
    else RowsFrom(RowAt(buf, dec, j, py, s, oddX), dec, j, py + s.oy2, ey, s, oddX)
  }

  /** One row of a level: its 2x2 steps and the optional edge step. */
  function RowAt(buf: seq<U16>, dec: (int, int) -> Pair, j: int, py: int, s: Steps, oddX: bool): (r: seq<U16>)
    requires s.ox2 >= 1
  {
    var c := ColsFrom(buf, dec, j, py, py + s.exOff, s);
    if oddX then Duo(c.buf, dec, c.at + j, c.at + s.oy1 + j) else c.buf
  }

  /** The loop over the last row when the height has the level's bit. */
  function EdgeFrom(buf: seq<U16>, dec: (int, int) -> Pair, j: int, px: int, ex: int, s: Steps): (r: seq<U16>)
    requires s.ox2 >= 1
    decreases ex - px
  {
    if px > ex then buf
    else EdgeFrom(Duo(buf, dec, px + j, px + s.ox1 + j), dec, j, px + s.ox2, ex, s)
  }

  /** JavaScript's `x & p` is non-zero, for p = 2^k with k < 31. */
  predicate HasBit(x: int, k: nat)
  {
    (ToInt32(x) / Pow2(k)) % 2 == 1
  }

  /** The plane one wav2Decode call works on. */
  datatype Plane = Plane(j: int, nx: int, ox: int, ny: int, oy: int)

  lemma MulPositive(a: int, b: int)
    requires a >= 1 && b >= 1
    ensures a * b >= 1
  {
  }

  /** The offsets of the level with p and p2 = 2p. */
  function StepsAt(g: Plane, p: int): (r: Steps)
    requires g.ox >= 1 && g.oy >= 1 && p >= 1
    ensures r.ox2 >= 1 && r.oy2 >= 1
  {
    MulPositive(g.ox, 2 * p);
    MulPositive(g.oy, 2 * p);
    Steps(g.ox * p, g.oy * p, g.ox * (2 * p), g.oy * (2 * p), g.ox * (g.nx - 2 * p), g.oy * (g.ny - 2 * p))
  }

  /** One level with p = 2^k, its row loop starting at py0; the result's cursor
      is where the row loop stopped, which the bottom-row pass also starts from. */
  function Level(buf: seq<U16>, dec: (int, int) -> Pair, g: Plane, k: nat, py0: int): (r: Scan)
    requires g.ox >= 1 && g.oy >= 1
  {
    var s := StepsAt(g, Pow2(k));
    var rows := RowsFrom(buf, dec, g.j, py0, py0 + s.eyOff, s, HasBit(g.nx, k));
    if HasBit(g.ny, k) then Scan(EdgeFrom(rows.buf, dec, g.j, rows.at, rows.at + s.exOff, s), rows.at)
    else rows
  }

  /** Where a level's row loop starts: the parser resets py to 0 on every
      level, the port only once before the first. */
  function LevelStart(v: Variant, py: int): int
  {
    if v == Parser then 0 else py
  }

  /** The remaining `count` levels, p = 2^(count-1) down to 1. */
  function LevelsFrom(v: Variant, buf: seq<U16>, dec: (int, int) -> Pair, g: Plane, count: nat, py: int): (r: seq<U16>)
    requires g.ox >= 1 && g.oy >= 1
    decreases count
  {
    if count == 0 then buf
    else
      var lv := Level(buf, dec, g, count - 1, LevelStart(v, py));
      LevelsFrom(v, lv.buf, dec, g, count - 1, lv.at)
  }

  /** A power of two below 2^30 has an exponent below 30. */
  lemma Pow2Below(e: nat)
    requires Pow2(e) < 0x4000_0000
    ensures e < 30
  {
    if e >= 30 {
      Pow2Monotone(30, e);
      Pow2Thirty();
    }
  }

  /** 2^30 is the only power of two up to 2^30 that reaches it. */
  lemma Pow2AtMost30(e: nat)
    requires e <= 30
    ensures Pow2(e) <= 0x4000_0000
    ensures Pow2(e) == 0x4000_0000 <==> e == 30
  {
    Pow2Thirty();
    if e < 30 {
      Pow2Monotone(e, 29);
    }
  }

  /** The exponent of the least power of two above n, searched from 2^e. */
  function TopExpFrom(n: int, e: nat): (r: nat)
    requires n < 0x4000_0000 && e <= 30
    requires e > 0 ==> Pow2(e - 1) <= n
    ensures e <= r <= 30 && Pow2(r) > n
    ensures r > 0 ==> Pow2(r - 1) <= n
    decreases 30 - e
  {
    if Pow2(e) > n then e
    else
      Pow2Below(e);
      TopExpFrom(n, e + 1)
  }

  /** The exponent of the least power of two above n. */
  function TopExp(n: int): (r: nat)
    requires n < 0x4000_0000
    ensures r <= 30 && Pow2(r) > n
    ensures r > 0 ==> Pow2(r - 1) <= n
  {
    TopExpFrom(n, 0)
  }

  /** The strides uncompressPIZ passes: ox is the number of words of a
      sample, at least 1, and oy = nx * ox the words of a row. */
  predicate Strided(g: Plane)
  {
    g.ox >= 1 && g.oy == g.nx * g.ox
  }

  /** With a level to decode (nx >= 2) the row stride is positive. */
  lemma StridedRows(g: Plane)
    requires Strided(g) && g.nx >= 2
    ensures g.oy >= 2
  {
    assert g.nx * g.ox >= 2 * g.ox;
  }

  /** wav2Decode as a whole: the number of levels is the exponent of the least
      power of two above min(nx, ny), less one. Past 2^30 the shifted `p`
      wraps to -2^31 and then sticks at 0, so the first loop never ends. */
  function Wav2(v: Variant, buf: seq<U16>, g: Plane, mx: int): (r: Result<seq<U16>>)
    requires Strided(g)
    ensures r.Err? <==> (if g.nx > g.ny then g.ny else g.nx) >= 0x4000_0000
    ensures r.Err? ==> r.error == Diverges
    ensures (if g.nx > g.ny then g.ny else g.nx) < 2 ==> r == Ok(buf)
  {
    var n := if g.nx > g.ny then g.ny else g.nx;
    if n >= 0x4000_0000 then Err(Diverges)
    else
      var e := TopExp(n);
      if e < 2 then Ok(buf)
      else
        assert g.oy >= 1 by {
          Pow2AtMost30(e - 1);
          StridedRows(g);
        }
        Ok(LevelsFrom(v, buf, Decoder(mx), g, e - 1, 0))
  }

  /** The 14-bit decoder is chosen exactly when the largest value is below
      2^14: the two decoders differ on (0, 0). */
  lemma DecoderChoice(mx: int)
    ensures Decoder(mx) == Wdec14 <==> mx < 0x4000
  {
    if mx >= 0x4000 {
      assert Wdec16(0, 0) != Wdec14(0, 0);
    }
  }

  /** With at most one level (min(nx, ny) < 4) the port's single `py` and the
      parser's per-level reset cannot differ. */
  lemma {:induction false} OneLevelSame(buf: seq<U16>, g: Plane, mx: int)
    requires Strided(g) && (if g.nx > g.ny then g.ny else g.nx) < 4
    ensures Wav2(Parser, buf, g, mx) == Wav2(Port, buf, g, mx)
  {
    var n := if g.nx > g.ny then g.ny else g.nx;
    var e := TopExp(n);
    if e >= 2 && g.ox >= 1 && g.oy >= 1 {
      assert e - 1 == 1;
      var dec := Decoder(mx);
      var lv := Level(buf, dec, g, 0, 0);
      assert LevelsFrom(Parser, buf, dec, g, 1, 0) == LevelsFrom(Parser, lv.buf, dec, g, 0, lv.at);
      assert LevelsFrom(Port, buf, dec, g, 1, 0) == LevelsFrom(Port, lv.buf, dec, g, 0, lv.at);
    }
  }

  /** Storing what is already there, or past the end, changes nothing. */
  lemma PutSame(buf: seq<U16>, i: int, v: int)
    requires At(buf, i) == UInt16(v) || !(0 <= i < |buf|)
    ensures Put(buf, i, v) == buf
  {
  }

  lemma StoresFour(buf: seq<U16>, w0: (int, int), w1: (int, int), w2: (int, int), w3: (int, int))
    ensures Stores(buf, Write(w0.0, w0.1, Write(w1.0, w1.1, Write(w2.0, w2.1, Write(w3.0, w3.1, Done)))))
         == Put(Put(Put(Put(buf, w0.0, w0.1), w1.0, w1.1), w2.0, w2.1), w3.0, w3.1)
  {
    var b1 := Put(buf, w0.0, w0.1);
    var b2 := Put(b1, w1.0, w1.1);
    var b3 := Put(b2, w2.0, w2.1);
    assert Stores(b3, Write(w3.0, w3.1, Done)) == Put(b3, w3.0, w3.1);
    assert Stores(b2, Write(w2.0, w2.1, Write(w3.0, w3.1, Done))) == Stores(b3, Write(w3.0, w3.1, Done));
  }

  lemma StoresTwo(buf: seq<U16>, w0: (int, int), w1: (int, int))
    ensures Stores(buf, Write(w0.0, w0.1, Write(w1.0, w1.1, Done))) == Put(Put(buf, w0.0, w0.1), w1.0, w1.1)
  {
    var b1 := Put(buf, w0.0, w0.1);
    assert Stores(b1, Write(w1.0, w1.1, Done)) == Put(b1, w1.0, w1.1);
  }

  /** Four stores of 0 on places that already hold 0 change nothing. */
  lemma ZeroStores(buf: seq<U16>, i0: int, i1: int, i2: int, i3: int)
    requires At(buf, i0) == 0 && At(buf, i1) == 0 && At(buf, i2) == 0 && At(buf, i3) == 0
    ensures Stores(buf, Write(i0, 0, Write(i1, 0, Write(i2, 0, Write(i3, 0, Done))))) == buf
  {
    StoresFour(buf, (i0, 0), (i1, 0), (i2, 0), (i3, 0));
    PutSame(buf, i0, 0);
    PutSame(buf, i1, 0);
    PutSame(buf, i2, 0);
    PutSame(buf, i3, 0);
  }

  /** A 2x2 step on four zeros (or on indices past the end) changes nothing
      when the decoder maps (0, 0) to (0, 0). */
  lemma QuadOfZeros(buf: seq<U16>, dec: (int, int) -> Pair, q: int, ox1: int, oy1: int)
    requires dec(0, 0) == Pair(0, 0)
    requires At(buf, q) == 0 && At(buf, q + ox1) == 0 && At(buf, q + oy1) == 0 && At(buf, q + oy1 + ox1) == 0
    ensures Quad(buf, dec, q, ox1, oy1) == buf
  {
    ZeroStores(buf, q, q + ox1, q + oy1, q + oy1 + ox1);
  }

  /** A 2x2 step keeps the length and every value outside its four places. */
  lemma QuadFrame(buf: seq<U16>, dec: (int, int) -> Pair, q: int, ox1: int, oy1: int, i: int)
    requires i != q && i != q + ox1 && i != q + oy1 && i != q + oy1 + ox1
    ensures |Quad(buf, dec, q, ox1, oy1)| == |buf|
    ensures At(Quad(buf, dec, q, ox1, oy1), i) == At(buf, i)
  {
    var c0 := dec(At(buf, q), At(buf, q + oy1));
    var c1 := dec(At(buf, q + ox1), At(buf, q + oy1 + ox1));
    var r0 := dec(c0.a, c1.a);
    var r1 := dec(c0.b, c1.b);
    StoresFour(buf, (q, r0.a), (q + ox1, r0.b), (q + oy1, r1.a), (q + oy1 + ox1, r1.b));
  }

  /** The example plane below: 4x4 values, ox = 1, oy = 4, and the buffer
      holds nothing but it, with one detail coefficient 2 of the finest level
      at index 1. */
  predicate OneDetail(buf: seq<U16>)
  {
    |buf| == 16 && forall i :: 0 <= i < 16 ==> buf[i] == (if i == 1 then 2 else 0)
  }

  function Grid4x4(): (g: Plane)
    ensures Strided(g) && g.oy >= 1
  {
    Plane(0, 4, 1, 4, 4)
  }

  lemma CoarseSteps()
    ensures StepsAt(Grid4x4(), Pow2(1)) == Steps(2, 8, 4, 16, 0, 0)
    ensures !HasBit(4, 1)
  {
    assert Pow2(1) == 2;
  }

  lemma FineSteps()
    ensures StepsAt(Grid4x4(), Pow2(0)) == Steps(1, 4, 2, 8, 2, 8)
    ensures !HasBit(4, 0)
  {
  }

  /** The coarse level (p = 2) meets only zeros and leaves py at 16. */
  lemma CoarseLevelIdle(buf: seq<U16>, dec: (int, int) -> Pair)
    requires OneDetail(buf) && dec(0, 0) == Pair(0, 0)
    ensures Level(buf, dec, Grid4x4(), 1, 0) == Scan(buf, 16)
  {
    var s := Steps(2, 8, 4, 16, 0, 0);
    CoarseSteps();
    assert buf[0] == 0 && buf[2] == 0 && buf[8] == 0 && buf[10] == 0;
    QuadOfZeros(buf, dec, 0, 2, 8);
    assert ColsFrom(buf, dec, 0, 4, 0, s) == Scan(buf, 4);
    assert ColsFrom(buf, dec, 0, 0, 0, s) == Scan(buf, 4);
    assert RowsFrom(buf, dec, 0, 16, 0, s, false) == Scan(buf, 16);
    assert RowsFrom(buf, dec, 0, 0, 0, s, false) == Scan(buf, 16);
  }

  /** Two 2x2 steps of the fine level's row py with every place past the end. */
  lemma FineRowPastEnd(buf: seq<U16>, dec: (int, int) -> Pair, py: int)
    requires |buf| <= py && dec(0, 0) == Pair(0, 0)
    ensures RowAt(buf, dec, 0, py, Steps(1, 4, 2, 8, 2, 8), false) == buf
  {
    var s := Steps(1, 4, 2, 8, 2, 8);
    QuadOfZeros(buf, dec, py, 1, 4);
    QuadOfZeros(buf, dec, py + 2, 1, 4);
    assert ColsFrom(buf, dec, 0, py + 4, py + 2, s) == Scan(buf, py + 4);
    assert ColsFrom(buf, dec, 0, py + 2, py + 2, s) == Scan(buf, py + 4);
  }

  /** From py = 16 the fine level's rows 16 and 24 lie past the end. */
  lemma PortFineLevelIdle(buf: seq<U16>, dec: (int, int) -> Pair)
    requires |buf| == 16 && dec(0, 0) == Pair(0, 0)
    ensures Level(buf, dec, Grid4x4(), 0, 16).buf == buf
  {
    var s := Steps(1, 4, 2, 8, 2, 8);
    FineSteps();
    FineRowPastEnd(buf, dec, 16);
    FineRowPastEnd(buf, dec, 24);
    assert RowsFrom(buf, dec, 0, 32, 24, s, false) == Scan(buf, 32);
    assert RowsFrom(buf, dec, 0, 24, 24, s, false) == Scan(buf, 32);
  }

  /** The values of wdec14 the example meets. */
  lemma Wdec14Zero()
    ensures Wdec14(0, 0) == Pair(0, 0)
  {
    assert Int16(0) == 0;
  }

  lemma Wdec14Mean()
    ensures Wdec14(2, 0) == Pair(2, 2)
  {
    assert Int16(0) == 0 && Int16(2) == 2;
  }

  lemma Wdec14Detail()
    ensures Wdec14(0, 2) == Pair(1, -1)
  {
    assert Int16(0) == 0 && Int16(2) == 2;
  }

  /** The first 2x2 step of the fine level turns the detail into the pixels
      1 and -1 (0xFFFF). */
  lemma FirstFineQuad(buf: seq<U16>, dec: (int, int) -> Pair)
    requires OneDetail(buf)
    requires dec(0, 0) == Pair(0, 0) && dec(2, 0) == Pair(2, 2) && dec(0, 2) == Pair(1, -1)
    ensures At(Quad(buf, dec, 0, 1, 4), 1) == 0xFFFF
  {
    assert At(buf, 0) == 0 && At(buf, 1) == 2 && At(buf, 4) == 0 && At(buf, 5) == 0;
    StoresFour(buf, (0, 1), (1, -1), (4, 1), (5, -1));
  }

  /** The rest of a fine row leaves index 1 alone. */
  lemma FineRowKeepsOne(buf: seq<U16>, dec: (int, int) -> Pair, py: int)
    requires py == 2 || py == 8 || py == 10
    ensures |ColsFrom(buf, dec, 0, py, if py == 2 then 2 else 10, Steps(1, 4, 2, 8, 2, 8)).buf| == |buf|
    ensures At(ColsFrom(buf, dec, 0, py, if py == 2 then 2 else 10, Steps(1, 4, 2, 8, 2, 8)).buf, 1) == At(buf, 1)
    decreases 16 - py
  {
    var b := Quad(buf, dec, py, 1, 4);
    QuadFrame(buf, dec, py, 1, 4, 1);
    if py == 8 {
      FineRowKeepsOne(b, dec, 10);
    }
  }

  /** From py = 0 the fine level's first step decodes the detail at index 1,
      and its later steps do not touch index 1. */
  lemma ParserFineLevel(buf: seq<U16>, dec: (int, int) -> Pair)
    requires OneDetail(buf)
    requires dec(0, 0) == Pair(0, 0) && dec(2, 0) == Pair(2, 2) && dec(0, 2) == Pair(1, -1)
    ensures |Level(buf, dec, Grid4x4(), 0, 0).buf| == 16
    ensures At(Level(buf, dec, Grid4x4(), 0, 0).buf, 1) == 0xFFFF
  {
    var s := Steps(1, 4, 2, 8, 2, 8);
    FineSteps();
    var b1 := Quad(buf, dec, 0, 1, 4);
    FirstFineQuad(buf, dec);
    QuadFrame(buf, dec, 0, 1, 4, 100);
    var c1 := ColsFrom(b1, dec, 0, 2, 2, s);
    FineRowKeepsOne(b1, dec, 2);
    assert ColsFrom(buf, dec, 0, 0, 2, s) == c1;
    var b2 := c1.buf;
    var c2 := ColsFrom(b2, dec, 0, 8, 10, s);
    FineRowKeepsOne(b2, dec, 8);
    assert RowsFrom(c2.buf, dec, 0, 16, 8, s, false) == Scan(c2.buf, 16);
    assert RowsFrom(b2, dec, 0, 8, 8, s, false) == Scan(c2.buf, 16);
    assert RowsFrom(buf, dec, 0, 0, 8, s, false) == Scan(c2.buf, 16);
  }

  /** The two levels of the example: the port's second level starts at
      py = 16, the parser's at py = 0. */
  lemma TwoLevels(buf: seq<U16>, dec: (int, int) -> Pair)
    requires OneDetail(buf)
    requires dec(0, 0) == Pair(0, 0) && dec(2, 0) == Pair(2, 2) && dec(0, 2) == Pair(1, -1)
    ensures LevelsFrom(Port, buf, dec, Grid4x4(), 2, 0) == buf
    ensures At(LevelsFrom(Parser, buf, dec, Grid4x4(), 2, 0), 1) == 0xFFFF
  {
    var g := Grid4x4();
    CoarseLevelIdle(buf, dec);
    PortFineLevelIdle(buf, dec);
    ParserFineLevel(buf, dec);
    var fine := Level(buf, dec, g, 0, 0);
    assert LevelsFrom(Port, buf, dec, g, 2, 0) == LevelsFrom(Port, buf, dec, g, 1, 16);
    assert LevelsFrom(Port, buf, dec, g, 1, 16) == buf;
    assert LevelsFrom(Parser, buf, dec, g, 2, 0) == LevelsFrom(Parser, buf, dec, g, 1, 16);
    assert LevelsFrom(Parser, buf, dec, g, 1, 16) == LevelsFrom(Parser, fine.buf, dec, g, 0, fine.at);
  }

  /** The port's single `py` skips the finest level. On a 4x4 plane whose
      only non-zero value is a detail coefficient of that level, the parser's
      second level starts again at row 0 and turns it into pixels, while the
      port's second level starts at row 4, past the plane, and leaves the
      buffer as it was. */
  lemma PortSkipsFinestLevel(buf: seq<U16>)
    requires OneDetail(buf)
    ensures Wav2(Port, buf, Grid4x4(), 2) == Ok(buf)
    ensures Wav2(Parser, buf, Grid4x4(), 2).Ok?
    ensures At(Wav2(Parser, buf, Grid4x4(), 2).value, 1) == 0xFFFF
  {
    Wav2OfGrid(Port, buf);
    Wav2OfGrid(Parser, buf);
    Wdec14Zero();
    Wdec14Mean();
    Wdec14Detail();
    TwoLevels(buf, Wdec14);
  }

  /** A 4x4 plane has two levels, decoded with wdec14 when the largest
      value is 2. */
  lemma Wav2OfGrid(v: Variant, buf: seq<U16>)
    ensures Wav2(v, buf, Grid4x4(), 2) == Ok(LevelsFrom(v, buf, Wdec14, Grid4x4(), 2, 0))
  {
    assert Pow2(2) == 4 && Pow2(3) == 8;
    assert TopExp(4) == 3;
    assert Decoder(2) == Wdec14;
  }

  // ---------------------------------------------------------------------------
  // The loops of wav2Decode over the array.

  /** A load of the JavaScript, with `undefined` read as 0. */
  function Load(buffer: array<U16>, i: int): (r: U16)
    reads buffer
    ensures r == At(buffer[..], i)
  {
    if 0 <= i < buffer.Length then buffer[i] else 0
  }

  method Store(buffer: array<U16>, i: int, v: int)
    modifies buffer
    ensures buffer[..] == Put(old(buffer[..]), i, v)
  {
    if 0 <= i < buffer.Length {
      buffer[i] := UInt16(v);
    }
  }

  method DecodeQuad(buffer: array<U16>, dec: (int, int) -> Pair, q: int, ox1: int, oy1: int)
    modifies buffer
    ensures buffer[..] == Quad(old(buffer[..]), dec, q, ox1, oy1)
  {
    var c0 := dec(Load(buffer, q), Load(buffer, q + oy1));
    var c1 := dec(Load(buffer, q + ox1), Load(buffer, q + oy1 + ox1));
    var r0 := dec(c0.a, c1.a);
    var r1 := dec(c0.b, c1.b);
    ghost var b0 := buffer[..];
    Store(buffer, q, r0.a);
    Store(buffer, q + ox1, r0.b);
    Store(buffer, q + oy1, r1.a);
    Store(buffer, q + oy1 + ox1, r1.b);
    StoresFour(b0, (q, r0.a), (q + ox1, r0.b), (q + oy1, r1.a), (q + oy1 + ox1, r1.b));
  }

  method DecodeDuo(buffer: array<U16>, dec: (int, int) -> Pair, q0: int, q1: int)
    modifies buffer
    ensures buffer[..] == Duo(old(buffer[..]), dec, q0, q1)
  {
    var d := dec(Load(buffer, q0), Load(buffer, q1));
    ghost var b0 := buffer[..];
    Store(buffer, q1, d.b);
    Store(buffer, q0, d.a);
    StoresTwo(b0, (q1, d.b), (q0, d.a));
  }

  lemma ColsStep(buf: seq<U16>, dec: (int, int) -> Pair, j: int, px: int, next: int, ex: int, s: Steps)
    requires s.ox2 >= 1 && px <= ex && next == px + s.ox2
    ensures ColsFrom(buf, dec, j, px, ex, s) == ColsFrom(Quad(buf, dec, px + j, s.ox1, s.oy1), dec, j, next, ex, s)
  {
  }

  /** One pass of the column loop: the 2x2 step at px. */
  method ColsBody(buffer: array<U16>, dec: (int, int) -> Pair, j: int, px: int, ex: int, s: Steps, ghost target: Scan)
    returns (next: int)
    requires s.ox2 >= 1 && px <= ex
    requires ColsFrom(buffer[..], dec, j, px, ex, s) == target
    modifies buffer
    ensures next == px + s.ox2
    ensures ColsFrom(buffer[..], dec, j, next, ex, s) == target
  {
    next := px + s.ox2;
    ColsStep(buffer[..], dec, j, px, next, ex, s);
    DecodeQuad(buffer, dec, px + j, s.ox1, s.oy1);
  }

  method DecodeCols(buffer: array<U16>, dec: (int, int) -> Pair, j: int, py: int, s: Steps) returns (px: int)
    requires s.ox2 >= 1
    modifies buffer
    ensures Scan(buffer[..], px) == ColsFrom(old(buffer[..]), dec, j, py, py + s.exOff, s)
  {
    px := py;
    var ex := py + s.exOff;
    ghost var target := ColsFrom(buffer[..], dec, j, py, ex, s);
    while px <= ex
      invariant ColsFrom(buffer[..], dec, j, px, ex, s) == target
      decreases ex - px
    {
      px := ColsBody(buffer, dec, j, px, ex, s, target);
    }
  }

  /** One row of a level: its 2x2 steps, then the edge step when the width
      has the level's bit. Returns where the row's scan stopped. */
  method DecodeRow(buffer: array<U16>, dec: (int, int) -> Pair, j: int, py: int, s: Steps, oddX: bool)
    requires s.ox2 >= 1
    modifies buffer
    ensures buffer[..] == RowAt(old(buffer[..]), dec, j, py, s, oddX)
  {
    ghost var c := ColsFrom(buffer[..], dec, j, py, py + s.exOff, s);
    var px := DecodeCols(buffer, dec, j, py, s);
    assert buffer[..] == c.buf && px == c.at;
    if oddX {
      DecodeDuo(buffer, dec, px + j, px + s.oy1 + j);
    }
  }

  lemma RowsStep(buf: seq<U16>, dec: (int, int) -> Pair, j: int, py: int, next: int, ey: int, s: Steps, oddX: bool)
    requires s.ox2 >= 1 && s.oy2 >= 1 && py <= ey && next == py + s.oy2
    ensures RowsFrom(buf, dec, j, py, ey, s, oddX) == RowsFrom(RowAt(buf, dec, j, py, s, oddX), dec, j, next, ey, s, oddX)
  {
  }

  /** One pass of the row loop: row py. */
  method RowsBody(buffer: array<U16>, dec: (int, int) -> Pair, j: int, py: int, ey: int, s: Steps, oddX: bool, ghost target: Scan)
    returns (next: int)
    requires s.ox2 >= 1 && s.oy2 >= 1 && py <= ey
    requires RowsFrom(buffer[..], dec, j, py, ey, s, oddX) == target
    modifies buffer
    ensures next == py + s.oy2
    ensures RowsFrom(buffer[..], dec, j, next, ey, s, oddX) == target
  {
    next := py + s.oy2;
    RowsStep(buffer[..], dec, j, py, next, ey, s, oddX);
    DecodeRow(buffer, dec, j, py, s, oddX);
  }

  method DecodeRows(buffer: array<U16>, dec: (int, int) -> Pair, j: int, py0: int, s: Steps, oddX: bool) returns (py: int)
    requires s.ox2 >= 1 && s.oy2 >= 1
    modifies buffer
    ensures Scan(buffer[..], py) == RowsFrom(old(buffer[..]), dec, j, py0, py0 + s.eyOff, s, oddX)
  {
    py := py0;
    var ey := py0 + s.eyOff;
    ghost var target := RowsFrom(buffer[..], dec, j, py0, ey, s, oddX);
    while py <= ey
      invariant RowsFrom(buffer[..], dec, j, py, ey, s, oddX) == target
      decreases ey - py
    {
      py := RowsBody(buffer, dec, j, py, ey, s, oddX, target);
    }
  }

  lemma EdgeStep(buf: seq<U16>, dec: (int, int) -> Pair, j: int, px: int, next: int, ex: int, s: Steps)
    requires s.ox2 >= 1 && px <= ex && next == px + s.ox2
    ensures EdgeFrom(buf, dec, j, px, ex, s) == EdgeFrom(Duo(buf, dec, px + j, px + s.ox1 + j), dec, j, next, ex, s)
  {
  }

  /** One pass of the bottom-row loop: the two-point step at px. */
  method EdgeBody(buffer: array<U16>, dec: (int, int) -> Pair, j: int, px: int, ex: int, s: Steps, ghost target: seq<U16>)
    returns (next: int)
    requires s.ox2 >= 1 && px <= ex
    requires EdgeFrom(buffer[..], dec, j, px, ex, s) == target
    modifies buffer
    ensures next == px + s.ox2
    ensures EdgeFrom(buffer[..], dec, j, next, ex, s) == target
  {
    next := px + s.ox2;
    EdgeStep(buffer[..], dec, j, px, next, ex, s);
    DecodeDuo(buffer, dec, px + j, px + s.ox1 + j);
  }

  method DecodeEdge(buffer: array<U16>, dec: (int, int) -> Pair, j: int, py: int, s: Steps)
    requires s.ox2 >= 1
    modifies buffer
    ensures buffer[..] == EdgeFrom(old(buffer[..]), dec, j, py, py + s.exOff, s)
  {
    var px := py;
    var ex := py + s.exOff;
    ghost var target := EdgeFrom(buffer[..], dec, j, py, ex, s);
    while px <= ex
      invariant EdgeFrom(buffer[..], dec, j, px, ex, s) == target
      decreases ex - px
    {
      px := EdgeBody(buffer, dec, j, px, ex, s, target);
    }
  }

  /** The body of the level loop for p = 2^k and p2 = 2p: the row loop from
      py, then the bottom-row pass when the height has the level's bit; py is
      left where the row loop stopped. */
  method DecodeLevel(buffer: array<U16>, dec: (int, int) -> Pair, g: Plane, ghost k: nat, p: int, p2: int, py0: int)
    returns (py: int)
    requires g.ox >= 1 && g.oy >= 1
    requires p == Pow2(k) && p2 == 2 * p
    modifies buffer
    ensures Scan(buffer[..], py) == Level(old(buffer[..]), dec, g, k, py0)
  {
    MulPositive(g.ox, p2);
    MulPositive(g.oy, p2);
    var s := Steps(g.ox * p, g.oy * p, g.ox * p2, g.oy * p2, g.ox * (g.nx - p2), g.oy * (g.ny - p2));
    assert s == StepsAt(g, p);
    py := DecodeRows(buffer, dec, g.j, py0, s, (ToInt32(g.nx) / p) % 2 == 1);
    if (ToInt32(g.ny) / p) % 2 == 1 {
      DecodeEdge(buffer, dec, g.j, py, s);
    }
  }

  lemma LevelsStep(v: Variant, buf: seq<U16>, dec: (int, int) -> Pair, g: Plane, count: nat, py: int)
    requires g.ox >= 1 && g.oy >= 1 && count >= 1
    ensures LevelsFrom(v, buf, dec, g, count, py)
         == LevelsFrom(v, Level(buf, dec, g, count - 1, LevelStart(v, py)).buf, dec, g, count - 1,
                       Level(buf, dec, g, count - 1, LevelStart(v, py)).at)
  {
  }

  /** The level loop: p from 2^(count-1) down to 1, p2 = 2p throughout. */
  method DecodeLevels(v: Variant, buffer: array<U16>, dec: (int, int) -> Pair, g: Plane, ghost count: nat, p0: int, p20: int)
    requires g.ox >= 1 && g.oy >= 1
    requires count == 0 <==> p0 < 1
    requires count > 0 ==> p0 == Pow2(count - 1) && p20 == 2 * p0
    modifies buffer
    ensures buffer[..] == LevelsFrom(v, old(buffer[..]), dec, g, count, 0)
  {
    var p, p2 := p0, p20;
    ghost var left: nat := count;
    ghost var cur := buffer[..];
    var py := 0;
    while p >= 1
      invariant left == 0 <==> p < 1
      invariant left > 0 ==> p == Pow2(left - 1) && p2 == 2 * p
      invariant buffer[..] == cur
      invariant LevelsFrom(v, cur, dec, g, left, py) == LevelsFrom(v, old(buffer[..]), dec, g, count, 0)
      decreases left
    {
      if v == Parser {
        py := 0;
      }
      LevelsStep(v, cur, dec, g, left, py);
      ghost var lv := Level(cur, dec, g, left - 1, py);
      py := DecodeLevel(buffer, dec, g, left - 1, p, p2, py);
      cur := lv.buf;
      p2 := p;
      p := p / 2;
      left := left - 1;
      if left > 0 {
        assert Pow2(left) == 2 * Pow2(left - 1);
      }
    }
  }

  /** The first loop of wav2Decode, `while (p <= n) p <<= 1`: the least
      power of two above n. From 2^30 on the shift wraps to -2^31 and then
      sticks at 0, both <= n, so the loop never ends. */
  method TopPower(n: int) returns (r: Result<int>)
    ensures r.Ok? <==> n < 0x4000_0000
    ensures r.Ok? ==> r.value == Pow2(TopExp(n))
    ensures r.Err? ==> r.error == Diverges
  {
    var p := 1;
    ghost var e: nat := 0;
    while p <= n
      invariant p == Pow2(e) && e <= 30
      invariant e > 0 ==> Pow2(e - 1) <= n
      invariant n < 0x4000_0000 ==> TopExpFrom(n, e) == TopExp(n)
      decreases 30 - e
    {
      if p == 0x4000_0000 {
        return Err(Diverges);
      }
      Pow2AtMost30(e);
      p := 2 * p;
      e := e + 1;
    }
    assert n < 0x4000_0000 by {
      Pow2AtMost30(e);
    }
    r := Ok(p);
  }

  /** The two halvings after the first loop: from 2^e, p = 2^(e-2) and
      p2 = 2^(e-1) when e >= 2, and p = 0 otherwise. */
  lemma Halves(e: nat)
    ensures e >= 2 ==> Pow2(e) / 2 / 2 == Pow2(e - 2) && Pow2(e) / 2 == 2 * Pow2(e - 2)
    ensures e >= 2 <==> Pow2(e) / 2 / 2 >= 1
  {
    if e >= 2 {
      assert Pow2(e) == 4 * Pow2(e - 2);
    } else {
      assert Pow2(e) <= 2;
    }
  }

  /** wav2Decode(buffer, j, nx, ox, ny, oy, mx). The returned py is discarded
      by its caller and is not modelled. */
  method Wav2Decode(v: Variant, buffer: array<U16>, j: int, nx: int, ox: int, ny: int, oy: int, mx: int)
    returns (r: Result<()>)
    requires Strided(Plane(j, nx, ox, ny, oy))
    modifies buffer
    ensures r.Ok? <==> Wav2(v, old(buffer[..]), Plane(j, nx, ox, ny, oy), mx).Ok?
    ensures r.Ok? ==> buffer[..] == Wav2(v, old(buffer[..]), Plane(j, nx, ox, ny, oy), mx).value
    ensures r.Err? ==> r.error == Diverges
  {
    var dec := Decoder(mx);
    var n := if nx > ny then ny else nx;
    var top := TopPower(n);
    if top.Err? {
      return Err(Diverges);
    }
    ghost var e := TopExp(n);
    var p := top.value / 2;
    var p2 := p;
    p := p / 2;
    Halves(e);
    var g := Plane(j, nx, ox, ny, oy);
    if p >= 1 {
      Pow2AtMost30(e - 1);
      StridedRows(g);
      DecodeLevels(v, buffer, dec, g, e - 1, p, p2);
    }
    r := Ok(());
  }
}
