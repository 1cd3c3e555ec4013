/** hufDecode and getCode: the Huffman decoder of PIZ. The decoder reads the
    bit stream through the 14-bit table; a short code is looked up directly,
    a longer one by trying the symbols chained on its top 14 bits. Symbol rlc
    is followed by 8 bits giving how many more copies of the previous value
    to emit. getCode's results pass through the module-level object
    getCodeReturn, which a failed getCode leaves as the previous call set it:
    that object is the register `last`. */
module HufDecode {
  import opened Common
  import opened Readers
  import opened Bits
  import opened Huffman
  import opened DecTable

  /** getCodeReturn: the held bits and their count. */
  datatype Reg = Reg(c: int, lc: int)

  /** The decoder's state: held bits c and their count lc, the cursor, the
      values written to outBuffer from offset 0 on, and getCodeReturn. */
  datatype Dec = Dec(c: int, lc: int, pos: int, out: seq<int>, last: Reg)

  /** What one decoding works on: the block, the encoding and decoding
      tables, the run symbol rlc, the number of values to write and the end
      of the bit stream in bytes. */
  datatype Ctx = Ctx(buf: seq<Byte>, enc: seq<int>, dec: seq<DecEntry>, rlc: int, end: int, inEnd: int)

  /** The tables as hufBuildDecTable leaves them: chains are well formed and
      name symbols of the encoding table. */
  predicate CtxOk(x: Ctx)
  {
    |x.dec| == DecSize && WellChained(x.dec) && SymbolsIn(x.dec, 0, |x.enc| - 1)
  }

  /** getCode(po, ...) followed by `c = getCodeReturn.c; lc = getCodeReturn.lc`.
      For po == rlc, 8 more bits (after a getChar when fewer are held) give a
      count cs, and cs copies of the last value written follow (outBuffer[-1]
      reads as 0); any other symbol is written once, as a 16-bit value. When
      the values would not fit below `end`, getCode returns false with
      getCodeReturn unchanged. */
  function GetCode(x: Ctx, po: int, s: Dec): (r: Dec)
    ensures r.c == r.last.c && r.lc == r.last.lc && r.pos >= s.pos
  {
    if po == x.rlc then
      var ch := if s.lc < 8 then GetChar(x.buf, s.c, s.lc, s.pos) else Char(s.c, s.lc, s.pos);
      var lc := ch.lc - 8;
      var cs := Sar(ch.c, lc) % 256;
      if |s.out| + cs > x.end then Dec(s.last.c, s.last.lc, ch.pos, s.out, s.last)
      else
        var v := if |s.out| == 0 then 0 else s.out[|s.out| - 1];
        Dec(ch.c, lc, ch.pos, s.out + Copies(v, cs), Reg(ch.c, lc))
    else if |s.out| < x.end then Dec(s.c, s.lc, s.pos, s.out + [po % 65536], Reg(s.c, s.lc))
    else Dec(s.last.c, s.last.lc, s.pos, s.out, s.last)
  }

  /** `(c >> (lc - 14)) & HUF_DECMASK`: the top 14 of the held bits. */
  function Index(c: int, lc: int): (i: int)
    ensures 0 <= i < DecSize
  {
    Pow2DecBits();
    LowBits(Sar(c, lc - DecBits), DecBits)
  }

  /** `while (lc < l && inOffset < inOffsetEnd) getChar(...)`. */
  function Refill(x: Ctx, c: int, lc: int, pos: int, l: int): (r: Char)
    ensures r.pos >= pos
    decreases x.inEnd - pos
  {
    if lc < l && pos < x.inEnd then
      var ch := GetChar(x.buf, c, lc, pos);
      Refill(x, ch.c, ch.lc, ch.pos, l)
    else Char(c, lc, pos)
  }

  /** Trying one chained symbol: l bits are held (after refilling) and
      they equal its code, or the loop moves on with the refilled bits. */
  datatype Try = Found(d: Dec) | Missed(d: Dec)

  function TryCode(x: Ctx, s: Dec, sym: int): (r: Try)
    requires 0 <= sym < |x.enc|
    ensures r.d.pos >= s.pos
  {
    var e := x.enc[sym];
    var l := LowBits(e, 6);
    var ch := Refill(x, s.c, s.lc, s.pos, l);
    if ch.lc >= l && Sar(e, 6) == LowBits(Sar(ch.c, ch.lc - l), l % 32) then
      Found(GetCode(x, sym, s.(c := ch.c, lc := ch.lc - l, pos := ch.pos)))
    else Missed(s.(c := ch.c, lc := ch.lc, pos := ch.pos))
  }

  /** The loop over the long codes chained on entry pl, from the j-th on;
      running off its end throws. */
  function Search(x: Ctx, s: Dec, pl: DecEntry, j: nat): (r: Result<Dec>)
    requires CtxOk(x) && pl in x.dec && pl.len == 0
    ensures r.Ok? ==> r.value.pos >= s.pos
    decreases pl.lit - j
  {
    if j >= pl.lit then Err(HufDecode)
    else
      match TryCode(x, s, pl.p[j])
      case Found(d) => Ok(d)
      case Missed(d) => Search(x, d, pl, j + 1)
  }

  /** One pass of the inner loop `while (lc >= HUF_DECBITS)`. An empty entry
      (no short code, `p` null) throws. */
  function InnerStep(x: Ctx, s: Dec): (r: Result<Dec>)
    requires CtxOk(x)
    ensures r.Ok? ==> r.value.pos >= s.pos
  {
    var pl := x.dec[Index(s.c, s.lc)];
    if pl.len != 0 then Ok(GetCode(x, pl.lit, s.(lc := s.lc - pl.len)))
    else if pl.p == [] then Err(HufDecode)
    else Search(x, s, pl, 0)
  }

  /** A loop `while (more(s)) s = step(s)` that stops at the first error,
      with at most `fuel` passes. */
  function Loop<S>(step: S -> Result<S>, more: S -> bool, fuel: nat, s: S): (r: Result<S>)
    ensures r.Ok? ==> !more(r.value)
    decreases fuel
  {
    if !more(s) then Ok(s)
    else if fuel == 0 then Err(OutOfFuel)
    else
      var t :- step(s);
      Loop(step, more, fuel - 1, t)
  }

  /** The passes and conditions of the inner and the final loop. */
  function InnerPass(x: Ctx): Dec -> Result<Dec>
    requires CtxOk(x)
  {
    (t: Dec) => InnerStep(x, t)
  }

  function InnerMore(): Dec -> bool
  {
    (t: Dec) => t.lc >= DecBits
  }

  function TailPass(x: Ctx): Dec -> Result<Dec>
    requires CtxOk(x)
  {
    (t: Dec) => TailStep(x, t)
  }

  function TailMore(): Dec -> bool
  {
    (t: Dec) => t.lc > 0
  }

  /** The state has not moved the cursor back before p. */
  function NotBefore(p: int): Dec -> bool
  {
    (t: Dec) => t.pos >= p
  }

  /** The inner loop `while (lc >= HUF_DECBITS)`. */
  function Inner(x: Ctx, fuel: nat, s: Dec): (r: Result<Dec>)
    requires CtxOk(x)
    ensures r.Ok? ==> r.value.lc < DecBits && r.value.pos >= s.pos
  {
    InnerMovesOn(x, s.pos);
    LoopKeeps(InnerPass(x), InnerMore(), fuel, s, NotBefore(s.pos));
    Loop(InnerPass(x), InnerMore(), fuel, s)
  }

  lemma InnerMovesOn(x: Ctx, p: int)
    requires CtxOk(x)
    ensures Preserves(InnerPass(x), InnerMore(), NotBefore(p))
  {
  }

  /** The outer loop `while (inOffset.value < inOffsetEnd)`: a getChar, then the
      inner loop. It ends since every pass moves the cursor on. */
  function Outer(x: Ctx, fuel: nat, s: Dec): (r: Result<Dec>)
    requires CtxOk(x)
    decreases x.inEnd - s.pos
  {
    if s.pos >= x.inEnd then Ok(s)
    else
      var ch := GetChar(x.buf, s.c, s.lc, s.pos);
      var t :- Inner(x, fuel, s.(c := ch.c, lc := ch.lc, pos := ch.pos));
      Outer(x, fuel, t)
  }

  /** One pass of the final loop `while (lc > 0)`: the held bits padded on
      the right to 14 index an entry, which must hold a short code. */
  function TailStep(x: Ctx, s: Dec): (r: Result<Dec>)
    requires CtxOk(x)
  {
    var pl := TailEntry(x, s.c, s.lc);
    if pl.len != 0 then Ok(GetCode(x, pl.lit, s.(lc := s.lc - pl.len)))
    else Err(HufDecode)
  }

  /** `decodingTable[(c << (HUF_DECBITS - lc)) & HUF_DECMASK]`. */
  function TailEntry(x: Ctx, c: int, lc: int): DecEntry
    requires CtxOk(x)
  {
    Pow2DecBits();
    x.dec[LowBits(Shl(c, DecBits - lc), DecBits)]
  }

  function Tail(x: Ctx, fuel: nat, s: Dec): (r: Result<Dec>)
    requires CtxOk(x)
    ensures r.Ok? ==> r.value.lc <= 0
  {
    Loop(TailPass(x), TailMore(), fuel, s)
  }

  /** hufDecode of nBits bits from pos0: the loops, then `c >>= i; lc -= i`
      with i = (8 - nBits) & 7 dropping the padding of the last byte, then the
      final loop. `last` is getCodeReturn as the decoding finds it. The fuel
      bounds the passes of each run of the inner loop and of the final loop. */
  function Decode(x: Ctx, nBits: nat, fuel: nat, pos0: int, last: Reg): (r: Result<Dec>)
    requires CtxOk(x)
    ensures 0 <= x.end && r.Ok? ==> |r.value.out| <= x.end
  {
    var s0 := Dec(0, 0, pos0, [], last);
    var s :- Outer(x, fuel, s0);
    var i := (8 - nBits) % 8;
    var t := s.(c := Sar(s.c, i), lc := s.lc - i);
    var r := Tail(x, fuel, t);
    if 0 <= x.end && r.Ok? then
      OuterWithin(x, fuel, s0);
      TailWithin(x, fuel, t);
      r
    else r
  }

  /** inOffsetEnd = trunc(inOffset + (nBits + 7) / 8). */
  function InEnd(pos0: int, nBits: nat): int
  {
    pos0 + (nBits + 7) / 8
  }

  // ------------------------------------------------------- loops in general

  /** inv holds after every pass that starts where it holds. */
  ghost predicate Preserves<S(!new)>(step: S -> Result<S>, more: S -> bool, inv: S -> bool)
  {
    forall t :: inv(t) && more(t) && step(t).Ok? ==> inv(step(t).value)
  }

  lemma {:induction false} LoopKeeps<S(!new)>(step: S -> Result<S>, more: S -> bool, fuel: nat, s: S, inv: S -> bool)
    requires inv(s) && Preserves(step, more, inv)
    ensures Loop(step, more, fuel, s).Ok? ==> inv(Loop(step, more, fuel, s).value)
    decreases fuel
  {
    if more(s) && fuel > 0 && step(s).Ok? {
      LoopKeeps(step, more, fuel - 1, step(s).value, inv);
    }
  }

  /** A pass that leaves the state as it was repeats until the fuel runs out. */
  lemma {:induction false} LoopStalls<S>(step: S -> Result<S>, more: S -> bool, fuel: nat, s: S)
    requires more(s) && step(s) == Ok(s)
    ensures Loop(step, more, fuel, s) == Err(OutOfFuel)
    decreases fuel
  {
    if fuel > 0 {
      LoopStalls(step, more, fuel - 1, s);
    }
  }

  // ------------------------------------------------- writes stay in bounds

  /** s only appended to what s0 had written, and stayed below `end`. */
  predicate Within(x: Ctx, s0: Dec, s: Dec)
  {
    s0.out <= s.out && |s.out| <= x.end
  }

  /** getCode only appends, and never past `end`. */
  lemma GetCodeWithin(x: Ctx, po: int, s: Dec)
    requires |s.out| <= x.end
    ensures Within(x, s, GetCode(x, po, s))
  {
  }

  lemma {:induction false} SearchWithin(x: Ctx, s: Dec, pl: DecEntry, j: nat)
    requires CtxOk(x) && pl in x.dec && pl.len == 0 && |s.out| <= x.end && Search(x, s, pl, j).Ok?
    ensures Within(x, s, Search(x, s, pl, j).value)
    decreases pl.lit - j
  {
    TryWithin(x, s, pl.p[j]);
    if TryCode(x, s, pl.p[j]).Missed? {
      SearchWithin(x, TryCode(x, s, pl.p[j]).d, pl, j + 1);
    }
  }

  lemma TryWithin(x: Ctx, s: Dec, sym: int)
    requires 0 <= sym < |x.enc| && |s.out| <= x.end
    ensures Within(x, s, TryCode(x, s, sym).d)
  {
    var e := x.enc[sym];
    var l := LowBits(e, 6);
    var ch := Refill(x, s.c, s.lc, s.pos, l);
    GetCodeWithin(x, sym, s.(c := ch.c, lc := ch.lc - l, pos := ch.pos));
  }

  lemma InnerStepWithin(x: Ctx, s: Dec)
    requires CtxOk(x) && |s.out| <= x.end && InnerStep(x, s).Ok?
    ensures Within(x, s, InnerStep(x, s).value)
  {
    var pl := x.dec[Index(s.c, s.lc)];
    if pl.len != 0 {
      GetCodeWithin(x, pl.lit, s.(lc := s.lc - pl.len));
    } else {
      SearchWithin(x, s, pl, 0);
    }
  }

  lemma TailStepWithin(x: Ctx, s: Dec)
    requires CtxOk(x) && |s.out| <= x.end && TailStep(x, s).Ok?
    ensures Within(x, s, TailStep(x, s).value)
  {
    var pl := TailEntry(x, s.c, s.lc);
    GetCodeWithin(x, pl.lit, s.(lc := s.lc - pl.len));
  }

  /** The states that only appended to s0's output and stayed below `end`. */
  function From(x: Ctx, s0: Dec): Dec -> bool
  {
    (t: Dec) => Within(x, s0, t)
  }

  lemma InnerStaysWithin(x: Ctx, s0: Dec)
    requires CtxOk(x)
    ensures Preserves(InnerPass(x), InnerMore(), From(x, s0))
  {
    forall t | From(x, s0)(t) && InnerMore()(t) && InnerPass(x)(t).Ok?
      ensures From(x, s0)(InnerPass(x)(t).value)
    {
      InnerStepWithin(x, t);
    }
  }

  lemma TailStaysWithin(x: Ctx, s0: Dec)
    requires CtxOk(x)
    ensures Preserves(TailPass(x), TailMore(), From(x, s0))
  {
    forall t | From(x, s0)(t) && TailMore()(t) && TailPass(x)(t).Ok?
      ensures From(x, s0)(TailPass(x)(t).value)
    {
      TailStepWithin(x, t);
    }
  }

  lemma InnerWithin(x: Ctx, fuel: nat, s: Dec)
    requires CtxOk(x) && |s.out| <= x.end && Inner(x, fuel, s).Ok?
    ensures Within(x, s, Inner(x, fuel, s).value)
  {
    InnerStaysWithin(x, s);
    LoopKeeps(InnerPass(x), InnerMore(), fuel, s, From(x, s));
  }

  lemma TailWithin(x: Ctx, fuel: nat, s: Dec)
    requires CtxOk(x) && |s.out| <= x.end && Tail(x, fuel, s).Ok?
    ensures Within(x, s, Tail(x, fuel, s).value)
  {
    TailStaysWithin(x, s);
    LoopKeeps(TailPass(x), TailMore(), fuel, s, From(x, s));
  }

  lemma {:induction false} OuterWithin(x: Ctx, fuel: nat, s: Dec)
    requires CtxOk(x) && |s.out| <= x.end && Outer(x, fuel, s).Ok?
    ensures Within(x, s, Outer(x, fuel, s).value)
    decreases x.inEnd - s.pos
  {
    if s.pos < x.inEnd {
      var ch := GetChar(x.buf, s.c, s.lc, s.pos);
      var s1 := s.(c := ch.c, lc := ch.lc, pos := ch.pos);
      var t := Inner(x, fuel, s1).value;
      InnerWithin(x, fuel, s1);
      OuterWithin(x, fuel, t);
    }
  }

  // ------------------------------------------------------ decoding a code

  /** When the next l <= 14 stream bits are `code`, the 14-bit index lies
      among the slots that start with it. */
  lemma ShortIndex(buf: seq<Byte>, c: int, lc: int, pos: int, l: int, code: int)
    requires Synced(buf, c, lc, pos) && DecBits <= lc && 0 < l <= DecBits
    requires Stream(buf, 8 * pos - lc, l) == code
    ensures Shl(code, DecBits - l) <= Index(c, lc) < Shl(code, DecBits - l) + Pow2(DecBits - l)
    ensures Synced(buf, c, lc - l, pos)
  {
    var bp := 8 * pos - lc;
    var k := DecBits - l;
    TakeTopBits(buf, c, lc, pos, DecBits);
    TakeTopBits(buf, c, lc, pos, l);
    StreamSplit(buf, bp, l, k);
    ShiftedIsProduct(code, k);
    StreamBound(buf, bp + l, k);
    StreamBound(buf, bp, DecBits);
    StreamBound(buf, bp, l);
    Pow2DecBits();
    Pow2Monotone(l, DecBits);
    ShlSmall(code, k);
  }

  /** `code << k` without wrap-around. */
  lemma ShlSmall(code: int, k: int)
    requires 0 <= k < 32 && 0 <= code && code * Pow2(k) < DecSize
    ensures Shl(code, k) == code * Pow2(k)
  {
    assert k % 32 == k;
    if code > 0 {
      MulLe(code, Pow2(k), 1);
    }
    Int32Id(code);
    Int32Id(code * Pow2(k));
  }

  /** When the next l <= 14 bits of the stream are the code of a symbol the
      table placed, one pass of the inner loop writes that symbol and moves
      l bits on, still in step with the stream. */
  lemma ShortCodeDecodes(x: Ctx, s: Dec, sym: int, l: int, code: int)
    requires CtxOk(x) && 0 <= sym < |x.enc| && Placed(x.enc[sym], sym, x.dec)
    requires l == LowBits(x.enc[sym], 6) && code == Sar(x.enc[sym], 6) && 0 < l <= DecBits
    requires Synced(x.buf, s.c, s.lc, s.pos) && DecBits <= s.lc
    requires Stream(x.buf, 8 * s.pos - s.lc, l) == code
    requires sym != x.rlc && |s.out| < x.end
    ensures InnerStep(x, s) == Ok(Dec(s.c, s.lc - l, s.pos, s.out + [sym % 65536], Reg(s.c, s.lc - l)))
    ensures Synced(x.buf, s.c, s.lc - l, s.pos)
  {
    ShortIndex(x.buf, s.c, s.lc, s.pos, l, code);
    var idx := Index(s.c, s.lc);
    assert x.dec[idx] == DecEntry(l, sym, []);
  }

  // ------------------------------------------------ a full output stalls

  /** Once `end` values are written, a getCode for a short code fails and
      leaves getCodeReturn as it was; when that is the current state, the
      inner loop comes back to where it was and never ends. */
  lemma StallsWhenFull(x: Ctx, fuel: nat, s: Dec)
    requires CtxOk(x) && DecBits <= s.lc && |s.out| >= x.end && s.last == Reg(s.c, s.lc)
    requires x.dec[Index(s.c, s.lc)].len != 0 && x.dec[Index(s.c, s.lc)].lit != x.rlc
    ensures Inner(x, fuel, s) == Err(OutOfFuel)
  {
    assert InnerPass(x)(s) == Ok(s);
    LoopStalls(InnerPass(x), InnerMore(), fuel, s);
  }
}
