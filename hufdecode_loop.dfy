/** hufDecode and getCode as the loops they are, writing into outBuffer.
    Each loop is proved to end in the state the functions of HufDecode
    describe; the value written last is read back from outBuffer. */
module HufDecodeLoop {
  import opened Common
  import opened Readers
  import opened Bits
  import opened Huffman
  import opened DecTable
  import opened HufDecode

  /** The decoder's variables: held bits c and lc, the cursor, the output
      offset, and getCodeReturn. */
  datatype Cur = Cur(c: int, lc: int, pos: int, off: int, last: Reg)

  /** The variables are those of state s, and outBuffer holds s's output
      followed by what was there before. */
  predicate Mirrors(cur: Cur, s: Dec, cells: seq<int>, orig: seq<int>)
  {
    cur.c == s.c && cur.lc == s.lc && cur.pos == s.pos && cur.last == s.last && cur.off == |s.out|
    && |s.out| <= |orig| == |cells| && cells == s.out + orig[|s.out|..]
  }

  /** A method's outcome is the function's: the same error, or a state that
      mirrors the function's state. */
  predicate Agrees(r: Result<Cur>, spec: Result<Dec>, cells: seq<int>, orig: seq<int>)
  {
    r.Ok? == spec.Ok? && (r.Err? ==> r.error == spec.error) && (r.Ok? ==> Mirrors(r.value, spec.value, cells, orig))
  }

  // ------------------------------------------- one pass of each loop

  /** One pass of a loop that goes on. */
  lemma LoopPass<S>(step: S -> Result<S>, more: S -> bool, fuel: nat, s: S)
    requires more(s) && fuel > 0
    ensures Loop(step, more, fuel, s) == if step(s).Err? then Err(step(s).error) else Loop(step, more, fuel - 1, step(s).value)
  {
  }

  lemma OuterPass(x: Ctx, fuel: nat, s: Dec)
    requires CtxOk(x) && s.pos < x.inEnd
    ensures var ch := GetChar(x.buf, s.c, s.lc, s.pos);
      var t := Inner(x, fuel, s.(c := ch.c, lc := ch.lc, pos := ch.pos));
      Outer(x, fuel, s) == if t.Err? then Err(t.error) else Outer(x, fuel, t.value)
  {
  }

  /** Decode fails as the loops fail, or ends as the final loop ends after
      the loops. */
  lemma DecodeFails(x: Ctx, nBits: nat, fuel: nat, pos0: int, last: Reg)
    requires CtxOk(x) && Outer(x, fuel, Dec(0, 0, pos0, [], last)).Err?
    ensures Decode(x, nBits, fuel, pos0, last) == Err(Outer(x, fuel, Dec(0, 0, pos0, [], last)).error)
  {
  }

  lemma DecodeEnds(x: Ctx, nBits: nat, fuel: nat, pos0: int, last: Reg, t: Dec)
    requires CtxOk(x) && Outer(x, fuel, Dec(0, 0, pos0, [], last)) == Ok(t)
    ensures var i := (8 - nBits) % 8;
      Decode(x, nBits, fuel, pos0, last) == Tail(x, fuel, t.(c := Sar(t.c, i), lc := t.lc - i))
  {
  }

  /** The run copy loop `while (cs-- > 0) outBuffer[outBufferOffset.value++] = s`. */
  method CopyRun(a: array<U16>, off: int, v: U16, cs: int, ghost out: seq<int>, ghost orig: seq<int>)
    requires 0 <= off == |out| && 0 <= cs && off + cs <= a.Length == |orig|
    requires a[..] == out + orig[off..]
    modifies a
    ensures a[..] == (out + Copies(v, cs)) + orig[off + cs..]
  {
    var k := 0;
    while k < cs
      invariant 0 <= k <= cs
      invariant a[..] == (out + Copies(v, k)) + orig[off + k..]
    {
      a[off + k] := v;
      assert Copies(v, k + 1) == Copies(v, k) + [v];
      k := k + 1;
    }
  }

  /** getCode, with `c = getCodeReturn.c; lc = getCodeReturn.lc` after it. */
  method GetCodeM(x: Ctx, po: int, cur: Cur, a: array<U16>, ghost s: Dec, ghost orig: seq<int>) returns (r: Cur)
    requires Mirrors(cur, s, a[..], orig) && x.end <= a.Length
    modifies a
    ensures Mirrors(r, GetCode(x, po, s), a[..], orig)
  {
    if po == x.rlc {
      r := RunM(x, cur, a, s, orig);
    } else {
      r := PutM(x, po, cur, a, s, orig);
    }
  }

  /** getCode on the run-length symbol: the repeat count from the next 8
      bits, then the copies of the last value, or nothing when they would
      overflow the output. */
  method RunM(x: Ctx, cur: Cur, a: array<U16>, ghost s: Dec, ghost orig: seq<int>) returns (r: Cur)
    requires Mirrors(cur, s, a[..], orig) && x.end <= a.Length
    modifies a
    ensures Mirrors(r, GetCode(x, x.rlc, s), a[..], orig)
  {
    var ch := if cur.lc < 8 then GetChar(x.buf, cur.c, cur.lc, cur.pos) else Char(cur.c, cur.lc, cur.pos);
    var lc := ch.lc - 8;
    var cs := Sar(ch.c, lc) % 256;
    if cur.off + cs > x.end {
      assert GetCode(x, x.rlc, s) == Dec(s.last.c, s.last.lc, ch.pos, s.out, s.last);
      r := Cur(cur.last.c, cur.last.lc, ch.pos, cur.off, cur.last);
    } else {
      var v: U16 := if cur.off == 0 then 0 else a[cur.off - 1];
      assert GetCode(x, x.rlc, s) == Dec(ch.c, lc, ch.pos, s.out + Copies(v, cs), Reg(ch.c, lc));
      CopyRun(a, cur.off, v, cs, s.out, orig);
      r := Cur(ch.c, lc, ch.pos, cur.off + cs, Reg(ch.c, lc));
    }
  }

  /** getCode on any other symbol: one store, or nothing past the output. */
  method PutM(x: Ctx, po: int, cur: Cur, a: array<U16>, ghost s: Dec, ghost orig: seq<int>) returns (r: Cur)
    requires po != x.rlc && Mirrors(cur, s, a[..], orig) && x.end <= a.Length
    modifies a
    ensures Mirrors(r, GetCode(x, po, s), a[..], orig)
  {
    if cur.off < x.end {
      a[cur.off] := po % 65536;
      r := Cur(cur.c, cur.lc, cur.pos, cur.off + 1, Reg(cur.c, cur.lc));
      assert a[..] == (s.out + [po % 65536]) + orig[cur.off + 1..];
    } else {
      r := Cur(cur.last.c, cur.last.lc, cur.pos, cur.off, cur.last);
    }
  }

  /** `while (lc < l && inOffset.value < inOffsetEnd) getChar(...)`. */
  method RefillM(x: Ctx, c0: int, lc0: int, pos0: int, l: int) returns (r: Char)
    ensures r == Refill(x, c0, lc0, pos0, l)
  {
    var c, lc, pos := c0, lc0, pos0;
    while lc < l && pos < x.inEnd
      invariant Refill(x, c, lc, pos, l) == Refill(x, c0, lc0, pos0, l)
      decreases x.inEnd - pos
    {
      var ch := GetChar(x.buf, c, lc, pos);
      c, lc, pos := ch.c, ch.lc, ch.pos;
    }
    r := Char(c, lc, pos);
  }

  /** Trying one chained symbol: the refill loop, then the comparison of the
      code with the held bits and, on a match, getCode. */
  method TryCodeM(x: Ctx, sym: int, cur: Cur, a: array<U16>, ghost s: Dec, ghost orig: seq<int>) returns (found: bool, r: Cur)
    requires 0 <= sym < |x.enc| && Mirrors(cur, s, a[..], orig) && x.end <= a.Length
    modifies a
    ensures found == TryCode(x, s, sym).Found? && Mirrors(r, TryCode(x, s, sym).d, a[..], orig)
  {
    var e := x.enc[sym];
    var l := LowBits(e, 6);
    var ch := RefillM(x, cur.c, cur.lc, cur.pos, l);
    if ch.lc >= l && Sar(e, 6) == LowBits(Sar(ch.c, ch.lc - l), l % 32) {
      r := GetCodeM(x, sym, Cur(ch.c, ch.lc - l, ch.pos, cur.off, cur.last), a, s.(c := ch.c, lc := ch.lc - l, pos := ch.pos), orig);
      found := true;
    } else {
      r := Cur(ch.c, ch.lc, ch.pos, cur.off, cur.last);
      found := false;
    }
  }

  /** The `for (j = 0; j < pl.lit; j++)` loop over the long codes chained on
      pl; running off its end throws. */
  method SearchM(x: Ctx, cur0: Cur, pl: DecEntry, a: array<U16>, ghost s0: Dec, ghost orig: seq<int>) returns (r: Result<Cur>)
    requires CtxOk(x) && pl in x.dec && pl.len == 0
    requires Mirrors(cur0, s0, a[..], orig) && x.end <= a.Length
    modifies a
    ensures Agrees(r, Search(x, s0, pl, 0), a[..], orig)
  {
    var cur := cur0;
    ghost var s := s0;
    var j := 0;
    while j < pl.lit
      invariant 0 <= j
      invariant Mirrors(cur, s, a[..], orig) && Search(x, s, pl, j) == Search(x, s0, pl, 0)
      decreases pl.lit - j
    {
      var found;
      found, cur := TryCodeM(x, pl.p[j], cur, a, s, orig);
      if found {
        return Ok(cur);
      }
      s := TryCode(x, s, pl.p[j]).d;
      j := j + 1;
    }
    return Err(HufDecode);
  }

  /** One pass of the inner loop. */
  method InnerStepM(x: Ctx, cur: Cur, a: array<U16>, ghost s: Dec, ghost orig: seq<int>) returns (r: Result<Cur>)
    requires CtxOk(x) && Mirrors(cur, s, a[..], orig) && x.end <= a.Length
    modifies a
    ensures Agrees(r, InnerStep(x, s), a[..], orig)
  {
    var pl := x.dec[Index(cur.c, cur.lc)];
    if pl.len != 0 {
      var next := GetCodeM(x, pl.lit, cur.(lc := cur.lc - pl.len), a, s.(lc := s.lc - pl.len), orig);
      r := Ok(next);
    } else if pl.p == [] {
      r := Err(HufDecode);
    } else {
      r := SearchM(x, cur, pl, a, s, orig);
    }
  }

  /** The inner loop `while (lc >= HUF_DECBITS)`, with at most `fuel` passes. */
  method InnerM(x: Ctx, fuel0: nat, cur0: Cur, a: array<U16>, ghost s0: Dec, ghost orig: seq<int>) returns (r: Result<Cur>)
    requires CtxOk(x) && Mirrors(cur0, s0, a[..], orig) && x.end <= a.Length
    modifies a
    ensures Agrees(r, Inner(x, fuel0, s0), a[..], orig)
  {
    var cur, fuel := cur0, fuel0;
    ghost var s := s0;
    while cur.lc >= DecBits
      invariant Mirrors(cur, s, a[..], orig)
      invariant Loop(InnerPass(x), InnerMore(), fuel, s) == Inner(x, fuel0, s0)
      decreases fuel
    {
      if fuel == 0 {
        return Err(OutOfFuel);
      }
      LoopPass(InnerPass(x), InnerMore(), fuel, s);
      var step := InnerStepM(x, cur, a, s, orig);
      if step.Err? {
        return Err(step.error);
      }
      cur, fuel := step.value, fuel - 1;
      s := InnerStep(x, s).value;
    }
    r := Ok(cur);
  }

  /** The outer loop `while (inOffset.value < inOffsetEnd)`. */
  method OuterM(x: Ctx, fuel: nat, cur0: Cur, a: array<U16>, ghost s0: Dec, ghost orig: seq<int>) returns (r: Result<Cur>)
    requires CtxOk(x) && Mirrors(cur0, s0, a[..], orig) && x.end <= a.Length
    modifies a
    ensures Agrees(r, Outer(x, fuel, s0), a[..], orig)
  {
    var cur := cur0;
    ghost var s := s0;
    while cur.pos < x.inEnd
      invariant Mirrors(cur, s, a[..], orig) && Outer(x, fuel, s) == Outer(x, fuel, s0)
      decreases x.inEnd - cur.pos
    {
      OuterPass(x, fuel, s);
      var ch := GetChar(x.buf, cur.c, cur.lc, cur.pos);
      var t := InnerM(x, fuel, cur.(c := ch.c, lc := ch.lc, pos := ch.pos), a, s.(c := ch.c, lc := ch.lc, pos := ch.pos), orig);
      if t.Err? {
        return Err(t.error);
      }
      cur := t.value;
      s := Inner(x, fuel, s.(c := ch.c, lc := ch.lc, pos := ch.pos)).value;
    }
    r := Ok(cur);
  }

  /** One pass of the final loop `while (lc > 0)`. */
  method TailStepM(x: Ctx, cur: Cur, a: array<U16>, ghost s: Dec, ghost orig: seq<int>) returns (r: Result<Cur>)
    requires CtxOk(x) && Mirrors(cur, s, a[..], orig) && x.end <= a.Length
    modifies a
    ensures Agrees(r, TailStep(x, s), a[..], orig)
  {
    var pl := TailEntry(x, cur.c, cur.lc);
    if pl.len != 0 {
      var next := GetCodeM(x, pl.lit, cur.(lc := cur.lc - pl.len), a, s.(lc := s.lc - pl.len), orig);
      r := Ok(next);
    } else {
      r := Err(HufDecode);
    }
  }

  method TailM(x: Ctx, fuel0: nat, cur0: Cur, a: array<U16>, ghost s0: Dec, ghost orig: seq<int>) returns (r: Result<Cur>)
    requires CtxOk(x) && Mirrors(cur0, s0, a[..], orig) && x.end <= a.Length
    modifies a
    ensures Agrees(r, Tail(x, fuel0, s0), a[..], orig)
  {
    var cur, fuel := cur0, fuel0;
    ghost var s := s0;
    while cur.lc > 0
      invariant Mirrors(cur, s, a[..], orig)
      invariant Loop(TailPass(x), TailMore(), fuel, s) == Tail(x, fuel0, s0)
      decreases fuel
    {
      if fuel == 0 {
        return Err(OutOfFuel);
      }
      LoopPass(TailPass(x), TailMore(), fuel, s);
      var step := TailStepM(x, cur, a, s, orig);
      if step.Err? {
        return Err(step.error);
      }
      cur, fuel := step.value, fuel - 1;
      s := TailStep(x, s).value;
    }
    r := Ok(cur);
  }

  /** hufDecode: decodes nBits bits from pos0 into outBuffer from offset 0 on.
      The result is Decode's, and outBuffer holds the decoded values followed
      by what it held before; at most `no` values are written. */
  method HufDecodeM(enc: seq<int>, dec: seq<DecEntry>, buf: seq<Byte>, pos0: int, nBits: nat, rlc: int, no: int,
                    a: array<U16>, last: Reg, fuel: nat) returns (r: Result<Cur>)
    requires CtxOk(Ctx(buf, enc, dec, rlc, no, InEnd(pos0, nBits))) && no <= a.Length
    modifies a
    ensures Agrees(r, Decode(Ctx(buf, enc, dec, rlc, no, InEnd(pos0, nBits)), nBits, fuel, pos0, last), a[..], old(a[..]))
    ensures r.Ok? && 0 <= no ==> r.value.off <= no
  {
    var x := Ctx(buf, enc, dec, rlc, no, InEnd(pos0, nBits));
    ghost var orig := a[..];
    ghost var s0 := Dec(0, 0, pos0, [], last);
    var t := OuterM(x, fuel, Cur(0, 0, pos0, 0, last), a, s0, orig);
    if t.Err? {
      DecodeFails(x, nBits, fuel, pos0, last);
      return Err(t.error);
    }
    ghost var q := Outer(x, fuel, s0).value;
    DecodeEnds(x, nBits, fuel, pos0, last, q);
    var cur := t.value;
    var i := (8 - nBits) % 8;
    r := TailM(x, fuel, cur.(c := Sar(cur.c, i), lc := cur.lc - i), a, q.(c := Sar(q.c, i), lc := q.lc - i), orig);
  }
}
