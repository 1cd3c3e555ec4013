/** The tables of PIZ's canonical Huffman coder: the code-length table read
    from the block (hufUnpackEncTable), the canonical codes assigned from the
    lengths (hufCanonicalCodeTable) and the 14-bit decoding table built from
    the codes (hufClearDecTable, hufBuildDecTable). An encoding-table entry
    packs a code and its length as `length | code << 6`. */
module Huffman {
  import opened Common
  import opened Readers
  import opened Bits

  /** HUF_ENCSIZE = (1 << 16) + 1 symbols: every 16-bit value and the run code. */
  const EncSize: int := 65537
  /** HUF_DECBITS: the decoding table is indexed by 14 bits. */
  const DecBits: int := 14
  const DecSize: int := 16384
  const ShortZeroRun: int := 59
  const LongZeroRun: int := 63
  /** SHORTEST_LONG_RUN = 2 + LONG_ZEROCODE_RUN - SHORT_ZEROCODE_RUN. */
  const ShortestLongRun: int := 6
  /** Code lengths go up to 58 (hufTableBuffer has 59 entries). */
  const MaxLength: int := 58

  lemma Pow2DecBits()
    ensures Pow2(DecBits) == DecSize
  {
    assert Pow2(7) == 128;
    Pow2Add(7, 7);
  }

  lemma OverwriteConcat(u: seq<int>, j: int, a: seq<int>, x: seq<int>)
    requires 0 <= j && j + |a| + |x| <= |u|
    ensures Overwrite(u, j, a + x) == Overwrite(Overwrite(u, j, a), j + |a|, x)
  {
    var l, r := Overwrite(u, j, a + x), Overwrite(Overwrite(u, j, a), j + |a|, x);
    assert forall k :: 0 <= k < |u| ==> l[k] == r[k];
  }

  /** Every entry is a code length the canonical pass can count. */
  predicate LengthsOk(s: seq<int>)
  {
    forall k :: 0 <= k < |s| ==> 0 <= s[k] <= MaxLength
  }

  // ------------------------------------------------------ hufUnpackEncTable

  /** A code length as the packed table stores it. */
  type CodeLength = x: int | 0 <= x <= MaxLength

  /** The number of zero lengths a run code stands for. */
  type RunLength = x: int | 1 <= x witness 1

  /** One field of the packed table, and the reader state after it. */
  datatype Field<S> = Length(l: CodeLength, next: S) | ZeroRun(n: RunLength, next: S)

  /** The outcome of hufUnpackEncTable's loop: the lengths written from im
      on, the final reader state, and whether the loop ran to its end (false
      when it returned false, which skips the canonical pass). */
  datatype Unpacked<S> = Unpacked(lens: seq<int>, last: S, complete: bool)

  /** hufUnpackEncTable from symbol im on, over a reader `read` of fields
      with state S, where acc holds the lengths written so far. Its `p` is the
      same cursor object as `inOffset`, so the test `p - inOffset > ni` is
      `0 > ni`; a run reaching past iM + 1 throws. */
  function UnpackFrom<S>(read: S -> Field<S>, ni: int, im: int, iM: int, s: S, acc: seq<int>)
    : (r: Result<Unpacked<S>>)
    requires im <= iM + 1
    ensures r.Ok? ==> (r.value.complete <==> ni >= 0 || im > iM)
    ensures r.Err? ==> r.error == HufUnpackEncTable
    decreases iM + 1 - im
  {
    if im > iM then Ok(Unpacked(acc, s, true))
    else if 0 > ni then Ok(Unpacked(acc, s, false))
    else
      match read(s)
      case Length(l, t) => UnpackFrom(read, ni, im + 1, iM, t, acc + [l])
      case ZeroRun(n, t) =>
        if im + n > iM + 1 then Err(HufUnpackEncTable)
        else UnpackFrom(read, ni, im + n, iM, t, acc + Zeros(n))
  }

  /** What hufUnpackEncTable writes: the lengths already written stay, one
      length for each symbol im .. iM when the loop runs to its end, none when
      it returns false, and every length is one hufCanonicalCodeTable counts. */
  predicate Shaped<S>(r: Result<Unpacked<S>>, im: int, iM: int, acc: seq<int>)
  {
    r.Ok? ==>
      && acc <= r.value.lens
      && (LengthsOk(acc) ==> LengthsOk(r.value.lens))
      && (r.value.complete ==> |r.value.lens| == |acc| + (iM + 1 - im))
      && (!r.value.complete ==> r.value.lens == acc)
  }

  lemma {:induction false} UnpackShape<S>(read: S -> Field<S>, ni: int, im: int, iM: int, s: S, acc: seq<int>)
    requires im <= iM + 1
    ensures Shaped(UnpackFrom(read, ni, im, iM, s, acc), im, iM, acc)
    decreases iM + 1 - im
  {
    if im <= iM && ni >= 0 {
      match read(s)
      case Length(l, t) =>
        UnpackShape(read, ni, im + 1, iM, t, acc + [l]);
      case ZeroRun(n, t) =>
        if im + n <= iM + 1 {
          UnpackShape(read, ni, im + n, iM, t, acc + Zeros(n));
        }
    }
  }

  /** The reader of the packed table, and the same fields read straight
      off the bit stream. */
  function Fields(buf: seq<Byte>): Reader -> Field<Reader>
  {
    s => ReadField(buf, s)
  }

  function StreamFields(buf: seq<Byte>): nat -> Field<nat>
  {
    (bp: nat) => FieldAt(buf, bp)
  }

  /** Fields of the same kind and value, read from related states to
      related states. */
  predicate FieldsMatch<S, T>(f: Field<S>, g: Field<T>, sync: (S, T) -> bool)
  {
    && (if f.Length? then g.Length? && f.l == g.l else g.ZeroRun? && f.n == g.n)
    && sync(f.next, g.next)
  }

  /** Two readers that yield the same fields from related states. */
  ghost predicate SameFields<S(!new), T(!new)>(r1: S -> Field<S>, r2: T -> Field<T>, sync: (S, T) -> bool)
  {
    forall s, t :: sync(s, t) ==> FieldsMatch(r1(s), r2(t), sync)
  }

  /** The same lengths and the same outcome. */
  predicate SameLengths<S, T>(a: Result<Unpacked<S>>, b: Result<Unpacked<T>>)
  {
    a.Ok? == b.Ok? && (a.Ok? ==> a.value.lens == b.value.lens && a.value.complete == b.value.complete)
  }

  /** Readers that yield the same fields unpack the same lengths. */
  lemma {:induction false} UnpackSimulates<S(!new), T(!new)>(r1: S -> Field<S>, r2: T -> Field<T>, sync: (S, T) -> bool,
                                                  ni: int, im: int, iM: int, s: S, t: T, acc: seq<int>)
    requires im <= iM + 1 && sync(s, t) && SameFields(r1, r2, sync)
    ensures SameLengths(UnpackFrom(r1, ni, im, iM, s, acc), UnpackFrom(r2, ni, im, iM, t, acc))
    decreases iM + 1 - im
  {
    if im <= iM && ni >= 0 {
      var f, g := r1(s), r2(t);
      assert FieldsMatch(f, g, sync);
      match f
      case Length(l, s1) =>
        UnpackSimulates(r1, r2, sync, ni, im + 1, iM, s1, g.next, acc + [l]);
      case ZeroRun(n, s1) =>
        if im + n <= iM + 1 {
          UnpackSimulates(r1, r2, sync, ni, im + n, iM, s1, g.next, acc + Zeros(n));
        }
    }
  }

  /** The state of getBits: the held bits c, their count lc, and the cursor. */
  datatype Reader = Reader(c: int, lc: int, pos: int)

  /** getBits(6) and, after a 63, getBits(8): a 6-bit length of 63 is
      followed by 8 bits giving a run of that many plus 6 zero lengths, and 59
      to 62 stand for l - 57 zero lengths; smaller values are lengths. */
  function ReadField(buf: seq<Byte>, s: Reader): Field<Reader>
  {
    var r := ReadBits(buf, 6, s.c, s.lc, s.pos);
    if r.l == LongZeroRun then
      var r2 := ReadBits(buf, 8, r.c, r.lc, r.pos);
      ZeroRun(r2.l + ShortestLongRun, Reader(r2.c, r2.lc, r2.pos))
    else if r.l >= ShortZeroRun then ZeroRun(r.l - ShortZeroRun + 2, Reader(r.c, r.lc, r.pos))
    else Length(r.l, Reader(r.c, r.lc, r.pos))
  }

  /** The same field read off the bit stream at bit position bp; the state
      is the next bit position. */
  function FieldAt(buf: seq<Byte>, bp: nat): Field<nat>
  {
    var l := Stream(buf, bp, 6);
    StreamBound(buf, bp, 6);
    StreamBound(buf, bp + 6, 8);
    if l == LongZeroRun then ZeroRun(Stream(buf, bp + 6, 8) + ShortestLongRun, bp + 14)
    else if l >= ShortZeroRun then ZeroRun(l - ShortZeroRun + 2, bp + 6)
    else Length(l, bp + 6)
  }

  /** The reader's state is at bit position bp of the stream. */
  predicate At(buf: seq<Byte>, s: Reader, bp: nat)
  {
    Synced(buf, s.c, s.lc, s.pos) && bp == 8 * s.pos - s.lc
  }

  /** The reader's field is the stream's, and the reader stays in step. */
  lemma ReadFieldIsFieldAt(buf: seq<Byte>, s: Reader, bp: nat)
    requires At(buf, s, bp)
    ensures FieldsMatch(ReadField(buf, s), FieldAt(buf, bp), (s', t') => At(buf, s', t'))
  {
    ReadBitsNext(buf, 6, s.c, s.lc, s.pos);
    var r := ReadBits(buf, 6, s.c, s.lc, s.pos);
    if r.l == LongZeroRun {
      ReadBitsNext(buf, 8, r.c, r.lc, r.pos);
    }
  }

  /** hufUnpackEncTable decodes the fields of the bit stream from byte pos on:
      its lengths and its outcome are those the stream spells. */
  lemma UnpackReadsStream(buf: seq<Byte>, ni: int, im: int, iM: int, pos: nat)
    requires im <= iM + 1
    ensures SameLengths(UnpackFrom(Fields(buf), ni, im, iM, Reader(0, 0, pos), []),
                        UnpackFrom(StreamFields(buf), ni, im, iM, 8 * pos, []))
  {
    var sync := (s, bp) => At(buf, s, bp);
    forall s: Reader, bp: nat | sync(s, bp)
      ensures FieldsMatch(ReadField(buf, s), FieldAt(buf, bp), sync)
    {
      ReadFieldIsFieldAt(buf, s, bp);
    }
    SyncedAtStart(buf, pos);
    UnpackSimulates(Fields(buf), StreamFields(buf), sync, ni, im, iM, Reader(0, 0, pos), 8 * pos, []);
  }

  /** `while (zerun--) hcode[im++] = 0`. */
  method WriteZeros(hcode: array<int>, from: int, n: int)
    requires 0 <= from && 0 <= n && from + n <= hcode.Length
    modifies hcode
    ensures hcode[..] == Overwrite(old(hcode[..]), from, Zeros(n))
  {
    var k := 0;
    while k < n
      invariant 0 <= k <= n
      invariant hcode[..] == Overwrite(old(hcode[..]), from, Zeros(k))
    {
      OverwriteConcat(old(hcode[..]), from, Zeros(k), [0]);
      assert Zeros(k) + [0] == Zeros(k + 1);
      hcode[from + k] := 0;
      k := k + 1;
    }
  }

  /** The getBits calls of one pass of hufUnpackEncTable's loop. */
  method GetField(buf: seq<Byte>, s: Reader) returns (f: Field<Reader>)
    ensures f == ReadField(buf, s)
  {
    var r := GetBits(buf, 6, s.c, s.lc, s.pos);
    if r.l == LongZeroRun {
      var r2 := GetBits(buf, 8, r.c, r.lc, r.pos);
      f := ZeroRun(r2.l + ShortestLongRun, Reader(r2.c, r2.lc, r2.pos));
    } else if r.l >= ShortZeroRun {
      f := ZeroRun(r.l - ShortZeroRun + 2, Reader(r.c, r.lc, r.pos));
    } else {
      f := Length(r.l, Reader(r.c, r.lc, r.pos));
    }
  }

  /** The 6-bit value a field starts with, which hufUnpackEncTable stores
      at hcode[im] before a run overwrites it. */
  function SixBits<S>(f: Field<S>): int
  {
    match f
    case Length(l, _) => l
    case ZeroRun(n, _) => if n >= ShortestLongRun then LongZeroRun else n + ShortZeroRun - 2
  }

  /** One pass of hufUnpackEncTable's loop body for ni >= 0 and im <= iM,
      given the field it reads. `failed` is set when the body throws; the
      repeated test `p - inOffset > ni` before the second getBits is `0 > ni`
      again and cannot fire. */
  method UnpackStep<S>(ghost read: S -> Field<S>, ni: int, iM: int, im: int, s: S, f: Field<S>, hcode: array<int>,
                       ghost im0: int, ghost h0: seq<int>, ghost acc: seq<int>)
    returns (failed: bool, nextIm: int, ghost acc2: seq<int>)
    requires 0 <= im0 <= im <= iM < hcode.Length && ni >= 0 && f == read(s)
    requires |h0| == hcode.Length && im == im0 + |acc|
    requires hcode[..] == Overwrite(h0, im0, acc)
    modifies hcode
    ensures failed ==> UnpackFrom(read, ni, im, iM, s, acc) == Err(HufUnpackEncTable)
    ensures !failed ==> im < nextIm <= iM + 1 && nextIm == im0 + |acc2|
    ensures !failed ==> hcode[..] == Overwrite(h0, im0, acc2)
    ensures !failed ==> UnpackFrom(read, ni, nextIm, iM, f.next, acc2) == UnpackFrom(read, ni, im, iM, s, acc)
  {
    hcode[im] := SixBits(f);
    match f
    case Length(l, _) =>
      OverwriteConcat(h0, im0, acc, [l]);
      assert Overwrite(h0, im0, acc)[im := l] == Overwrite(Overwrite(h0, im0, acc), im, [l]);
      return false, im + 1, acc + [l];
    case ZeroRun(n, _) =>
      if im + n > iM + 1 {
        return true, im + n, acc;
      }
      WriteZeros(hcode, im, n);
      OverwriteConcat(h0, im0, acc, Zeros(n));
      assert hcode[..] == Overwrite(Overwrite(h0, im0, acc), im, Zeros(n));
      return false, im + n, acc + Zeros(n);
  }

  /** The loop of hufUnpackEncTable, before its call of hufCanonicalCodeTable:
      the lengths land in hcode from im0 on. Returns the cursor and whether
      the loop ran to its end. */
  method UnpackLengths(buf: seq<Byte>, pos0: int, ni: int, im0: int, iM: int, hcode: array<int>)
    returns (r: Result<(int, bool)>, ghost lens: seq<int>)
    requires 0 <= im0 <= iM + 1 && iM < hcode.Length
    modifies hcode
    ensures var u := UnpackFrom(Fields(buf), ni, im0, iM, Reader(0, 0, pos0), []);
      r.Ok? == u.Ok? && (r.Err? ==> r.error == u.error)
      && (r.Ok? ==> r.value == (u.value.last.pos, u.value.complete) && lens == u.value.lens
                    && im0 + |lens| <= hcode.Length && hcode[..] == Overwrite(old(hcode[..]), im0, lens))
  {
    ghost var read := Fields(buf);
    ghost var h0 := hcode[..];
    var im, s := im0, Reader(0, 0, pos0);
    lens := [];
    while im <= iM
      invariant im0 <= im <= iM + 1 && im == im0 + |lens|
      invariant hcode[..] == Overwrite(h0, im0, lens)
      invariant UnpackFrom(read, ni, im, iM, s, lens) == UnpackFrom(read, ni, im0, iM, Reader(0, 0, pos0), [])
      decreases iM + 1 - im
    {
      if 0 > ni {
        return Ok((s.pos, false)), lens;
      }
      var f := GetField(buf, s);
      var failed;
      failed, im, lens := UnpackStep(read, ni, iM, im, s, f, hcode, im0, h0, lens);
      if failed {
        return Err(HufUnpackEncTable), lens;
      }
      s := f.next;
    }
    r := Ok((s.pos, true));
  }
}
