/** hufUncompress: the Huffman stage of PIZ. A 20-byte header gives the
    range of symbols im .. iM that have codes and the number of bits of the
    coded stream; the packed code lengths follow, then the stream. Symbol iM
    is the run symbol. */
module HufUncompress {
  import opened Common
  import opened Readers
  import opened Huffman
  import opened Canonical
  import opened DecTable
  import opened HufDecode
  import opened HufDecodeLoop

  /** im, iM and nBits, and the cursor after the header. */
  datatype HufHeader = HufHeader(im: nat, iM: nat, nBits: nat, pos: nat)

  /** Three 32-bit words, each of the last two after four skipped bytes. */
  function ReadHufHeader(buf: seq<Byte>, pos0: nat): (r: Result<HufHeader>)
    ensures r.Ok? <==> pos0 + 16 <= |buf|
    ensures r.Ok? ==> r.value.pos == pos0 + 20
  {
    var im :- ReadU32(buf, pos0);
    var iM :- ReadU32(buf, im.next);
    var nBits :- ReadU32(buf, iM.next + 4);
    Ok(HufHeader(im.value, iM.value, nBits.value, nBits.next + 4))
  }

  /** hufUnpackEncTable's loop from im on with ni bytes left; when im > iM it
      does not run. */
  function Unpack(buf: seq<Byte>, ni: int, im: int, iM: int, pos: nat): Result<Unpacked<Reader>>
  {
    if im > iM then Ok(Unpacked([], Reader(0, 0, pos), true))
    else UnpackFrom(Fields(buf), ni, im, iM, Reader(0, 0, pos), [])
  }

  lemma UnpackShaped(buf: seq<Byte>, ni: int, im: int, iM: int, pos: nat)
    requires 0 <= im < EncSize && iM < EncSize && Unpack(buf, ni, im, iM, pos).Ok?
    ensures im + |Unpack(buf, ni, im, iM, pos).value.lens| <= EncSize
    ensures LengthsOk(Unpack(buf, ni, im, iM, pos).value.lens)
  {
    if im <= iM {
      var none: seq<int> := [];
      assert LengthsOk(none);
      UnpackShape(Fields(buf), ni, im, iM, Reader(0, 0, pos), none);
    }
  }

  /** The encoding table `freq` after hufUnpackEncTable: the lengths written
      from im on over a table that holds no length (JavaScript's `new
      Array(HUF_ENCSIZE)` holds `undefined`, which every later use reads as
      0), then the canonical codes when the loop ran to its end. */
  function EncTable(u: Unpacked<Reader>, im: nat): (t: seq<int>)
    requires im + |u.lens| <= EncSize && LengthsOk(u.lens)
    ensures |t| == EncSize
  {
    var lens := Overwrite(Zeros(EncSize), im, u.lens);
    assert LengthsOk(lens);
    if u.complete then CodeTable(lens) else lens
  }

  /** The decoding table hufClearDecTable leaves. */
  function Cleared(): (t: seq<DecEntry>)
    ensures |t| == DecSize && WellChained(t) && SymbolsIn(t, 0, EncSize - 1)
  {
    seq(DecSize, _ => Empty)
  }

  /** The whole of hufUncompress, reading nCompressed bytes from pos0 and
      decoding at most nRaw values; `last` is getCodeReturn as it finds it. */
  function Uncompress(buf: seq<Byte>, pos0: nat, nCompressed: int, nRaw: int, last: Reg, fuel: nat): (r: Result<Dec>)
    ensures 0 <= nRaw && r.Ok? ==> |r.value.out| <= nRaw
  {
    var h :- ReadHufHeader(buf, pos0);
    if h.im >= EncSize || h.iM >= EncSize then Err(HufEncSize)
    else
      var ni := nCompressed - (h.pos - pos0);
      var u :- Unpack(buf, ni, h.im, h.iM, h.pos);
      var pos := u.last.pos;
      if h.nBits > 8 * (nCompressed - (pos - pos0)) then Err(HufUncompress)
      else
        UnpackShaped(buf, ni, h.im, h.iM, h.pos);
        DecodeTables(buf, h, u, nRaw, last, fuel)
  }

  /** The rest of hufUncompress once the header and the code lengths are
      read: hufBuildDecTable over the canonical table, then hufDecode from
      the cursor the lengths left. */
  function DecodeTables(buf: seq<Byte>, h: HufHeader, u: Unpacked<Reader>, nRaw: int, last: Reg, fuel: nat): (r: Result<Dec>)
    requires h.im < EncSize && h.iM < EncSize && h.im + |u.lens| <= EncSize && LengthsOk(u.lens)
    ensures 0 <= nRaw && r.Ok? ==> |r.value.out| <= nRaw
  {
    var enc := EncTable(u, h.im);
    var dec :- BuildFrom(enc, h.im, h.iM, Cleared());
    TablesReady(enc, h.im, h.iM, buf, nRaw, h.nBits, u.last.pos);
    Decode(Ctx(buf, enc, dec, h.iM, nRaw, InEnd(u.last.pos, h.nBits)), h.nBits, fuel, u.last.pos, last)
  }

  /** A built table is one the decoder can use: hufBuildDecTable only
      chains symbols of the encoding table. */
  lemma TablesReady(enc: seq<int>, im: nat, iM: nat, buf: seq<Byte>, nRaw: int, nBits: nat, pos: int)
    requires |enc| == EncSize && iM < EncSize && BuildFrom(enc, im, iM, Cleared()).Ok?
    ensures CtxOk(Ctx(buf, enc, BuildFrom(enc, im, iM, Cleared()).value, iM, nRaw, InEnd(pos, nBits)))
  {
    BuildKeeps(enc, im, iM, Cleared(), 0, EncSize - 1);
  }

  // ---------------------------------------------------------- properties

  /** A header field outside the table size is refused before anything
      else is read. */
  lemma UncompressChecksRange(buf: seq<Byte>, pos0: nat, nCompressed: int, nRaw: int, last: Reg, fuel: nat)
    requires ReadHufHeader(buf, pos0).Ok?
    requires ReadHufHeader(buf, pos0).value.im >= EncSize || ReadHufHeader(buf, pos0).value.iM >= EncSize
    ensures Uncompress(buf, pos0, nCompressed, nRaw, last, fuel) == Err(HufEncSize)
  {
  }

  /** After a complete unpack and a successful build, every symbol of the
      range with a length holds its canonical code in the encoding table and
      sits in the decoding table at that code. */
  lemma TablesAgree(u: Unpacked<Reader>, im: nat, iM: nat, sym: int)
    requires im + |u.lens| <= EncSize && LengthsOk(u.lens) && u.complete && iM < EncSize
    requires BuildFrom(EncTable(u, im), im, iM, Cleared()).Ok? && im <= sym <= iM
    requires Overwrite(Zeros(EncSize), im, u.lens)[sym] > 0
    ensures var lens := Overwrite(Zeros(EncSize), im, u.lens);
      var e := EncTable(u, im)[sym];
      Sar(e, 6) == Code(lens, sym) && LowBits(e, 6) == lens[sym]
      && Placed(e, sym, BuildFrom(EncTable(u, im), im, iM, Cleared()).value)
  {
    var lens := Overwrite(Zeros(EncSize), im, u.lens);
    EncodedDecodes(lens, sym);
    BuildPlaces(EncTable(u, im), im, iM, Cleared());
  }

  // ------------------------------------------------------------- methods

  /** hufUnpackEncTable into the fresh table hcode: the loop, then
      hufCanonicalCodeTable unless the loop returned early. Returns the
      cursor. */
  method UnpackEncTable(buf: seq<Byte>, pos: nat, ni: int, im: nat, iM: nat, hcode: array<int>) returns (r: Result<int>)
    requires hcode.Length == EncSize && hcode[..] == Zeros(EncSize) && im < EncSize && iM < EncSize
    modifies hcode
    ensures r.Ok? == Unpack(buf, ni, im, iM, pos).Ok?
    ensures r.Err? ==> r.error == Unpack(buf, ni, im, iM, pos).error
    ensures r.Ok? ==> r.value == Unpack(buf, ni, im, iM, pos).value.last.pos
    ensures r.Ok? ==> im + |Unpack(buf, ni, im, iM, pos).value.lens| <= EncSize
    ensures r.Ok? ==> LengthsOk(Unpack(buf, ni, im, iM, pos).value.lens)
    ensures r.Ok? ==> hcode[..] == EncTable(Unpack(buf, ni, im, iM, pos).value, im)
  {
    ghost var u := Unpack(buf, ni, im, iM, pos);
    if im <= iM {
      var res, lens := UnpackLengths(buf, pos, ni, im, iM, hcode);
      if res.Err? {
        return Err(res.error);
      }
      UnpackShaped(buf, ni, im, iM, pos);
      ghost var lensTable := Overwrite(Zeros(EncSize), im, lens);
      assert hcode[..] == lensTable;
      if res.value.1 {
        CanonicalCodeTable(hcode);
        assert hcode[..] == CodeTable(lensTable);
      }
      assert hcode[..] == EncTable(u.value, im);
      r := Ok(res.value.0);
    } else {
      assert hcode[..] == Overwrite(Zeros(EncSize), im, []);
      assert LengthsOk(hcode[..]);
      CanonicalCodeTable(hcode);
      r := Ok(pos);
    }
  }

  /** hufUncompress(uInt8Array, inDataView, inOffset, nCompressed, outBuffer,
      nRaw): the values land in outBuffer from offset 0 on, after which it
      holds what it held before. */
  method HufUncompressM(buf: seq<Byte>, pos0: nat, nCompressed: int, a: array<U16>, nRaw: int, last: Reg, fuel: nat)
    returns (r: Result<Cur>)
    requires nRaw <= a.Length
    modifies a
    ensures Agrees(r, Uncompress(buf, pos0, nCompressed, nRaw, last, fuel), a[..], old(a[..]))
  {
    var hr := ReadHufHeader(buf, pos0);
    if hr.Err? {
      return Err(hr.error);
    }
    var h := hr.value;
    if h.im >= EncSize || h.iM >= EncSize {
      return Err(HufEncSize);
    }
    var freq := new int[EncSize](_ => 0);
    var hdec := new DecEntry[DecSize];
    ClearDecTable(hdec);
    assert hdec[..] == Cleared();
    var ni := nCompressed - (h.pos - pos0);
    var ur := UnpackEncTable(buf, h.pos, ni, h.im, h.iM, freq);
    if ur.Err? {
      return Err(ur.error);
    }
    var pos := ur.value;
    if h.nBits > 8 * (nCompressed - (pos - pos0)) {
      return Err(HufUncompress);
    }
    var err := BuildDecTable(freq, h.im, h.iM, hdec);
    if err.Some? {
      return Err(err.value);
    }
    ghost var u := Unpack(buf, ni, h.im, h.iM, h.pos).value;
    assert freq[..] == EncTable(u, h.im) && pos == u.last.pos;
    assert Uncompress(buf, pos0, nCompressed, nRaw, last, fuel) == DecodeTables(buf, h, u, nRaw, last, fuel);
    TablesReady(freq[..], h.im, h.iM, buf, nRaw, h.nBits, pos);
    r := HufDecodeM(freq[..], hdec[..], buf, pos, h.nBits, h.iM, nRaw, a, last, fuel);
  }
}
