/** parseEXR from end to end: the header, the decoder set up from it, the
    channels sorted and grouped, the buffers allocated and the scan-line
    blocks scattered into them. */
module Exr {
  import opened Common
  import opened Readers
  import opened Header
  import opened Decoder
  import opened Buffers
  import opened Grouping
  import opened ChannelSort
  import S = Scatter
  import opened HufDecode

  /** The texture format of the legacy array: RGBA for four output
      channels, a single red channel otherwise. */
  datatype Format = RgbaFormat | RedFormat

  /** What parseEXR returns: the header (its channel list sorted in place),
      the size, the legacy flat array (undefined when no typed array was
      made for the output type), its format, the output type and the channel
      groups, with the buffer of each group when there is one. */
  datatype Picture = Picture(
    header: Attributes,
    width: int,
    height: int,
    data: Option<seq<Texel>>,
    format: Format,
    ty: OutputType,
    groups: seq<ImageChannel>,
    planes: seq<seq<Texel>>)

  /** The cells of the legacy array: none when setupDecoder made none. */
  function LegacyLength(info: DecoderInfo): nat
  {
    match info.legacy
    case Some(n) => n
    case None => 0
  }

  /** The legacy array's first value: 1 when RGB is widened to RGBA. */
  function LegacyFill(info: DecoderInfo): Texel
  {
    if |info.channels| < info.outputChannels then One else Zero
  }

  /** width * height, the pixels of each group buffer. */
  function Pixels(info: DecoderInfo): nat
  {
    if info.width * info.height >= 0 then info.width * info.height else 0
  }

  /** The buffers before the scatter. */
  function Initial(info: DecoderInfo, groups: Groups, makeData: bool): (p: Planes)
    ensures |p.legacy| == LegacyLength(info)
    ensures |p.groups| == (if makeData then |groups.channels| else 0)
  {
    Planes(Filled(LegacyLength(info), LegacyFill(info)),
           if makeData then seq(|groups.channels|, g requires 0 <= g < |groups.channels| => Fill(groups.channels[g].length, Pixels(info)))
           else [])
  }

  /** The scatter loop's view of the decoder. */
  function EnvOf(v: Variant, buf: seq<Byte>, inflate: seq<Byte> -> Option<seq<Byte>>, dwa: S.DwaBlock -> Option<seq<Byte>>,
                 fuel: nat, info: DecoderInfo, cs: seq<Channel>, groups: Groups): S.Env
  {
    S.Env(v, buf, inflate, dwa, fuel, info.width, info.height, cs, info.ty, info.codec, info.blockSize,
          info.inputSize, info.getter, info.outputChannels, info.bytesPerLine, groups)
  }

  /** The header and the decoder: parseHeader, setupDecoder and the
      refusal of a HalfFloat output. */
  function Prepare(v: Variant, buf: seq<Byte>, out: OutputType): (r: Result<(Attributes, DecoderInfo)>)
    ensures r.Ok? ==> (r.value.1.ty == 1 || r.value.1.ty == 2) && r.value.1.blockSize >= 1
    ensures r.Ok? ==> out != HalfFloatType
  {
    var hdr :- ReadHeader(v, buf);
    var info :- Setup(v, hdr.value, buf, hdr.next, out);
    if out == HalfFloatType then Err(HalfFloatNotSupported)
    else Ok((hdr.value, info))
  }

  /** The value parseEXR returns once the buffers are filled, or the
      exception the scatter threw. */
  function Assemble(header: Attributes, info: DecoderInfo, out: OutputType, cs: seq<Channel>, groups: Groups,
                    scattered: Result<Planes>): (r: Result<Picture>)
  {
    match scattered
    case Err(e) => Err(e)
    case Ok(q) =>
      Ok(Picture(header["channels" := ChannelList(cs)], info.width, info.height,
                 if info.legacy.Some? then Some(q.legacy) else None,
                 if info.outputChannels == 4 then RgbaFormat else RedFormat,
                 out, groups.channels, q.groups))
  }

  /** The rest of parseEXR once the decoder is set up: the channels sorted,
      grouped and scattered. */
  function Finish(v: Variant, buf: seq<Byte>, out: OutputType, inflate: seq<Byte> -> Option<seq<Byte>>,
                  dwa: S.DwaBlock -> Option<seq<Byte>>, fuel: nat, header: Attributes, info: DecoderInfo): (r: Result<Picture>)
    requires (info.ty == 1 || info.ty == 2) && info.blockSize >= 1
  {
    var cs := SortedChannels(info.channels);
    var groups :- Grouped(cs);
    var env := EnvOf(v, buf, inflate, dwa, fuel, info, cs, groups);
    Assemble(header, info, out, cs, groups, S.Scattered(env, info.offset, Initial(info, groups, out == FloatType)))
  }

  /** parseEXR over the file `buf` for the output type `out`; `inflate` is
      the zlib decompressor and `dwa` the DWA decoder, which the model
      leaves abstract, and `fuel` bounds the Huffman decoder. */
  function Decode(v: Variant, buf: seq<Byte>, out: OutputType, inflate: seq<Byte> -> Option<seq<Byte>>,
                  dwa: S.DwaBlock -> Option<seq<Byte>>, fuel: nat): (r: Result<Picture>)
    ensures out == HalfFloatType ==> r.Err?
    ensures r.Ok? ==> "channels" in r.value.header && r.value.header["channels"].ChannelList?
                      && IdsSorted(r.value.header["channels"].channels)
    ensures r.Ok? ==> |r.value.planes| == (if out == FloatType then |r.value.groups| else 0)
  {
    var prepared :- Prepare(v, buf, out);
    var r := Finish(v, buf, out, inflate, dwa, fuel, prepared.0, prepared.1);
    if r.Ok? then
      FinishSortsHeader(v, buf, out, inflate, dwa, fuel, prepared.0, prepared.1);
      FinishBuffers(v, buf, out, inflate, dwa, fuel, prepared.0, prepared.1);
      r
    else r
  }

  /** parseHeader and setupDecoder; setupDecoder's typed array is
      allocated here. */
  method PrepareDecoder(v: Variant, buf: seq<Byte>, out: OutputType) returns (r: Result<(Attributes, DecoderInfo)>, legacy: array<Texel>)
    ensures r == Prepare(v, buf, out)
    ensures fresh(legacy)
    ensures r.Ok? ==> legacy[..] == Filled(LegacyLength(r.value.1), LegacyFill(r.value.1))
  {
    legacy := new Texel[0];
    var hdr := ParseHeader(v, buf);
    if hdr.Err? {
      return Err(hdr.error), legacy;
    }
    var setup := SetupDecoder(v, hdr.value.value, buf, hdr.value.next, out);
    if setup.Err? {
      return Err(setup.error), legacy;
    }
    var info := setup.value;
    legacy := new Texel[LegacyLength(info)](_ => LegacyFill(info));
    if out == HalfFloatType {
      return Err(HalfFloatNotSupported), legacy;
    }
    assert legacy[..] == Filled(LegacyLength(info), LegacyFill(info));
    r := Ok((hdr.value.value, info));
  }

  /** The in-place sort of the header's channel list, the grouping with its
      buffers, and the scatter. */
  method FinishDecoder(v: Variant, buf: seq<Byte>, out: OutputType, inflate: seq<Byte> -> Option<seq<Byte>>,
                       dwa: S.DwaBlock -> Option<seq<Byte>>, fuel: nat, header: Attributes, info: DecoderInfo,
                       legacy: array<Texel>) returns (r: Result<Picture>)
    requires (info.ty == 1 || info.ty == 2) && info.blockSize >= 1
    requires legacy[..] == Filled(LegacyLength(info), LegacyFill(info))
    modifies legacy
    ensures r == Finish(v, buf, out, inflate, dwa, fuel, header, info)
  {
    var a := new Channel[|info.channels|](i requires 0 <= i < |info.channels| => info.channels[i]);
    assert a[..] == info.channels;
    SortChannels(a);
    var cs := a[..];
    var groups, data := GroupChannels(cs, Pixels(info), out == FloatType);
    if groups.Ok? {
      var env := EnvOf(v, buf, inflate, dwa, fuel, info, cs, groups.value);
      assert Snap(legacy, data) == Initial(info, groups.value, out == FloatType);
      var done := S.ScatterBlocks(env, info.offset, legacy, data);
      r := Assemble(header, info, out, cs, groups.value, S.Outcome(done, Snap(legacy, data)));
    } else {
      r := Err(groups.error);
    }
  }

  /** parseEXR. */
  method ParseExr(v: Variant, buf: seq<Byte>, out: OutputType, inflate: seq<Byte> -> Option<seq<Byte>>,
                  dwa: S.DwaBlock -> Option<seq<Byte>>, fuel: nat) returns (r: Result<Picture>)
    ensures r == Decode(v, buf, out, inflate, dwa, fuel)
  {
    var prepared, legacy := PrepareDecoder(v, buf, out);
    if prepared.Err? {
      return Err(prepared.error);
    }
    r := FinishDecoder(v, buf, out, inflate, dwa, fuel, prepared.value.0, prepared.value.1, legacy);
  }

  // ---------------------------------------------------------- properties

  /** A HalfFloat output is refused once the header and decoder are read,
      in both the parser and the port. */
  lemma HalfFloatRefused(v: Variant, buf: seq<Byte>, inflate: seq<Byte> -> Option<seq<Byte>>,
                         dwa: S.DwaBlock -> Option<seq<Byte>>, fuel: nat)
    ensures Decode(v, buf, HalfFloatType, inflate, dwa, fuel).Err?
    ensures ReadHeader(v, buf).Ok? && Setup(v, ReadHeader(v, buf).value.value, buf, ReadHeader(v, buf).value.next, HalfFloatType).Ok? ==>
      Decode(v, buf, HalfFloatType, inflate, dwa, fuel) == Err(HalfFloatNotSupported)
  {
  }

  /** An output type other than Float and HalfFloat: the port refuses it
      where the parser sets up a decoder without a sample reader, whose
      first sample then throws. */
  lemma OtherTypeRefused(buf: seq<Byte>, code: int, inflate: seq<Byte> -> Option<seq<Byte>>,
                         dwa: S.DwaBlock -> Option<seq<Byte>>, fuel: nat)
    requires ReadHeader(Port, buf).Ok?
    requires Setup(Parser, ReadHeader(Port, buf).value.value, buf, ReadHeader(Port, buf).value.next, OtherType(code)).Ok?
    ensures Decode(Port, buf, OtherType(code), inflate, dwa, fuel) == Err(UnsupportedOutputType)
  {
    var hdr := ReadHeader(Port, buf).value;
    OutputTypeDivergence(hdr.value, buf, hdr.next, OtherType(code));
  }

  /** The header parseEXR returns holds the channels it read, sorted by
      channel id, and everything else it read unchanged. */
  lemma FinishSortsHeader(v: Variant, buf: seq<Byte>, out: OutputType, inflate: seq<Byte> -> Option<seq<Byte>>,
                          dwa: S.DwaBlock -> Option<seq<Byte>>, fuel: nat, header: Attributes, info: DecoderInfo)
    requires (info.ty == 1 || info.ty == 2) && info.blockSize >= 1
    requires Finish(v, buf, out, inflate, dwa, fuel, header, info).Ok?
    ensures var h := Finish(v, buf, out, inflate, dwa, fuel, header, info).value.header;
      "channels" in h && h["channels"].ChannelList?
      && multiset(h["channels"].channels) == multiset(info.channels)
      && IdsSorted(h["channels"].channels)
      && forall k :: k in header && k != "channels" ==> k in h && h[k] == header[k]
  {
    SortOrdersIds(info.channels);
  }

  /** The buffers parseEXR returns have the sizes they were made with: the
      legacy array width*height*outputChannels cells when there is one, and
      for a Float output one buffer per group of width*height*length cells. */
  lemma FinishBuffers(v: Variant, buf: seq<Byte>, out: OutputType, inflate: seq<Byte> -> Option<seq<Byte>>,
                      dwa: S.DwaBlock -> Option<seq<Byte>>, fuel: nat, header: Attributes, info: DecoderInfo)
    requires (info.ty == 1 || info.ty == 2) && info.blockSize >= 1
    requires Finish(v, buf, out, inflate, dwa, fuel, header, info).Ok?
    ensures var r := Finish(v, buf, out, inflate, dwa, fuel, header, info).value;
      (r.data.Some? <==> info.legacy.Some?)
      && (r.data.Some? ==> |r.data.value| == info.legacy.value)
      && |r.planes| == (if out == FloatType then |r.groups| else 0)
      && forall g :: 0 <= g < |r.planes| ==> |r.planes[g]| == Pixels(info) * r.groups[g].length
  {
    var cs := SortedChannels(info.channels);
    var groups := Grouped(cs).value;
    var env := EnvOf(v, buf, inflate, dwa, fuel, info, cs, groups);
    var p := Initial(info, groups, out == FloatType);
    S.BlocksKeepShape(env, S.ReaderOf(env), 0, info.offset, Reg(0, 0), p);
  }
}
