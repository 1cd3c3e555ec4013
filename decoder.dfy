/** setupDecoder: from the header attributes, the block height of the
    compression, the size and reader of one sample, the number of output
    channels and the buffer for them; the line-offset table is skipped. */
module Decoder {
  import opened Common
  import opened Readers
  import opened Header

  /** The compressions the decoder accepts. */
  datatype Codec = Raw | Rle | Zips | Zip | Piz | Pxr24 | Dwaa | Dwab

  /** The texture type asked for: three.js's FloatType and HalfFloatType, or
      any other constant. */
  datatype OutputType = FloatType | HalfFloatType | OtherType(code: int)

  /** The value of a compression attribute, by its name. */
  function CodecOf(name: string): (r: Result<Codec>)
    ensures r.Err? ==> r.error == UnsupportedCompression
  {
    if name == "NO_COMPRESSION" then Ok(Raw)
    else if name == "RLE_COMPRESSION" then Ok(Rle)
    else if name == "ZIPS_COMPRESSION" then Ok(Zips)
    else if name == "ZIP_COMPRESSION" then Ok(Zip)
    else if name == "PIZ_COMPRESSION" then Ok(Piz)
    else if name == "PXR24_COMPRESSION" then Ok(Pxr24)
    else if name == "DWAA_COMPRESSION" then Ok(Dwaa)
    else if name == "DWAB_COMPRESSION" then Ok(Dwab)
    else Err(UnsupportedCompression)
  }

  /** The scan lines of one block. */
  function BlockLines(c: Codec): (n: nat)
    ensures n >= 1
  {
    match c
    case Raw => 1
    case Rle => 1
    case Zips => 1
    case Zip => 16
    case Pxr24 => 16
    case Piz => 32
    case Dwaa => 32
    case Dwab => 256
  }

  /** The number of blocks of bs lines that cover `rows` lines: a loop
      `i < rows / bs` over real division runs this many times. */
  function BlockCount(rows: int, bs: nat): (n: nat)
    requires bs >= 1
    decreases rows
  {
    if rows <= 0 then 0 else 1 + BlockCount(rows - bs, bs)
  }

  /** The blocks cover the rows, and one block fewer would not. */
  lemma {:induction false} BlockCountCovers(rows: int, bs: nat)
    requires bs >= 1
    ensures rows <= Times(BlockCount(rows, bs), bs)
    ensures BlockCount(rows, bs) > 0 ==> Times(BlockCount(rows, bs) - 1, bs) < rows
    decreases rows
  {
    if rows > 0 {
      BlockCountCovers(rows - bs, bs);
      var k := BlockCount(rows - bs, bs);
      TimesShift(k, bs);
      if k > 0 {
        TimesShift(k - 1, bs);
      }
    }
  }

  /** Times(k + 1, m) with the extra m first. */
  lemma {:induction false} TimesShift(k: nat, m: int)
    ensures Times(k + 1, m) == m + Times(k, m)
  {
  }

  /** What setupDecoder computes. `getter` says whether a sample reader was
      chosen; `legacy` is the length of the flat output array, None when no
      array was made. `offset` is the cursor after the line-offset table. */
  datatype DecoderInfo = DecoderInfo(
    width: int,
    height: int,
    channels: seq<Channel>,
    ty: int,
    codec: Codec,
    blockSize: nat,
    inputSize: nat,
    getter: bool,
    outputChannels: nat,
    legacy: Option<nat>,
    bytesPerLine: int,
    offset: nat)

  /** The cursor after `count` int64 entries of the line-offset table from
      pos; reading past the end of the file is a RangeError. */
  function SkipTable(buf: seq<Byte>, pos: nat, count: nat): (r: Result<nat>)
  {
    if count == 0 || pos + 8 * count <= |buf| then Ok(pos + 8 * count) else Err(RangeError)
  }

  /** The loop `for (i = 0; i < blockCount; i++) parseInt64(dataView, offset)`,
      with blockCount = (yMax + 1) / scanlineBlockSize. */
  method SkipOffsets(buf: seq<Byte>, pos: nat, rows: int, bs: nat) returns (r: Result<nat>)
    requires bs >= 1
    ensures r == SkipTable(buf, pos, BlockCount(rows, bs))
  {
    var p := pos;
    var i := 0;
    var covered := 0;
    while covered < rows
      invariant p == pos + 8 * i && BlockCount(rows, bs) == i + BlockCount(rows - covered, bs)
      invariant i > 0 ==> p <= |buf|
      decreases rows - covered
    {
      var q := SkipI64(buf, p);
      if q.Err? {
        return Err(q.error);
      }
      p := q.value;
      i := i + 1;
      covered := covered + bs;
    }
    r := Ok(p);
  }

  /** The data window of the header. */
  function DataWindow(attrs: Attributes): (r: Result<AttrValue>)
    ensures r.Ok? ==> r.value.Box?
  {
    if "dataWindow" !in attrs then Err(TypeError)
    else if !attrs["dataWindow"].Box? then Err(MalformedHeader)
    else Ok(attrs["dataWindow"])
  }

  /** The channel list as setupDecoder reads it, through `channels.length`
      and `channels[0].pixelType`. A channel list gives its channels. A
      non-empty string, v2f, v3f, rational or timecode value has an element
      0 without a pixelType (None). Any other value, a missing one, and an
      empty list or string have no element 0, and reading its pixelType is
      a TypeError. */
  function ChannelsOf(attrs: Attributes): (r: Result<Option<seq<Channel>>>)
    ensures r.Ok? && r.value.Some? ==> |r.value.value| > 0
  {
    if "channels" !in attrs then Err(TypeError)
    else match attrs["channels"]
      case ChannelList(cs) => if |cs| == 0 then Err(TypeError) else Ok(Some(cs))
      case Text(t) => if |t| == 0 then Err(TypeError) else Ok(None)
      case Floats(c) => if |c| == 0 then Err(TypeError) else Ok(None)
      case Pair(_, _) => Ok(None)
      case _ => Err(TypeError)
  }

  /** The compression of the header. A missing one (a code past the name
      table) reaches the switch as undefined, and a value that is not a
      string matches none of its cases; both take the `default` throw. */
  function CompressionOf(attrs: Attributes): (r: Result<Codec>)
    ensures r.Err? ==> r.error == UnsupportedCompression
    ensures r.Ok? ==> "compression" in attrs && attrs["compression"].Text?
  {
    if "compression" !in attrs || !attrs["compression"].Text? then Err(UnsupportedCompression)
    else CodecOf(attrs["compression"].text)
  }

  /** setupDecoder(EXRHeader, ..., offset, outputType). */
  function Setup(v: Variant, attrs: Attributes, buf: seq<Byte>, offset: nat, out: OutputType): (r: Result<DecoderInfo>)
    ensures r.Ok? ==> (r.value.ty == 1 || r.value.ty == 2) && r.value.blockSize >= 1
  {
    var box :- DataWindow(attrs);
    var listed :- ChannelsOf(attrs);
    var codec :- CompressionOf(attrs);
    if listed.None? then Err(UnsupportedPixelType)
    else
      var chans := listed.value;
      var width := box.xMax - box.xMin + 1;
      var height := box.yMax - box.yMin + 1;
      var ty := chans[0].pixelType;
      var bs := BlockLines(codec);
      if ty != 1 && ty != 2 then Err(UnsupportedPixelType)
      else if v == Port && out.OtherType? then Err(UnsupportedOutputType)
      else
        var inputSize := if out.OtherType? then 0 else if ty == 1 then 2 else 4;
        var next :- SkipTable(buf, offset, BlockCount(box.yMax + 1, bs));
        var outputChannels := if |chans| == 3 then 4 else |chans|;
        var size := width * height * outputChannels;
        if !out.OtherType? && size < 0 then Err(RangeError)
        else
          Ok(DecoderInfo(width, height, chans, ty, codec, bs, inputSize, !out.OtherType?,
                         outputChannels, if out.OtherType? then None else Some(size as nat),
                         width * inputSize * |chans|, next))
  }

  /** setupDecoder: the switches, the table skip and the typed array. */
  method SetupDecoder(v: Variant, attrs: Attributes, buf: seq<Byte>, offset: nat, out: OutputType)
    returns (r: Result<DecoderInfo>)
    ensures r == Setup(v, attrs, buf, offset, out)
  {
    var box := DataWindow(attrs);
    if box.Err? {
      return Err(box.error);
    }
    var listed := ChannelsOf(attrs);
    if listed.Err? {
      return Err(listed.error);
    }
    var codec := CompressionOf(attrs);
    if codec.Err? {
      return Err(codec.error);
    }
    if listed.value.None? {
      return Err(UnsupportedPixelType);
    }
    var chans := listed.value.value;
    var ty := chans[0].pixelType;
    if ty != 1 && ty != 2 {
      return Err(UnsupportedPixelType);
    }
    if v == Port && out.OtherType? {
      return Err(UnsupportedOutputType);
    }
    var bs := BlockLines(codec.value);
    var next := SkipOffsets(buf, offset, box.value.yMax + 1, bs);
    if next.Err? {
      return Err(next.error);
    }
    var width := box.value.xMax - box.value.xMin + 1;
    var height := box.value.yMax - box.value.yMin + 1;
    var n := |chans|;
    var outputChannels := if n == 3 then 4 else n;
    var size := width * height * outputChannels;
    if !out.OtherType? && size < 0 {
      return Err(RangeError);
    }
    var inputSize := if out.OtherType? then 0 else if ty == 1 then 2 else 4;
    r := Ok(DecoderInfo(width, height, chans, ty, codec.value, bs, inputSize, !out.OtherType?,
                        outputChannels, if out.OtherType? then None else Some(size as nat),
                        width * inputSize * n, next.value));
  }

  // ---------------------------------------------------------- properties

  /** The compression names the decoder accepts, and their block heights:
      one line for none, RLE and ZIPS, 16 for ZIP and PXR24, 32 for PIZ and
      DWAA, 256 for DWAB. B44, B44A and every other name are refused. */
  lemma CodecLines(name: string)
    ensures CodecOf(name).Ok? <==> name in {"NO_COMPRESSION", "RLE_COMPRESSION", "ZIPS_COMPRESSION", "ZIP_COMPRESSION",
                                           "PIZ_COMPRESSION", "PXR24_COMPRESSION", "DWAA_COMPRESSION", "DWAB_COMPRESSION"}
    ensures CodecOf(name).Ok? ==>
      (BlockLines(CodecOf(name).value) == 1 <==> name in {"NO_COMPRESSION", "RLE_COMPRESSION", "ZIPS_COMPRESSION"})
      && (BlockLines(CodecOf(name).value) == 16 <==> name in {"ZIP_COMPRESSION", "PXR24_COMPRESSION"})
      && (BlockLines(CodecOf(name).value) == 32 <==> name in {"PIZ_COMPRESSION", "DWAA_COMPRESSION"})
      && (BlockLines(CodecOf(name).value) == 256 <==> name == "DWAB_COMPRESSION")
  {
  }

  /** A decoder is set up only for a half or float first channel; the
      output has four channels exactly when the file has three, and the
      line-offset table of one entry per block of yMax + 1 lines is skipped. */
  lemma SetupShape(v: Variant, attrs: Attributes, buf: seq<Byte>, offset: nat, out: OutputType)
    requires Setup(v, attrs, buf, offset, out).Ok?
    ensures var d := Setup(v, attrs, buf, offset, out).value;
      (d.ty == 1 || d.ty == 2) && |d.channels| > 0
      && (|d.channels| == 3 ==> d.outputChannels == 4)
      && (|d.channels| != 3 ==> d.outputChannels == |d.channels|)
      && d.blockSize == BlockLines(d.codec)
      && d.offset == offset + 8 * BlockCount(attrs["dataWindow"].yMax + 1, d.blockSize)
      && Times(BlockCount(attrs["dataWindow"].yMax + 1, d.blockSize), d.blockSize) >= attrs["dataWindow"].yMax + 1
  {
    var d := Setup(v, attrs, buf, offset, out).value;
    BlockCountCovers(attrs["dataWindow"].yMax + 1, d.blockSize);
  }

  /** A first channel of a pixel type other than half (1) or float (2) is
      refused once the compression is known. */
  lemma PixelTypeRefused(v: Variant, attrs: Attributes, buf: seq<Byte>, offset: nat, out: OutputType)
    requires DataWindow(attrs).Ok? && ChannelsOf(attrs).Ok? && CompressionOf(attrs).Ok?
    requires ChannelsOf(attrs).value.None? || ChannelsOf(attrs).value.value[0].pixelType !in {1, 2}
    ensures Setup(v, attrs, buf, offset, out) == Err(UnsupportedPixelType)
  {
  }

  /** The channel attributes setupDecoder can read a first pixel type from
      without a TypeError: a non-empty channel list, string, v2f or v3f
      value, or a rational or timecode pair; only a channel list gives one. */
  lemma ChannelsReadable(attrs: Attributes)
    ensures ChannelsOf(attrs).Ok? <==>
      ("channels" in attrs &&
       match attrs["channels"]
       case ChannelList(cs) => |cs| > 0
       case Text(t) => |t| > 0
       case Floats(c) => |c| > 0
       case Pair(_, _) => true
       case _ => false)
    ensures ChannelsOf(attrs).Ok? && ChannelsOf(attrs).value.Some? <==>
      ("channels" in attrs && attrs["channels"].ChannelList? && |attrs["channels"].channels| > 0)
    ensures ChannelsOf(attrs).Ok? && ChannelsOf(attrs).value.Some? ==>
      ChannelsOf(attrs).value.value == attrs["channels"].channels
  {
  }

  /** A compression is accepted exactly when it is a string the switch has
      a case for; every other value is refused as unsupported. */
  lemma CompressionAccepted(attrs: Attributes)
    ensures CompressionOf(attrs).Ok? <==>
      ("compression" in attrs && attrs["compression"].Text? && CodecOf(attrs["compression"].text).Ok?)
    ensures CompressionOf(attrs).Err? ==> CompressionOf(attrs).error == UnsupportedCompression
  {
  }

  /** The two loaders part on an output type other than Float and HalfFloat:
      the port throws, the parser goes on with no sample reader, a sample
      size of zero and no output array. For Float and HalfFloat they agree. */
  lemma OutputTypeDivergence(attrs: Attributes, buf: seq<Byte>, offset: nat, out: OutputType)
    ensures out.OtherType? && Setup(Parser, attrs, buf, offset, out).Ok? ==>
      Setup(Port, attrs, buf, offset, out) == Err(UnsupportedOutputType)
      && !Setup(Parser, attrs, buf, offset, out).value.getter
      && Setup(Parser, attrs, buf, offset, out).value.bytesPerLine == 0
      && Setup(Parser, attrs, buf, offset, out).value.legacy.None?
    ensures !out.OtherType? ==> Setup(Port, attrs, buf, offset, out) == Setup(Parser, attrs, buf, offset, out)
  {
  }
}
