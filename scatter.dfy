/** The scan-line loop at the end of parseEXR: for each block, read its line
    number and data size, decompress it when its size says so, and copy every
    sample of every line into the flat legacy array and into its group's
    array, with the rows flipped so that the last line comes first. */
module Scatter {
  import opened Common
  import opened Readers
  import opened Header
  import opened Decoder
  import opened Buffers
  import opened Grouping
  import opened HufDecode
  import Scanline
  import PxrCodec = Pxr24
  import PizCodec = Piz

  /** What the DWA decoder of the parser is given: the block and the
      decoder's geometry. The lossy DWA pipeline itself is not modelled. */
  datatype DwaBlock = DwaBlock(bytes: seq<Byte>, width: int, lines: int, channels: nat, ty: int)

  /** What the scatter loop reads: the file, the codec back ends the model
      leaves abstract, the fields of EXRDecoder, the sorted channels and
      the groups made from them. */
  datatype Env = Env(
    v: Variant,
    file: seq<Byte>,
    inflate: seq<Byte> -> Option<seq<Byte>>,
    dwa: DwaBlock -> Option<seq<Byte>>,
    fuel: nat,
    width: int,
    height: int,
    cs: seq<Channel>,
    ty: int,
    codec: Codec,
    bs: nat,
    inputSize: nat,
    getter: bool,
    outputChannels: nat,
    bytesPerLine: int,
    groups: Groups)

  /** The facts setupDecoder establishes that the codecs rely on. */
  predicate Valid(env: Env)
  {
    (env.ty == 1 || env.ty == 2) && env.bs >= 1
  }

  // ------------------------------------------------------------- one block

  /** EXRDecoder.lines for a block starting at `line`: short when the block
      would run past the last row. */
  function LinesOf(line: int, bs: nat, height: int): (n: int)
    ensures n <= bs
    ensures line + bs > height <==> n < bs
    ensures line + bs > height ==> line + n == height
  {
    if line + bs > height then height - line else bs
  }

  /** uncompressRAW: a DataView over the block; one that reaches past the
      file is a RangeError. */
  function RawView(file: seq<Byte>, offset: nat, size: nat): (r: Result<seq<Byte>>)
    ensures r.Ok? <==> offset + size <= |file|
    ensures r.Ok? ==> |r.value| == size
  {
    if offset + size <= |file| then Ok(file[offset..offset + size]) else Err(RangeError)
  }

  /** uncompressDWA: the parser hands the block to its DWA decoder (a
      failure there is an exception); the port throws at once. */
  function Dwa(env: Env, offset: nat, size: nat, lines: int): (r: Result<seq<Byte>>)
    ensures env.v == Port ==> r == Err(DwaNotImplemented)
  {
    match env.v
    case Port => Err(DwaNotImplemented)
    case Parser =>
      match env.dwa(DwaBlock(Slice(env.file, offset, offset + size), env.width, lines, |env.cs|, env.ty))
      case None => Err(DwaFailed)
      case Some(b) => Ok(b)
  }

  /** Whether a block is decompressed: its declared size is less than the
      raw size of its lines. */
  predicate Compressed(env: Env, size: nat, lines: int)
  {
    size < lines * env.bytesPerLine
  }

  /** The view the samples of a block are read from, and getCodeReturn
      after it. */
  function BlockView(env: Env, offset: nat, size: nat, lines: int, last: Reg): (r: Result<(seq<Byte>, Reg)>)
    requires Valid(env) && lines <= env.bs
  {
    if !Compressed(env, size, lines) then
      var b :- RawView(env.file, offset, size);
      Ok((b, last))
    else
      match env.codec
      case Raw =>
        var b :- RawView(env.file, offset, size);
        Ok((b, last))
      case Rle =>
        var b :- Scanline.UncompressRle(env.v, env.file, offset, size);
        Ok((b, last))
      case Zips =>
        var b :- Scanline.UncompressZip(env.v, env.inflate, env.file, offset, size);
        Ok((b, last))
      case Zip =>
        var b :- Scanline.UncompressZip(env.v, env.inflate, env.file, offset, size);
        Ok((b, last))
      case Piz =>
        var o :- PizCodec.UncompressPiz(env.v, env.file, offset, env.width, lines, env.bs, |env.cs|, env.ty, last, env.fuel);
        Ok((o.bytes, o.last))
      case Pxr24 =>
        var b :- PxrCodec.UncompressPxr(env.inflate, env.file, offset, size, env.ty, lines, |env.cs|, env.width);
        Ok((b, last))
      case Dwaa =>
        var b :- Dwa(env, offset, size, lines);
        Ok((b, last))
      case Dwab =>
        var b :- Dwa(env, offset, size, lines);
        Ok((b, last))
  }

  /** A block read as is goes through uncompressRAW whatever the codec; a
      compressed DWA block fails in the port. */
  lemma BlockViewCases(env: Env, offset: nat, size: nat, lines: int, last: Reg)
    requires Valid(env) && lines <= env.bs
    ensures !Compressed(env, size, lines) ==>
      BlockView(env, offset, size, lines, last)
      == (if offset + size <= |env.file| then Ok((env.file[offset..offset + size], last)) else Err(RangeError))
    ensures Compressed(env, size, lines) && env.v == Port && env.codec in {Dwaa, Dwab} ==>
      BlockView(env, offset, size, lines, last) == Err(DwaNotImplemented)
    ensures BlockView(env, offset, size, lines, last).Ok? && env.codec != Piz ==>
      BlockView(env, offset, size, lines, last).value.1 == last
  {
  }

  /** The block's view computed by the codecs' own loops. */
  method DecodeBlock(env: Env, offset: nat, size: nat, lines: int, last: Reg) returns (r: Result<(seq<Byte>, Reg)>)
    requires Valid(env) && lines <= env.bs
    ensures r == BlockView(env, offset, size, lines, last)
  {
    if !Compressed(env, size, lines) || env.codec == Raw {
      var b := RawView(env.file, offset, size);
      if b.Err? {
        return Err(b.error);
      }
      return Ok((b.value, last));
    }
    match env.codec {
      case Rle =>
        var raw := Scanline.DecodeRunLength(Slice(env.file, offset, offset + size));
        if raw.Err? {
          return Err(raw.error);
        }
        var b := Scanline.Reorder(env.v, raw.value);
        r := Ok((b, last));
      case Zips =>
        r := DecodeZip(env, offset, size, last);
      case Zip =>
        r := DecodeZip(env, offset, size, last);
      case Piz =>
        var o := PizCodec.UncompressPizM(env.v, env.file, offset, env.width, lines, env.bs, |env.cs|, env.ty, last, env.fuel);
        if o.Err? {
          return Err(o.error);
        }
        r := Ok((o.value.bytes, o.value.last));
      case Pxr24 =>
        match env.inflate(Slice(env.file, offset, offset + size)) {
          case None =>
            r := Err(InflateFailed);
          case Some(raw) =>
            var samples := PxrCodec.UncompressPxrSamples(raw, env.ty, lines, |env.cs|, env.width);
            if samples.Err? {
              return Err(samples.error);
            }
            r := Ok((Flatten(samples.value, if env.ty == 1 then 2 else 4), last));
        }
      case Dwaa =>
        var b := Dwa(env, offset, size, lines);
        if b.Err? {
          return Err(b.error);
        }
        r := Ok((b.value, last));
      case Dwab =>
        var b := Dwa(env, offset, size, lines);
        if b.Err? {
          return Err(b.error);
        }
        r := Ok((b.value, last));
    }
  }

  /** uncompressZIP over the typed arrays. */
  method DecodeZip(env: Env, offset: nat, size: nat, last: Reg) returns (r: Result<(seq<Byte>, Reg)>)
    ensures r.Err? <==> env.inflate(Slice(env.file, offset, offset + size)).None?
    ensures r.Err? ==> r.error == InflateFailed
    ensures r.Ok? ==> r.value == (Scanline.UncompressZip(env.v, env.inflate, env.file, offset, size).value, last)
  {
    match env.inflate(Slice(env.file, offset, offset + size)) {
      case None =>
        r := Err(InflateFailed);
      case Some(raw) =>
        var b := Scanline.Reorder(env.v, raw);
        r := Ok((b, last));
    }
  }

  // ------------------------------------------------------------- one sample

  /** channelOffsets[name]: the legacy slot of the R, G, B, A and Y
      channels; any other name gives undefined. */
  function ChannelOffset(name: string): (r: Option<nat>)
    ensures r.Some? <==> name in {"R", "G", "B", "A", "Y"}
    ensures r.Some? ==> r.value < 4
  {
    if name == "R" || name == "Y" then Some(0)
    else if name == "G" then Some(1)
    else if name == "B" then Some(2)
    else if name == "A" then Some(3)
    else None
  }

  /** Where sample x of channel ch of block line ly lies in the view. */
  function ViewIndex(env: Env, ly: int, ch: int, x: int): int
  {
    (ly * (|env.cs| * env.width) + ch * env.width + x) * env.inputSize
  }

  /** EXRDecoder.getter(viewer, tmpOffset): a TypeError when no getter was
      chosen, a RangeError past the end of the view, else the sample's bytes. */
  function ReadSample(env: Env, view: seq<Byte>, at: int): (r: Result<Texel>)
    ensures r.Ok? <==> env.getter && 0 <= at && at + env.inputSize <= |view|
    ensures r.Ok? ==> r.value == Sample(view[at..at + env.inputSize])
  {
    if !env.getter then Err(TypeError)
    else if at < 0 || at + env.inputSize > |view| then Err(RangeError)
    else Ok(Sample(view[at..at + env.inputSize]))
  }

  /** The flat legacy array's cell for row trueY, column x and slot c. */
  function LegacyIndex(env: Env, trueY: int, x: int, c: int): int
  {
    (env.height - 1 - trueY) * (env.width * env.outputChannels) + x * env.outputChannels + c
  }

  /** A group array's cell for row trueY, column x, slot off of a group of
      `len` channels. */
  function GroupIndex(env: Env, trueY: int, x: int, len: int, off: int): int
  {
    (env.height - 1 - trueY) * (env.width * len) + x * len + off
  }

  /** The two writes of a sample: the legacy array (dropped for a name
      without a legacy slot) and the group array of the channel's slot.
      A channel without a slot, a slot naming no group and a group without
      an array are TypeErrors. */
  function Write(env: Env, p: Planes, trueY: int, ch: int, x: int, t: Texel): (r: Result<Planes>)
    ensures r.Ok? ==> 0 <= ch < |env.groups.slots|
    ensures r.Ok? ==> env.groups.slots[ch].group < |env.groups.channels| && env.groups.slots[ch].group < |p.groups|
  {
    var q := if 0 <= ch < |env.cs| && ChannelOffset(env.cs[ch].name).Some?
             then Store(p, Legacy, LegacyIndex(env, trueY, x, ChannelOffset(env.cs[ch].name).value), t)
             else p;
    if !(0 <= ch < |env.groups.slots|) then Err(TypeError)
    else
      var slot := env.groups.slots[ch];
      if slot.group >= |env.groups.channels| || slot.group >= |q.groups| then Err(TypeError)
      else
        var len := env.groups.channels[slot.group].length;
        Ok(Store(q, Group(slot.group), GroupIndex(env, trueY, x, len, slot.offset), t))
  }

  // ------------------------------------------------------------- the loops

  /** The x loop from column x on. */
  function RowFrom(env: Env, view: seq<Byte>, ly: int, trueY: int, ch: int, x: int, p: Planes): (r: Result<Planes>)
    decreases env.width - x
  {
    if x >= env.width then Ok(p)
    else
      var t :- ReadSample(env, view, ViewIndex(env, ly, ch, x));
      var q :- Write(env, p, trueY, ch, x, t);
      RowFrom(env, view, ly, trueY, ch, x + 1, q)
  }

  /** The channel loop from channel ch on. */
  function LineFrom(env: Env, view: seq<Byte>, ly: int, trueY: int, ch: nat, p: Planes): (r: Result<Planes>)
    decreases |env.cs| - ch
  {
    if ch >= |env.cs| then Ok(p)
    else
      var q :- RowFrom(env, view, ly, trueY, ch, 0, p);
      LineFrom(env, view, ly, trueY, ch + 1, q)
  }

  /** The line_y loop of block idx from line ly on; it stops at the
      image's last row. */
  function BlockFrom(env: Env, view: seq<Byte>, idx: nat, ly: nat, p: Planes): (r: Result<Planes>)
    decreases env.bs - ly
  {
    if ly >= env.bs || ly + idx * env.bs >= env.height then Ok(p)
    else
      var q :- LineFrom(env, view, ly, ly + idx * env.bs, 0, p);
      BlockFrom(env, view, idx, ly + 1, q)
  }

  /** A block as the block loop reads it: its line number, its line count,
      its declared size, the view its samples are read from, getCodeReturn
      after it and where the next block starts. */
  datatype Block = Block(line: nat, lines: int, size: nat, view: seq<Byte>, last: Reg, next: nat)

  /** The block at the cursor: two little-endian 32-bit numbers, the line
      and the size, then `size` bytes of data. The cursor then moves by the
      declared size, whether or not the data was decompressed. */
  function BlockAt(env: Env, offset: nat, last: Reg): (r: Result<Block>)
    requires Valid(env)
    ensures offset + 8 > |env.file| ==> r == Err(RangeError)
    ensures r.Ok? ==> r.value.next == offset + 8 + r.value.size
    ensures r.Ok? ==> r.value.lines == LinesOf(r.value.line, env.bs, env.height)
  {
    var line :- ReadU32(env.file, offset);
    var size :- ReadU32(env.file, line.next);
    var lines := LinesOf(line.value, env.bs, env.height);
    var view :- BlockView(env, size.next, size.value, lines, last);
    Ok(Block(line.value, lines, size.value, view.0, view.1, size.next + size.value))
  }

  /** A block whose declared size is at least the raw size of its lines is
      read as it lies in the file, and getCodeReturn is left alone. */
  lemma BlockAtRaw(env: Env, offset: nat, last: Reg)
    requires Valid(env) && BlockAt(env, offset, last).Ok?
    requires !Compressed(env, BlockAt(env, offset, last).value.size, BlockAt(env, offset, last).value.lines)
    ensures BlockAt(env, offset, last).value.next <= |env.file|
    ensures BlockAt(env, offset, last).value.view == env.file[offset + 8..BlockAt(env, offset, last).value.next]
    ensures BlockAt(env, offset, last).value.last == last
  {
  }

  /** A reader of the block at a cursor, given getCodeReturn. */
  type Reader = (nat, Reg) --> Result<Block>

  /** The reader of the file the decoder describes. */
  function ReaderOf(env: Env): (read: Reader)
    requires Valid(env)
  {
    (offset: nat, last: Reg) requires Valid(env) => BlockAt(env, offset, last)
  }

  /** The block loop from block idx on, with the cursor at `offset`. */
  function BlocksFrom(env: Env, read: Reader, idx: nat, offset: nat, last: Reg, p: Planes): (r: Result<Planes>)
    requires env.bs >= 1 && forall o, l :: read.requires(o, l)
    decreases BlockCount(env.height, env.bs) - idx
  {
    if idx >= BlockCount(env.height, env.bs) then Ok(p)
    else
      var b :- read(offset, last);
      var q :- BlockFrom(env, b.view, idx, 0, p);
      BlocksFrom(env, read, idx + 1, b.next, b.last, q)
  }

  /** The whole scatter from the cursor after the line-offset table. */
  function Scattered(env: Env, offset: nat, p: Planes): (r: Result<Planes>)
    requires Valid(env)
    ensures r.Ok? ==> Shaped(p, r.value)
  {
    var r := BlocksFrom(env, ReaderOf(env), 0, offset, Reg(0, 0), p);
    if r.Ok? then
      BlocksKeepShape(env, ReaderOf(env), 0, offset, Reg(0, 0), p);
      r
    else r
  }

  /** The state a loop leaves: its buffers, or the exception it threw. */
  function Outcome(r: Result<()>, p: Planes): Result<Planes>
  {
    match r
    case Ok(_) => Ok(p)
    case Err(e) => Err(e)
  }

  /** One sample: read it and write it. */
  method PutSample(env: Env, view: seq<Byte>, ly: int, trueY: int, ch: int, x: int,
                   legacy: array<Texel>, data: seq<array<Texel>>) returns (r: Result<()>)
    requires Distinct(legacy, data)
    modifies legacy, data
    ensures Outcome(r, Snap(legacy, data)) ==
      (var t := ReadSample(env, view, ViewIndex(env, ly, ch, x));
       if t.Err? then Err(t.error) else Write(env, old(Snap(legacy, data)), trueY, ch, x, t.value))
  {
    var t := ReadSample(env, view, ViewIndex(env, ly, ch, x));
    if t.Err? {
      return Err(t.error);
    }
    if 0 <= ch < |env.cs| && ChannelOffset(env.cs[ch].name).Some? {
      Put(legacy, data, Legacy, LegacyIndex(env, trueY, x, ChannelOffset(env.cs[ch].name).value), t.value);
    }
    if !(0 <= ch < |env.groups.slots|) {
      return Err(TypeError);
    }
    var slot := env.groups.slots[ch];
    if slot.group >= |env.groups.channels| || slot.group >= |data| {
      return Err(TypeError);
    }
    var len := env.groups.channels[slot.group].length;
    Put(legacy, data, Group(slot.group), GroupIndex(env, trueY, x, len, slot.offset), t.value);
    r := Ok(());
  }

  /** The x loop. */
  method ScatterRow(env: Env, view: seq<Byte>, ly: int, trueY: int, ch: int,
                    legacy: array<Texel>, data: seq<array<Texel>>) returns (r: Result<()>)
    requires Distinct(legacy, data)
    modifies legacy, data
    ensures Outcome(r, Snap(legacy, data)) == RowFrom(env, view, ly, trueY, ch, 0, old(Snap(legacy, data)))
  {
    var x := 0;
    while x < env.width
      invariant RowFrom(env, view, ly, trueY, ch, x, Snap(legacy, data)) == RowFrom(env, view, ly, trueY, ch, 0, old(Snap(legacy, data)))
      decreases env.width - x
    {
      r := PutSample(env, view, ly, trueY, ch, x, legacy, data);
      if r.Err? {
        return;
      }
      x := x + 1;
    }
    r := Ok(());
  }

  /** The channel loop. */
  method ScatterLine(env: Env, view: seq<Byte>, ly: int, trueY: int,
                     legacy: array<Texel>, data: seq<array<Texel>>) returns (r: Result<()>)
    requires Distinct(legacy, data)
    modifies legacy, data
    ensures Outcome(r, Snap(legacy, data)) == LineFrom(env, view, ly, trueY, 0, old(Snap(legacy, data)))
  {
    var ch := 0;
    while ch < |env.cs|
      invariant LineFrom(env, view, ly, trueY, ch, Snap(legacy, data)) == LineFrom(env, view, ly, trueY, 0, old(Snap(legacy, data)))
      decreases |env.cs| - ch
    {
      r := ScatterRow(env, view, ly, trueY, ch, legacy, data);
      if r.Err? {
        return;
      }
      ch := ch + 1;
    }
    r := Ok(());
  }

  /** The line_y loop of one block. */
  method ScatterBlock(env: Env, view: seq<Byte>, idx: nat,
                      legacy: array<Texel>, data: seq<array<Texel>>) returns (r: Result<()>)
    requires Distinct(legacy, data)
    modifies legacy, data
    ensures Outcome(r, Snap(legacy, data)) == BlockFrom(env, view, idx, 0, old(Snap(legacy, data)))
  {
    var ly := 0;
    while ly < env.bs
      invariant BlockFrom(env, view, idx, ly, Snap(legacy, data)) == BlockFrom(env, view, idx, 0, old(Snap(legacy, data)))
      decreases env.bs - ly
    {
      var trueY := ly + idx * env.bs;
      if trueY >= env.height {
        break;
      }
      r := ScatterLine(env, view, ly, trueY, legacy, data);
      if r.Err? {
        return;
      }
      ly := ly + 1;
    }
    r := Ok(());
  }

  /** Read the block at the cursor and decompress it. */
  method ReadBlock(env: Env, offset: nat, last: Reg) returns (r: Result<Block>)
    requires Valid(env)
    ensures r == BlockAt(env, offset, last)
  {
    var line := ReadU32(env.file, offset);
    if line.Err? {
      return Err(line.error);
    }
    var size := ReadU32(env.file, line.value.next);
    if size.Err? {
      return Err(size.error);
    }
    var lines := LinesOf(line.value.value, env.bs, env.height);
    var view := DecodeBlock(env, size.value.next, size.value.value, lines, last);
    if view.Err? {
      return Err(view.error);
    }
    r := Ok(Block(line.value.value, lines, size.value.value, view.value.0, view.value.1, size.value.next + size.value.value));
  }

  /** The block loop: `scanlineBlockIdx < height / scanlineBlockSize`
      holds for the first BlockCount(height, blockSize) indices. */
  method ScatterBlocks(env: Env, offset: nat, legacy: array<Texel>, data: seq<array<Texel>>) returns (r: Result<()>)
    requires Valid(env) && Distinct(legacy, data)
    modifies legacy, data
    ensures Outcome(r, Snap(legacy, data)) == Scattered(env, offset, old(Snap(legacy, data)))
  {
    var idx := 0;
    var cursor: nat := offset;
    var last := Reg(0, 0);
    while idx < BlockCount(env.height, env.bs)
      invariant BlocksFrom(env, ReaderOf(env), idx, cursor, last, Snap(legacy, data)) == Scattered(env, offset, old(Snap(legacy, data)))
      decreases BlockCount(env.height, env.bs) - idx
    {
      var b := ReadBlock(env, cursor, last);
      if b.Err? {
        return Err(b.error);
      }
      r := ScatterBlock(env, b.value.view, idx, legacy, data);
      if r.Err? {
        return;
      }
      cursor := b.value.next;
      last := b.value.last;
      idx := idx + 1;
    }
    r := Ok(());
  }

  // ------------------------------------------------------------- properties

  /** The block loop's test `scanlineBlockIdx < height / scanlineBlockSize`,
      a division over the reals, holds exactly below BlockCount. */
  lemma BlockLoopRuns(height: int, bs: nat, idx: nat)
    requires bs >= 1
    ensures idx < BlockCount(height, bs) <==> idx * bs < height
  {
    var n := BlockCount(height, bs);
    BlockCountCovers(height, bs);
    TimesIsProduct(idx, bs);
    if idx < n {
      TimesMono(idx, n - 1, bs);
    } else {
      TimesMono(n, idx, bs);
    }
  }

  /** The block loop runs the ceiling of height / blockSize times. */
  lemma BlockCountIsCeiling(height: nat, bs: nat)
    requires bs >= 1
    ensures BlockCount(height, bs) == (height + bs - 1) / bs
  {
    var n := BlockCount(height, bs);
    BlockCountCovers(height, bs);
    TimesIsProduct(n, bs);
    if n > 0 {
      TimesIsProduct(n - 1, bs);
      MulSucc(n - 1, bs);
    }
    ModUnique(height + bs - 1, bs, n, height + bs - 1 - n * bs);
  }

  /** Every group write lands where the row flip puts it: row
      height-1-trueY of the group's width-by-height picture, column x,
      slot `off`; and inside the group's array. */
  lemma GroupCell(env: Env, trueY: int, x: int, len: nat, off: nat)
    requires 0 <= trueY < env.height && 0 <= x < env.width && off < len
    ensures GroupIndex(env, trueY, x, len, off) == ((env.height - 1 - trueY) * env.width + x) * len + off
    ensures 0 <= GroupIndex(env, trueY, x, len, off) < (env.height * env.width) * len
  {
    Cell(env.height - 1 - trueY, env.height, env.width, x, len, off);
  }

  /** Row a, column x, slot off of an h-by-w picture of len-slot cells. */
  lemma Cell(a: int, h: int, w: int, x: int, len: int, off: int)
    requires 0 <= a < h && 0 <= x < w && 0 <= off < len
    ensures a * (w * len) + x * len + off == (a * w + x) * len + off
    ensures 0 <= (a * w + x) * len + off < (h * w) * len
  {
    var row := a * w + x;
    assert a * (w * len) == (a * w) * len;
    assert (a * w) * len + x * len == row * len;
    MulStep(w, a);
    MulLe(w, h, a + 1);
    assert w * (a + 1) == w * a + w;
    MulStep(len, row);
    MulLe(len, h * w, row + 1);
    assert len * (row + 1) == len * row + len;
  }

  lemma Unmix(q1: int, r1: int, q2: int, r2: int, n: int)
    requires 0 <= r1 < n && 0 <= r2 < n && q1 * n + r1 == q2 * n + r2
    ensures q1 == q2 && r1 == r2
  {
    ModUnique(q1 * n + r1, n, q1, r1);
    ModUnique(q2 * n + r2, n, q2, r2);
  }

  /** Two different samples of a group never share a cell. */
  lemma GroupCellInjective(env: Env, y1: int, x1: int, o1: nat, y2: int, x2: int, o2: nat, len: nat)
    requires 0 <= y1 < env.height && 0 <= x1 < env.width && o1 < len
    requires 0 <= y2 < env.height && 0 <= x2 < env.width && o2 < len
    requires GroupIndex(env, y1, x1, len, o1) == GroupIndex(env, y2, x2, len, o2)
    ensures y1 == y2 && x1 == x2 && o1 == o2
  {
    GroupCell(env, y1, x1, len, o1);
    GroupCell(env, y2, x2, len, o2);
    Unmix((env.height - 1 - y1) * env.width + x1, o1, (env.height - 1 - y2) * env.width + x2, o2, len);
    Unmix(env.height - 1 - y1, x1, env.height - 1 - y2, x2, env.width);
  }

  /** A sample write fails exactly when its channel has no slot or its
      slot names a group without an array. */
  lemma WriteFails(env: Env, p: Planes, trueY: int, ch: int, x: int, t: Texel)
    ensures Write(env, p, trueY, ch, x, t).Err? <==>
      !(0 <= ch < |env.groups.slots|)
      || env.groups.slots[ch].group >= |env.groups.channels|
      || env.groups.slots[ch].group >= |p.groups|
  {
  }

  /** A successful sample write puts the sample in its group cell and, for
      R, G, B, A and Y, in its legacy cell, and changes nothing else. */
  lemma WriteLands(env: Env, p: Planes, trueY: int, ch: int, x: int, t: Texel)
    requires Write(env, p, trueY, ch, x, t).Ok?
    ensures
      var q := Write(env, p, trueY, ch, x, t).value;
      var s := env.groups.slots[ch];
      var i := GroupIndex(env, trueY, x, env.groups.channels[s.group].length, s.offset);
      0 <= i < |p.groups[s.group]| ==> q.groups[s.group][i] == t
    ensures
      var q := Write(env, p, trueY, ch, x, t).value;
      var s := env.groups.slots[ch];
      var i := GroupIndex(env, trueY, x, env.groups.channels[s.group].length, s.offset);
      forall g, k :: 0 <= g < |p.groups| && 0 <= k < |p.groups[g]| && (g != s.group || k != i) ==>
        q.groups[g][k] == p.groups[g][k]
    ensures
      var q := Write(env, p, trueY, ch, x, t).value;
      var c := if ch < |env.cs| then ChannelOffset(env.cs[ch].name) else None;
      forall k :: 0 <= k < |p.legacy| ==>
        q.legacy[k] == (if c.Some? && k == LegacyIndex(env, trueY, x, c.value) then t else p.legacy[k])
  {
    var q0 := if 0 <= ch < |env.cs| && ChannelOffset(env.cs[ch].name).Some?
              then Store(p, Legacy, LegacyIndex(env, trueY, x, ChannelOffset(env.cs[ch].name).value), t)
              else p;
    if 0 <= ch < |env.cs| && ChannelOffset(env.cs[ch].name).Some? {
      StoreOneCell(p, Legacy, LegacyIndex(env, trueY, x, ChannelOffset(env.cs[ch].name).value), t);
    }
    var s := env.groups.slots[ch];
    StoreOneCell(q0, Group(s.group), GroupIndex(env, trueY, x, env.groups.channels[s.group].length, s.offset), t);
  }

  /** q has the buffers of p: the same arrays, of the same lengths. */
  predicate Shaped(p: Planes, q: Planes)
  {
    |q.legacy| == |p.legacy| && |q.groups| == |p.groups|
    && forall g :: 0 <= g < |p.groups| ==> |q.groups[g]| == |p.groups[g]|
  }

  /** The scatter only writes cells: every loop keeps the buffers' sizes. */
  lemma {:induction false} RowKeepsShape(env: Env, view: seq<Byte>, ly: int, trueY: int, ch: int, x: int, p: Planes)
    requires RowFrom(env, view, ly, trueY, ch, x, p).Ok?
    ensures Shaped(p, RowFrom(env, view, ly, trueY, ch, x, p).value)
    decreases env.width - x
  {
    if x < env.width {
      var t := ReadSample(env, view, ViewIndex(env, ly, ch, x)).value;
      var q := Write(env, p, trueY, ch, x, t).value;
      RowKeepsShape(env, view, ly, trueY, ch, x + 1, q);
    }
  }

  lemma {:induction false} LineKeepsShape(env: Env, view: seq<Byte>, ly: int, trueY: int, ch: nat, p: Planes)
    requires LineFrom(env, view, ly, trueY, ch, p).Ok?
    ensures Shaped(p, LineFrom(env, view, ly, trueY, ch, p).value)
    decreases |env.cs| - ch
  {
    if ch < |env.cs| {
      RowKeepsShape(env, view, ly, trueY, ch, 0, p);
      LineKeepsShape(env, view, ly, trueY, ch + 1, RowFrom(env, view, ly, trueY, ch, 0, p).value);
    }
  }

  lemma {:induction false} BlockKeepsShape(env: Env, view: seq<Byte>, idx: nat, ly: nat, p: Planes)
    requires BlockFrom(env, view, idx, ly, p).Ok?
    ensures Shaped(p, BlockFrom(env, view, idx, ly, p).value)
    decreases env.bs - ly
  {
    if ly < env.bs && ly + idx * env.bs < env.height {
      LineKeepsShape(env, view, ly, ly + idx * env.bs, 0, p);
      BlockKeepsShape(env, view, idx, ly + 1, LineFrom(env, view, ly, ly + idx * env.bs, 0, p).value);
    }
  }

  lemma {:induction false} BlocksKeepShape(env: Env, read: Reader, idx: nat, offset: nat, last: Reg, p: Planes)
    requires env.bs >= 1 && forall o, l :: read.requires(o, l)
    requires BlocksFrom(env, read, idx, offset, last, p).Ok?
    ensures Shaped(p, BlocksFrom(env, read, idx, offset, last, p).value)
    decreases BlockCount(env.height, env.bs) - idx
  {
    if idx < BlockCount(env.height, env.bs) {
      var b := read(offset, last).value;
      BlockKeepsShape(env, b.view, idx, 0, p);
      BlocksKeepShape(env, read, idx + 1, b.next, b.last, BlockFrom(env, b.view, idx, 0, p).value);
    }
  }
}
