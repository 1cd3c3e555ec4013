/** uncompressPIZ: one block of PIZ. The block holds the range bitmap, then
    the Huffman-coded 16-bit words of every channel plane one after the
    other; each plane is wavelet-decoded, the words are mapped back through
    the reverse table, and the planes are laid out again row by row, each
    row holding every channel's run of width*type words. */
module Piz {
  import opened Common
  import opened Readers
  import opened Wavelet
  import opened HufDecode
  import opened HufDecodeLoop
  import opened HufUncompress
  import opened PizLut

  // ------------------------------------------------------- channel planes

  /** The first word of each channel's plane: channel c starts after c planes
      of nx*ny*size words, Times(c, plane) being their sum. */
  function Starts(count: nat, plane: int): (r: seq<int>)
    ensures |r| == count
  {
    seq(count, c requires 0 <= c < count => Times(c, plane))
  }

  /** The loop setting up pizChannelData: each channel's start is the sum of
      width*lines*type over the channels before it, and the returned
      outBufferEnd is the sum over all of them. */
  method ChannelPlanes(channels: nat, nx: int, ny: int, size: int) returns (starts: seq<int>, end: int)
    ensures starts == Starts(channels, nx * ny * size) && end == Times(channels, nx * ny * size)
  {
    starts := [];
    end := 0;
    var i := 0;
    while i < channels
      invariant 0 <= i <= channels && starts == Starts(i, nx * ny * size) && end == Times(i, nx * ny * size)
    {
      starts := starts + [end];
      end := end + nx * ny * size;
      i := i + 1;
    }
  }

  /** The products of the block geometry, regrouped. */
  lemma BlockProducts(width: int, lines: int, blockSize: int, channels: nat, ty: int)
    ensures lines * (width * ty) == width * lines * ty
    ensures channels * (width * lines * ty) == width * ty * channels * lines
    ensures width * blockSize * (channels * ty) == width * ty * channels * blockSize
    ensures lines * channels * (width * ty) == channels * (width * lines * ty)
  {
  }

  /** A factor of at least one keeps a product's sign. */
  lemma SignOf(a: int, b: int)
    requires b >= 1 && a * b >= 0
    ensures a >= 0
  {
    if a < 0 {
      MulLe(b, 0, a);
    }
  }

  /** A non-negative product with a fixed factor grows with the other. */
  lemma ScaleUp(q: int, a: int, b: int)
    requires 1 <= b && a <= b && q * b >= 0
    ensures q >= 0 && q * a <= q * b
  {
    SignOf(q, b);
    if q > 0 {
      MulLe(q, b, a);
    }
  }

  /** With lines <= blockSize the planes end inside outBuffer, whose length
      is width*blockSize*(channels*type); once that length is not negative,
      a block with channels has a non-negative width. */
  lemma PlanesFit(width: int, lines: int, blockSize: int, channels: nat, ty: int)
    requires 1 <= blockSize && lines <= blockSize && (ty == 1 || ty == 2)
    requires width * blockSize * (channels * ty) >= 0
    ensures Times(channels, width * lines * ty) <= width * blockSize * (channels * ty)
    ensures channels > 0 ==> width >= 0
  {
    BlockProducts(width, lines, blockSize, channels, ty);
    TimesIsProduct(channels, width * lines * ty);
    var q := width * ty * channels;
    ScaleUp(q, lines, blockSize);
    if channels > 0 {
      SignOf(width * ty, channels);
      SignOf(width, ty);
    }
  }

  // ------------------------------------------------------------- wavelets

  /** wav2Decode over the `size` words of each sample of the plane at start:
      word j of every sample, with x step size and y step nx*size. */
  function PlaneWavelets(v: Variant, buf: seq<U16>, start: int, j: int, nx: int, ny: int, size: int, mx: int): (r: Result<seq<U16>>)
    requires 0 <= j
    decreases size - j
  {
    if j >= size then Ok(buf)
    else
      var b :- Wav2(v, buf, Plane(start + j, nx, size, ny, nx * size), mx);
      PlaneWavelets(v, b, start, j + 1, nx, ny, size, mx)
  }

  /** The wavelet loop over the channels from the c-th on. */
  function ChannelWavelets(v: Variant, buf: seq<U16>, starts: seq<int>, c: nat, nx: int, ny: int, size: int, mx: int): (r: Result<seq<U16>>)
    decreases |starts| - c
  {
    if c >= |starts| then Ok(buf)
    else
      var b :- PlaneWavelets(v, buf, starts[c], 0, nx, ny, size, mx);
      ChannelWavelets(v, b, starts, c + 1, nx, ny, size, mx)
  }

  /** A plane with fewer than two rows or columns has no wavelet level. */
  lemma Wav2Idle(v: Variant, buf: seq<U16>, g: Plane, mx: int)
    requires Strided(g) && (if g.nx > g.ny then g.ny else g.nx) < 2
    ensures Wav2(v, buf, g, mx) == Ok(buf)
  {
  }

  lemma {:induction false} PlaneWaveletsIdle(v: Variant, buf: seq<U16>, start: int, j: int, nx: int, ny: int, size: int, mx: int)
    requires 0 <= j && (if nx > ny then ny else nx) < 2
    ensures PlaneWavelets(v, buf, start, j, nx, ny, size, mx) == Ok(buf)
    decreases size - j
  {
    if j < size {
      Wav2Idle(v, buf, Plane(start + j, nx, size, ny, nx * size), mx);
      PlaneWaveletsIdle(v, buf, start, j + 1, nx, ny, size, mx);
    }
  }

  /** Blocks of a single row or column pass the wavelet stage unchanged. */
  lemma {:induction false} WaveletsIdle(v: Variant, buf: seq<U16>, starts: seq<int>, c: nat, nx: int, ny: int, size: int, mx: int)
    requires (if nx > ny then ny else nx) < 2
    ensures ChannelWavelets(v, buf, starts, c, nx, ny, size, mx) == Ok(buf)
    decreases |starts| - c
  {
    if c < |starts| {
      PlaneWaveletsIdle(v, buf, starts[c], 0, nx, ny, size, mx);
      WaveletsIdle(v, buf, starts, c + 1, nx, ny, size, mx);
    }
  }

  lemma {:induction false} PlaneWaveletsAgree(buf: seq<U16>, start: int, j: int, nx: int, ny: int, size: int, mx: int)
    requires 0 <= j && (if nx > ny then ny else nx) < 4
    ensures PlaneWavelets(Parser, buf, start, j, nx, ny, size, mx) == PlaneWavelets(Port, buf, start, j, nx, ny, size, mx)
    decreases size - j
  {
    if j < size {
      var g := Plane(start + j, nx, size, ny, nx * size);
      OneLevelSame(buf, g, mx);
      if Wav2(Parser, buf, g, mx).Ok? {
        PlaneWaveletsAgree(Wav2(Parser, buf, g, mx).value, start, j + 1, nx, ny, size, mx);
      }
    }
  }

  /** With fewer than four rows or columns the two loaders' wavelet stages
      agree: the port's single `py` only matters from the second level on. */
  lemma {:induction false} WaveletsAgree(buf: seq<U16>, starts: seq<int>, c: nat, nx: int, ny: int, size: int, mx: int)
    requires (if nx > ny then ny else nx) < 4
    ensures ChannelWavelets(Parser, buf, starts, c, nx, ny, size, mx) == ChannelWavelets(Port, buf, starts, c, nx, ny, size, mx)
    decreases |starts| - c
  {
    if c < |starts| {
      PlaneWaveletsAgree(buf, starts[c], 0, nx, ny, size, mx);
      var b := PlaneWavelets(Parser, buf, starts[c], 0, nx, ny, size, mx);
      if b.Ok? {
        WaveletsAgree(b.value, starts, c + 1, nx, ny, size, mx);
      }
    }
  }

  /** A loop's outcome is the function's: the same error, or the buffer the
      function computes. */
  predicate Outcome(r: Result<()>, spec: Result<seq<U16>>, cells: seq<U16>)
  {
    r.Ok? == spec.Ok? && (r.Err? ==> r.error == spec.error) && (r.Ok? ==> cells == spec.value)
  }

  /** `for (j = 0; j < size; ++j) wav2Decode(outBuffer, cd.start + j, ...)`. */
  method PlaneWaveletsM(v: Variant, buffer: array<U16>, start: int, nx: int, ny: int, size: int, mx: int) returns (r: Result<()>)
    modifies buffer
    ensures Outcome(r, PlaneWavelets(v, old(buffer[..]), start, 0, nx, ny, size, mx), buffer[..])
  {
    ghost var target := PlaneWavelets(v, buffer[..], start, 0, nx, ny, size, mx);
    var j := 0;
    while j < size
      invariant 0 <= j && PlaneWavelets(v, buffer[..], start, j, nx, ny, size, mx) == target
      decreases size - j
    {
      ghost var before := buffer[..];
      ghost var plane := Wav2(v, before, Plane(start + j, nx, size, ny, nx * size), mx);
      PlaneWaveletsStep(v, before, start, j, nx, ny, size, mx);
      var w := Wav2Decode(v, buffer, start + j, nx, size, ny, nx * size, mx);
      if w.Err? {
        return Err(w.error);
      }
      assert buffer[..] == plane.value;
      assert PlaneWavelets(v, plane.value, start, j + 1, nx, ny, size, mx) == target;
      j := j + 1;
    }
    r := Ok(());
  }

  /** One turn of the plane loop: wav2Decode of plane j, then the rest. */
  lemma PlaneWaveletsStep(v: Variant, buf: seq<U16>, start: int, j: int, nx: int, ny: int, size: int, mx: int)
    requires 0 <= j < size
    ensures Strided(Plane(start + j, nx, size, ny, nx * size))
    ensures var w := Wav2(v, buf, Plane(start + j, nx, size, ny, nx * size), mx);
      PlaneWavelets(v, buf, start, j, nx, ny, size, mx) == if w.Err? then Err(w.error) else PlaneWavelets(v, w.value, start, j + 1, nx, ny, size, mx)
  {
  }

  /** The wavelet loop over the channels. */
  method ChannelWaveletsM(v: Variant, buffer: array<U16>, starts: seq<int>, nx: int, ny: int, size: int, mx: int) returns (r: Result<()>)
    modifies buffer
    ensures Outcome(r, ChannelWavelets(v, old(buffer[..]), starts, 0, nx, ny, size, mx), buffer[..])
  {
    ghost var target := ChannelWavelets(v, buffer[..], starts, 0, nx, ny, size, mx);
    var c := 0;
    while c < |starts|
      invariant 0 <= c <= |starts| && ChannelWavelets(v, buffer[..], starts, c, nx, ny, size, mx) == target
    {
      var w := PlaneWaveletsM(v, buffer, starts[c], nx, ny, size, mx);
      if w.Err? {
        return Err(w.error);
      }
      c := c + 1;
    }
    r := Ok(());
  }

  // ------------------------------------------------------------ relayout

  /** The n words from e on (0 outside the buffer, where the loop never
      reads: see RelayoutInside). */
  function Run(buf: seq<U16>, e: int, n: nat): (r: seq<int>)
    ensures |r| == n
    ensures 0 <= e && e + n <= |buf| ==> r == buf[e..e + n]
  {
    seq(n, i requires 0 <= i < n => if 0 <= e + i < |buf| then buf[e + i] as int else 0)
  }

  /** One row of the relayout: each channel's next n words. */
  function RowRuns(buf: seq<U16>, ends: seq<int>, n: nat): (r: seq<seq<int>>)
    ensures |r| == |ends| && Uniform(r, n)
  {
    seq(|ends|, k requires 0 <= k < |ends| => Run(buf, ends[k], n))
  }

  /** Every cursor `cd.end` moved on by n. */
  function Advance(ends: seq<int>, n: int): (r: seq<int>)
    ensures |r| == |ends|
  {
    seq(|ends|, k requires 0 <= k < |ends| => ends[k] + n)
  }

  /** The runs of `rows` passes of the relayout loop from the cursors ends. */
  function Layout(buf: seq<U16>, ends: seq<int>, rows: int, n: nat): (r: seq<seq<int>>)
    ensures Uniform(r, n)
    ensures rows >= 0 ==> |r| == Times(rows, |ends|)
    decreases rows
  {
    if rows <= 0 then [] else RowRuns(buf, ends, n) + Layout(buf, Advance(ends, n), rows - 1, n)
  }

  /** The words of the relayout of a block: rows 0 .. lines - 1, each holding
      the n words of every channel's row, the channel cursors starting at the
      planes of `plane` words. A negative n comes only with no channel, when
      nothing is copied. */
  function Relaid(buf: seq<U16>, channels: nat, lines: int, n: int, plane: int): (r: seq<int>)
  {
    if n < 0 then [] else Concat(Layout(buf, Starts(channels, plane), lines, n))
  }

  /** Run y*|ends| + c of the layout is channel c's run y rows on. */
  lemma {:induction false} LayoutAt(buf: seq<U16>, ends: seq<int>, rows: nat, n: nat, y: nat, c: nat)
    requires y < rows && c < |ends|
    ensures Times(y, |ends|) + c < |Layout(buf, ends, rows, n)|
    ensures Layout(buf, ends, rows, n)[Times(y, |ends|) + c] == Run(buf, ends[c] + Times(y, n), n)
    decreases y
  {
    var row := RowRuns(buf, ends, n);
    var rest := Layout(buf, Advance(ends, n), rows - 1, n);
    assert Layout(buf, ends, rows, n) == row + rest;
    if y > 0 {
      LayoutAt(buf, Advance(ends, n), rows - 1, n, y - 1, c);
      assert (row + rest)[|ends| + (Times(y - 1, |ends|) + c)] == rest[Times(y - 1, |ends|) + c];
    }
  }

  /** Word Times(y*channels + c, n) + j of the relayout is word j of channel
      c's run in row y. */
  lemma RelaidAt(buf: seq<U16>, channels: nat, lines: int, n: int, plane: int, y: nat, c: nat, j: nat)
    requires y < lines && c < channels && j < n
    ensures Times(Times(y, channels) + c, n) + j < |Relaid(buf, channels, lines, n, plane)|
    ensures Relaid(buf, channels, lines, n, plane)[Times(Times(y, channels) + c, n) + j]
         == Run(buf, Times(c, plane) + Times(y, n), n)[j]
  {
    var starts := Starts(channels, plane);
    var runs := Layout(buf, starts, lines, n);
    assert Relaid(buf, channels, lines, n, plane) == Concat(runs);
    assert |starts| == channels && starts[c] == Times(c, plane);
    LayoutAt(buf, starts, lines, n, y, c);
    ConcatAt(runs, n, Times(y, channels) + c, j);
  }

  /** Times(Times(y, channels) + c, n) as a product. */
  lemma RowIndex(y: nat, channels: nat, c: nat, n: int)
    ensures Times(Times(y, channels) + c, n) == (y * channels + c) * n
  {
    TimesIsProduct(y, channels);
    TimesIsProduct(y * channels + c, n);
  }

  /** Where the words go: with n words a row and `plane` words a channel,
      word (y*channels + c)*n + j of the relayout is word c*plane + y*n + j
      of the buffer. */
  lemma RelaidPlacement(buf: seq<U16>, channels: nat, lines: int, n: int, plane: int, y: int, c: int, j: int)
    requires 0 <= y < lines && 0 <= c < channels && 0 <= j < n
    requires 0 <= c * plane + y * n + j < |buf|
    ensures 0 <= (y * channels + c) * n + j < |Relaid(buf, channels, lines, n, plane)|
    ensures Relaid(buf, channels, lines, n, plane)[(y * channels + c) * n + j] == buf[c * plane + y * n + j]
  {
    RelaidAt(buf, channels, lines, n, plane, y, c, j);
    RowIndex(y, channels, c, n);
    TimesIsProduct(c, plane);
    TimesIsProduct(y, n);
  }

  /** The relayout holds lines*channels runs of n words. */
  lemma RelaidLength(buf: seq<U16>, channels: nat, lines: int, n: int, plane: int)
    requires n >= 0 && lines >= 0
    ensures |Relaid(buf, channels, lines, n, plane)| == Times(Times(lines, channels), n)
  {
    ConcatLength(Layout(buf, Starts(channels, plane), lines, n), n);
  }

  /** Every run of the relayout lies inside a buffer holding the planes:
      each channel cursor walks Times(lines, n) = plane words from its start. */
  lemma RelayoutInside(channels: nat, lines: nat, n: nat, plane: int, total: int)
    requires plane == Times(lines, n) && Times(channels, plane) <= total
    ensures Fits(Starts(channels, plane), Times(lines, n), total)
  {
    forall k | 0 <= k < channels
      ensures 0 <= Times(k, plane) && Times(k, plane) + plane <= Times(channels, plane)
    {
      TimesMono(k + 1, channels, plane);
    }
  }

  /** Every cursor has m words of the buffer from it on. */
  predicate Fits(ends: seq<int>, m: int, len: int)
  {
    forall k :: 0 <= k < |ends| ==> 0 <= ends[k] && ends[k] + m <= len
  }

  /** Room for m >= n words is room for n words now and for m - n from the
      advanced cursors. */
  lemma FitsAdvance(ends: seq<int>, n: nat, m: int, len: int)
    requires Fits(ends, m, len) && n <= m
    ensures Fits(ends, n, len) && Fits(Advance(ends, n), m - n, len)
  {
  }

  /** The relayout of one row: `tmpBuffer.set(...)` of each channel's next
      n words, then `cd.end += n`. */
  method RelayRow(a: array<U16>, ends0: seq<int>, n: nat) returns (ends: seq<int>, row: seq<int>)
    requires Fits(ends0, n, a.Length)
    ensures ends == Advance(ends0, n) && row == Concat(RowRuns(a[..], ends0, n))
  {
    ghost var runs := RowRuns(a[..], ends0, n);
    ends := ends0;
    row := [];
    var c := 0;
    while c < |ends0|
      invariant 0 <= c <= |ends0| && |ends| == |ends0|
      invariant forall k :: 0 <= k < |ends0| ==> ends[k] == if k < c then ends0[k] + n else ends0[k]
      invariant row == Concat(runs[..c])
    {
      var e := ends[c];
      assert runs[..c + 1] == runs[..c] + [runs[c]];
      ConcatAppend(runs[..c], [runs[c]]);
      assert Concat([runs[c]]) == runs[c] + Concat([]);
      row := row + a[e..e + n];
      ends := ends[c := e + n];
      c := c + 1;
    }
    assert runs[..c] == runs;
  }

  /** One more pass of the relayout: the row's runs, then the rest from the
      advanced cursors, with room for both. */
  lemma LayoutStep(buf: seq<U16>, ends: seq<int>, left: nat, n: nat, room: int, len: int)
    requires left >= 1 && room == Times(left, n) && Fits(ends, room, len)
    ensures Concat(Layout(buf, ends, left, n))
         == Concat(RowRuns(buf, ends, n)) + Concat(Layout(buf, Advance(ends, n), left - 1, n))
    ensures Fits(ends, n, len) && Fits(Advance(ends, n), room - n, len) && room - n == Times(left - 1, n)
  {
    ConcatAppend(RowRuns(buf, ends, n), Layout(buf, Advance(ends, n), left - 1, n));
    FitsAdvance(ends, n, room, len);
  }

  /** Appending is associative. */
  lemma Regroup(w: seq<int>, r: seq<int>, x: seq<int>)
    ensures (w + r) + x == w + (r + x)
  {
  }

  /** The relayout loop `for (y = 0; y < lines; y++) for (c ...)`. */
  method Relayout(a: array<U16>, starts: seq<int>, rows: nat, n: nat) returns (words: seq<int>)
    requires Fits(starts, Times(rows, n), a.Length)
    ensures words == Concat(Layout(a[..], starts, rows, n))
  {
    ghost var buf := a[..];
    var ends := starts;
    words := [];
    var y := 0;
    ghost var left: nat := rows;
    ghost var room := Times(rows, n);
    while y < rows
      invariant 0 <= y <= rows && left == rows - y && room == Times(left, n)
      invariant Fits(ends, room, a.Length)
      invariant words + Concat(Layout(buf, ends, left, n)) == Concat(Layout(buf, starts, rows, n))
    {
      LayoutStep(buf, ends, left, n, room, a.Length);
      ghost var whole := Concat(Layout(buf, ends, left, n));
      ghost var rest := Concat(Layout(buf, Advance(ends, n), left - 1, n));
      var row;
      ends, row := RelayRow(a, ends, n);
      assert a[..] == buf;
      assert whole == row + rest;
      Regroup(words, row, rest);
      words := words + row;
      y := y + 1;
      left := left - 1;
      room := room - n;
      assert Concat(Layout(buf, ends, left, n)) == rest;
    }
    assert Concat(Layout(buf, ends, left, n)) == [];
  }

  // ---------------------------------------------------------- the block

  /** The decoded block as a DataView sees it, and getCodeReturn after it. */
  datatype PizOut = PizOut(bytes: seq<Byte>, last: Reg)

  /** outBuffer after hufUncompress: the values written from offset 0 on, as
      the Uint16Array stores them (modulo 2^16), then the zeros it was
      created with. */
  function Decoded(out: seq<int>, len: nat): (r: seq<U16>)
    ensures |r| == len
  {
    seq(len, i requires 0 <= i < len => if i < |out| then out[i] % 0x1_0000 else 0)
  }

  /** The fresh Uint8Array tmpBuffer of len bytes after the bytes were set
      from offset 0 on. */
  function Pad(bytes: seq<Byte>, len: nat): (r: seq<Byte>)
    ensures |r| == len
    ensures |bytes| <= len ==> r[..|bytes|] == bytes && forall i :: |bytes| <= i < len ==> r[i] == 0
  {
    seq(len, i requires 0 <= i < len => if i < |bytes| then bytes[i] else 0)
  }

  /** The stages after hufUncompress, over outBuffer as it decoded: the
      wavelet loop, applyLut over the planes and the relayout into the
      tmpBuffer of 2*total bytes. */
  function Reconstruct(v: Variant, decoded: seq<U16>, bm: seq<int>, channels: nat, width: int, lines: int, ty: int,
                       total: nat): (r: Result<seq<Byte>>)
    requires |bm| == BitmapSize
    ensures r.Ok? ==> |r.value| == 2 * total
  {
    var plane := width * lines * ty;
    var waved :- ChannelWavelets(v, decoded, Starts(channels, plane), 0, width, lines, ty, MaxValue(bm));
    var mapped := Applied(Lut(bm), waved, Times(channels, plane));
    Ok(Pad(Flatten(Relaid(mapped, channels, lines, width * ty, plane), 2), 2 * total))
  }

  /** uncompressPIZ for a block of `lines` rows of `channels` channels of
      `width` samples of `ty` 16-bit words, with blockSize the scanline block
      size the buffers are sized by. */
  function UncompressPiz(v: Variant, file: seq<Byte>, offset: nat, width: int, lines: int, blockSize: int,
                         channels: nat, ty: int, last: Reg, fuel: nat): (r: Result<PizOut>)
    requires 1 <= blockSize && lines <= blockSize && (ty == 1 || ty == 2)
    ensures r.Ok? ==> |r.value.bytes| == 2 * (width * blockSize * (channels * ty))
  {
    var total := width * blockSize * (channels * ty);
    if total < 0 then Err(RangeError)
    else
      var bm :- ReadBitmap(file, offset);
      var len :- ReadU32(file, bm.next);
      DecodePiz(v, file, bm.value, len, width, lines, channels, ty, total, last, fuel)
  }

  /** The block once its bitmap and its Huffman length are read:
      hufUncompress into the planes, then the stages after it. */
  function DecodePiz(v: Variant, file: seq<Byte>, bm: seq<int>, len: Read<nat>, width: int, lines: int,
                     channels: nat, ty: int, total: nat, last: Reg, fuel: nat): (r: Result<PizOut>)
    requires |bm| == BitmapSize
    ensures r.Ok? ==> |r.value.bytes| == 2 * total
  {
    var d :- Uncompress(file, len.next, len.value, Times(channels, width * lines * ty), last, fuel);
    var bytes :- Reconstruct(v, Decoded(d.out, total), bm, channels, width, lines, ty, total);
    Ok(PizOut(bytes, d.last))
  }

  /** A block whose bitmap claims values from 65536 on is refused. */
  lemma PizBitmapTooLarge(v: Variant, file: seq<Byte>, offset: nat, width: int, lines: int, blockSize: int,
                          channels: nat, ty: int, last: Reg, fuel: nat)
    requires 1 <= blockSize && lines <= blockSize && (ty == 1 || ty == 2)
    requires width * blockSize * (channels * ty) >= 0
    requires offset + 4 <= |file| && file[offset + 2] as int + 256 * file[offset + 3] as int >= BitmapSize
    ensures UncompressPiz(v, file, offset, width, lines, blockSize, channels, ty, last, fuel) == Err(PizBitmapSize)
  {
    BitmapTooLarge(file, offset);
  }

  /** The relayout fits the block: its words, as little-endian byte pairs,
      open the 2*total bytes, and zeros follow them when the block has fewer
      than blockSize rows. */
  lemma RelaidFits(buf: seq<U16>, width: int, lines: int, blockSize: int, channels: nat, ty: int)
    requires 1 <= blockSize && 0 <= lines <= blockSize && (ty == 1 || ty == 2)
    requires width * blockSize * (channels * ty) >= 0
    ensures var total := width * blockSize * (channels * ty);
      var words := Flatten(Relaid(buf, channels, lines, width * ty, width * lines * ty), 2);
      |words| <= 2 * total && Pad(words, 2 * total)[..|words|] == words
  {
    var n := width * ty;
    if n >= 0 {
      RelaidLength(buf, channels, lines, n, width * lines * ty);
      PlanesFit(width, lines, blockSize, channels, ty);
      BlockProducts(width, lines, blockSize, channels, ty);
      TimesIsProduct(lines, channels);
      TimesIsProduct(lines * channels, n);
      TimesIsProduct(channels, width * lines * ty);
    }
  }

  /** outBuffer after hufUncompress over a fresh buffer. */
  lemma DecodedHolds(cells: seq<U16>, out: seq<int>, orig: seq<int>)
    requires |out| <= |orig| == |cells| && cells == out + orig[|out|..]
    requires forall i :: 0 <= i < |orig| ==> orig[i] == 0
    ensures cells == Decoded(out, |cells|)
  {
    forall i | 0 <= i < |cells|
      ensures cells[i] == Decoded(out, |cells|)[i]
    {
      if i < |out| {
        assert cells[i] == out[i];
      }
    }
  }

  /** The stages after hufUncompress over the typed arrays: outBuffer,
      the reverse table lut built from the bitmap bm, the channel starts and
      outBufferEnd. */
  method ReconstructM(v: Variant, outBuffer: array<U16>, lut: array<U16>, ghost bm: seq<int>, mx: int,
                      starts: seq<int>, end: int, width: int, lines: int, blockSize: int, channels: nat, ty: int)
    returns (r: Result<seq<Byte>>)
    requires |bm| == BitmapSize && lut[..] == Lut(bm) && mx == MaxValue(bm) && lut != outBuffer
    requires 1 <= blockSize && lines <= blockSize && (ty == 1 || ty == 2)
    requires outBuffer.Length == width * blockSize * (channels * ty)
    requires starts == Starts(channels, width * lines * ty) && end == Times(channels, width * lines * ty)
    modifies outBuffer
    ensures r == Reconstruct(v, old(outBuffer[..]), bm, channels, width, lines, ty, outBuffer.Length)
  {
    var total := outBuffer.Length;
    var w := ChannelWaveletsM(v, outBuffer, starts, width, lines, ty, mx);
    if w.Err? {
      return Err(w.error);
    }
    ApplyLut(lut, outBuffer, end);
    var words: seq<int> := [];
    var n := width * ty;
    if n >= 0 && lines > 0 {
      PlanesFit(width, lines, blockSize, channels, ty);
      BlockProducts(width, lines, blockSize, channels, ty);
      TimesIsProduct(lines, n);
      RelayoutInside(channels, lines, n, width * lines * ty, total);
      words := Relayout(outBuffer, starts, lines, n);
    }
    r := Ok(Pad(Flatten(words, 2), 2 * total));
  }

  /** The bitmap, the reverse table built from it, and the length of the
      Huffman data after it. */
  method PizTables(file: seq<Byte>, offset: nat) returns (r: Result<Read<nat>>, lut: array<U16>, maxValue: int, ghost bm: seq<int>)
    ensures fresh(lut)
    ensures ReadBitmap(file, offset).Err? ==> r == Err(ReadBitmap(file, offset).error)
    ensures ReadBitmap(file, offset).Ok? ==> r == ReadU32(file, ReadBitmap(file, offset).value.next)
    ensures r.Ok? ==> bm == ReadBitmap(file, offset).value.value && |bm| == BitmapSize
    ensures r.Ok? ==> lut[..] == Lut(bm) && maxValue == MaxValue(bm)
  {
    var bitmap := new Byte[BitmapSize](_ => 0);
    lut := new U16[UShortRange](_ => 0);
    assert bitmap[..] == Zeros(BitmapSize);
    var pos := ReadBitmapM(file, offset, bitmap);
    bm := bitmap[..];
    maxValue := 0;
    if pos.Err? {
      return Err(pos.error), lut, maxValue, bm;
    }
    maxValue := ReverseLutFromBitmap(bitmap, lut);
    r := ReadU32(file, pos.value);
  }

  /** uncompressPIZ(info) over the typed arrays of the source. */
  method UncompressPizM(v: Variant, file: seq<Byte>, offset: nat, width: int, lines: int, blockSize: int,
                        channels: nat, ty: int, last: Reg, fuel: nat) returns (r: Result<PizOut>)
    requires 1 <= blockSize && lines <= blockSize && (ty == 1 || ty == 2)
    ensures r == UncompressPiz(v, file, offset, width, lines, blockSize, channels, ty, last, fuel)
  {
    var total := width * blockSize * (channels * ty);
    if total < 0 {
      return Err(RangeError);
    }
    var outBuffer := new U16[total](_ => 0);
    var starts, outBufferEnd := ChannelPlanes(channels, width, lines, ty);
    var length, lut, maxValue, bm := PizTables(file, offset);
    if length.Err? {
      return Err(length.error);
    }
    assert UncompressPiz(v, file, offset, width, lines, blockSize, channels, ty, last, fuel)
        == DecodePiz(v, file, bm, length.value, width, lines, channels, ty, total, last, fuel);
    r := DecodePizM(v, file, outBuffer, lut, bm, maxValue, length.value, starts, outBufferEnd,
                    width, lines, blockSize, channels, ty, last, fuel);
  }

  /** The block once its bitmap and its Huffman length are read, over the
      fresh outBuffer: hufUncompress, then the stages after it. */
  method DecodePizM(v: Variant, file: seq<Byte>, outBuffer: array<U16>, lut: array<U16>, ghost bm: seq<int>,
                    maxValue: int, len: Read<nat>, starts: seq<int>, end: int, width: int, lines: int,
                    blockSize: int, channels: nat, ty: int, last: Reg, fuel: nat) returns (r: Result<PizOut>)
    requires |bm| == BitmapSize && lut[..] == Lut(bm) && maxValue == MaxValue(bm) && lut != outBuffer
    requires 1 <= blockSize && lines <= blockSize && (ty == 1 || ty == 2)
    requires outBuffer.Length == width * blockSize * (channels * ty)
    requires forall i :: 0 <= i < outBuffer.Length ==> outBuffer[i] == 0
    requires starts == Starts(channels, width * lines * ty) && end == Times(channels, width * lines * ty)
    modifies outBuffer
    ensures r == DecodePiz(v, file, bm, len, width, lines, channels, ty, outBuffer.Length, last, fuel)
  {
    PlanesFit(width, lines, blockSize, channels, ty);
    ghost var blank := outBuffer[..];
    var h := HufUncompressM(file, len.next, len.value, outBuffer, end, last, fuel);
    if h.Err? {
      return Err(h.error);
    }
    ghost var d := Uncompress(file, len.next, len.value, end, last, fuel).value;
    DecodedHolds(outBuffer[..], d.out, blank);
    var bytes := ReconstructM(v, outBuffer, lut, bm, maxValue, starts, end, width, lines, blockSize, channels, ty);
    if bytes.Err? {
      return Err(bytes.error);
    }
    r := Ok(PizOut(bytes.value, h.value.last));
  }
}
