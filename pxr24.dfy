/** The PXR24 codec after zlib inflate: for every row of the block and every
    channel, `width` differences split into byte planes (two planes for half
    samples, three for float samples whose low byte was dropped), summed back
    into samples modulo the sample width. */
module Pxr24 {
  import opened Common
  import opened Readers

  /** The bytes of one run's planes: two planes of width bytes for half
      (type 1), three for float. */
  function Stride(ty: int, w: int): int
  {
    if ty == 1 then 2 * w else 3 * w
  }

  /** The range of a Uint16Array (half) or Uint32Array (float) element. */
  function Modulus(ty: int): nat
  {
    if ty == 1 then 0x1_0000 else TWO32
  }

  /** A sum stored into the typed array. */
  function Wrap(ty: int, p: int): (r: int)
    ensures 0 <= r < Modulus(ty)
  {
    if ty == 1 then p % 0x1_0000 else p % TWO32
  }

  /** Difference j of the run whose planes start at base: `(p0 << 8) | p1`
      for half; `(p0 << 24) | (p1 << 16) | (p2 << 8)` for float, a signed
      32-bit value since the shifted bytes do not overlap. Bytes past the end
      of the inflated data read as 0. */
  function Delta(raw: seq<Byte>, ty: int, base: int, w: int, j: int): int
  {
    var b0 := ByteOr0(raw, base + j);
    var b1 := ByteOr0(raw, base + w + j);
    if ty == 1 then b0 * 256 + b1
    else
      var x := b0 * 0x100_0000 + b1 * 0x1_0000 + ByteOr0(raw, base + 2 * w + j) * 256;
      if x >= TWO31 then x - TWO32 else x
  }

  /** Samples j.. of the run whose planes start at base, pixel being the sum
      of the differences before j: each sample is the running sum, stored
      modulo the element range. */
  function RunFrom(raw: seq<Byte>, ty: int, base: int, w: int, j: nat, pixel: int): (r: seq<int>)
    ensures |r| == if j <= w then w - j else 0
    decreases w - j
  {
    if j >= w then []
    else
      var p := pixel + Delta(raw, ty, base, w, j);
      [Wrap(ty, p)] + RunFrom(raw, ty, base, w, j + 1, p)
  }

  /** count consecutive runs from base, each with its sum restarting at 0. */
  function RunList(raw: seq<Byte>, ty: int, base: int, w: nat, count: nat): (r: seq<seq<int>>)
    ensures |r| == count
  {
    Pieces(b => RunFrom(raw, ty, b, w, 0, 0), base, Stride(ty, w), count)
  }

  /** The pieces f(base), f(base + step), ... of count evenly spaced starts. */
  function Pieces(f: int -> seq<int>, base: int, step: int, count: nat): (r: seq<seq<int>>)
    ensures |r| == count
    decreases count
  {
    if count == 0 then [] else [f(base)] + Pieces(f, base + step, step, count - 1)
  }

  /** The samples of count consecutive runs, one after the other. */
  function Runs(raw: seq<Byte>, ty: int, base: int, w: nat, count: nat): seq<int>
  {
    Concat(RunList(raw, ty, base, w, count))
  }

  /** Piece k starts k steps after base. */
  lemma {:induction false} PiecesAt(f: int -> seq<int>, base: int, step: int, count: nat, k: nat)
    requires k < count
    ensures Pieces(f, base, step, count)[k] == f(base + Times(k, step))
    decreases count
  {
    var rest := Pieces(f, base + step, step, count - 1);
    assert Pieces(f, base, step, count) == [f(base)] + rest;
    if k > 0 {
      PiecesAt(f, base + step, step, count - 1, k - 1);
      assert base + Times(k, step) == base + step + Times(k - 1, step);
    }
  }

  /** Run k starts k times the run's plane bytes after base. */
  lemma RunListAt(raw: seq<Byte>, ty: int, base: int, w: nat, count: nat, k: nat)
    requires k < count
    ensures RunList(raw, ty, base, w, count)[k] == RunFrom(raw, ty, base + Times(k, Stride(ty, w)), w, 0, 0)
  {
    PiecesAt(b => RunFrom(raw, ty, b, w, 0, 0), base, Stride(ty, w), count, k);
  }

  lemma RunListUniform(raw: seq<Byte>, ty: int, base: int, w: nat, count: nat)
    ensures Uniform(RunList(raw, ty, base, w, count), w)
  {
    forall k | 0 <= k < count
      ensures |RunList(raw, ty, base, w, count)[k]| == w
    {
      RunListAt(raw, ty, base, w, count, k);
    }
  }

  lemma RunsLength(raw: seq<Byte>, ty: int, base: int, w: nat, count: nat)
    ensures |Runs(raw, ty, base, w, count)| == count * w
  {
    RunListUniform(raw, ty, base, w, count);
    ConcatLength(RunList(raw, ty, base, w, count), w);
    TimesIsProduct(count, w);
  }

  /** The samples of uncompressPXR: lines * channels runs, row by row and
      channel by channel. With no rows or no columns nothing is written and
      the typed array keeps its zeros; a negative length is a RangeError. */
  function PxrSamples(raw: seq<Byte>, ty: int, lines: int, channels: nat, w: int): (r: Result<seq<int>>)
    ensures r.Err? <==> lines * channels * w < 0
    ensures r.Ok? ==> |r.value| == lines * channels * w
  {
    var sz := lines * channels * w;
    if sz < 0 then Err(RangeError)
    else if lines <= 0 || w <= 0 then Ok(seq(sz, _ => 0))
    else
      RunsLength(raw, ty, 0, w, lines * channels);
      Ok(Runs(raw, ty, 0, w, lines * channels))
  }

  /** The sum of the first j differences of a run. */
  function DeltaSum(raw: seq<Byte>, ty: int, base: int, w: int, j: nat): int
  {
    if j == 0 then 0 else DeltaSum(raw, ty, base, w, j - 1) + Delta(raw, ty, base, w, j - 1)
  }

  lemma {:induction false} RunFromAt(raw: seq<Byte>, ty: int, base: int, w: int, j: nat, i: nat)
    requires j <= i < w
    ensures RunFrom(raw, ty, base, w, j, DeltaSum(raw, ty, base, w, j))[i - j]
         == Wrap(ty, DeltaSum(raw, ty, base, w, i + 1))
    decreases i - j
  {
    var p := DeltaSum(raw, ty, base, w, j) + Delta(raw, ty, base, w, j);
    assert p == DeltaSum(raw, ty, base, w, j + 1);
    var rest := RunFrom(raw, ty, base, w, j + 1, p);
    assert RunFrom(raw, ty, base, w, j, DeltaSum(raw, ty, base, w, j)) == [Wrap(ty, p)] + rest;
    if j < i {
      RunFromAt(raw, ty, base, w, j + 1, i);
      assert ([Wrap(ty, p)] + rest)[i - j] == rest[i - (j + 1)];
    }
  }

  /** Sample (run k, column j) is the sum of the first j + 1 differences of
      run k, whose planes start at k times the run's plane bytes; the sum
      restarts at each run. */
  lemma RunsAt(raw: seq<Byte>, ty: int, base: int, w: nat, count: nat, k: nat, j: nat)
    requires k < count && j < w
    ensures k * w + j < |Runs(raw, ty, base, w, count)|
    ensures Runs(raw, ty, base, w, count)[k * w + j]
         == Wrap(ty, DeltaSum(raw, ty, base + k * Stride(ty, w), w, j + 1))
  {
    RunListUniform(raw, ty, base, w, count);
    ConcatAt(RunList(raw, ty, base, w, count), w, k, j);
    RunListAt(raw, ty, base, w, count, k);
    TimesIsProduct(k, w);
    TimesIsProduct(k, Stride(ty, w));
    RunFromAt(raw, ty, base + k * Stride(ty, w), w, 0, j);
  }

  // ------------------------------------------------------------ the loops

  lemma RunFromStep(raw: seq<Byte>, ty: int, base: int, w: int, j: nat, pixel: int)
    requires j < w
    ensures RunFrom(raw, ty, base, w, j, pixel)
         == [Wrap(ty, pixel + Delta(raw, ty, base, w, j))] + RunFrom(raw, ty, base, w, j + 1, pixel + Delta(raw, ty, base, w, j))
  {
  }

  /** The difference the loop computes from its three plane cursors. */
  lemma DeltaAt(raw: seq<Byte>, ty: int, base: int, w: int, j: int, p0: int, p1: int, p2: int)
    requires p0 == base + j && p1 == base + w + j && p2 == base + 2 * w + j
    ensures Delta(raw, ty, base, w, j)
         == if ty == 1 then ByteOr0(raw, p0) * 256 + ByteOr0(raw, p1)
            else ToInt32(ByteOr0(raw, p0) * 0x100_0000 + ByteOr0(raw, p1) * 0x1_0000 + ByteOr0(raw, p2) * 256)
  {
  }

  /** One iteration of the innermost loop: the sample written is the head of
      the samples still to write. */
  lemma WriteStep(raw: seq<Byte>, ty: int, base: int, w: int, j: nat, pixel: int, diff: int,
                  done: seq<int>, whole: seq<int>, j2: nat, pixel2: int)
    requires j < w && diff == Delta(raw, ty, base, w, j)
    requires j2 == j + 1 && pixel2 == pixel + diff
    requires done + RunFrom(raw, ty, base, w, j, pixel) == whole
    ensures (done + [Wrap(ty, pixel2)]) + RunFrom(raw, ty, base, w, j2, pixel2) == whole
  {
    var x := Wrap(ty, pixel2);
    var f := RunFrom(raw, ty, base, w, j2, pixel2);
    assert RunFrom(raw, ty, base, w, j, pixel) == [x] + f;
  }

  lemma Assoc(a: seq<int>, b: seq<int>, c: seq<int>, whole: seq<int>)
    requires a + (b + c) == whole
    ensures (a + b) + c == whole
  {
  }

  lemma RunsStep(raw: seq<Byte>, ty: int, base: int, w: nat, count: nat)
    requires count > 0
    ensures Runs(raw, ty, base, w, count) == RunFrom(raw, ty, base, w, 0, 0) + Runs(raw, ty, base + Stride(ty, w), w, count - 1)
  {
    var f := b => RunFrom(raw, ty, b, w, 0, 0);
    var runs := Pieces(f, base, Stride(ty, w), count);
    assert runs == [f(base)] + Pieces(f, base + Stride(ty, w), Stride(ty, w), count - 1);
    assert runs[1..] == RunList(raw, ty, base + Stride(ty, w), w, count - 1);
  }

  /** The innermost loop of uncompressPXR: one run of w samples decoded from
      the planes at base into tmp from start on. */
  method DecodeRun(raw: seq<Byte>, ty: int, base: int, w: int, tmp: array<int>, start: nat) returns (writePtr: nat)
    requires ty == 1 || ty == 2
    requires 0 < w && start + w <= tmp.Length
    modifies tmp
    ensures writePtr == start + w
    ensures tmp[..writePtr] == old(tmp[..start]) + RunFrom(raw, ty, base, w, 0, 0)
  {
    ghost var whole := tmp[..start] + RunFrom(raw, ty, base, w, 0, 0);
    writePtr := start;
    var pixel := 0;
    var p0 := base;
    var p1 := p0 + w;
    var p2 := p1 + w;
    var j := 0;
    while j < w
      invariant 0 <= j <= w && writePtr == start + j
      invariant p0 == base + j && p1 == p0 + w && p2 == p0 + 2 * w
      invariant tmp[..writePtr] + RunFrom(raw, ty, base, w, j, pixel) == whole
    {
      j, pixel, writePtr := RunStep(raw, ty, base, w, tmp, j, pixel, writePtr, p0, p1, p2, whole);
      p0 := p0 + 1;
      p1 := p1 + 1;
      p2 := p2 + 1;
    }
  }

  /** One pass of the innermost loop: the difference from the planes at p0,
      p1 (and p2), the running sum, and the store of its wrapped value. */
  method RunStep(raw: seq<Byte>, ty: int, base: int, w: int, tmp: array<int>, j: nat, pixel: int, writePtr: nat,
                 p0: int, p1: int, p2: int, ghost whole: seq<int>)
    returns (j2: nat, pixel2: int, writePtr2: nat)
    requires ty == 1 || ty == 2
    requires j < w && writePtr < tmp.Length
    requires p0 == base + j && p1 == p0 + w && p2 == p0 + 2 * w
    requires tmp[..writePtr] + RunFrom(raw, ty, base, w, j, pixel) == whole
    modifies tmp
    ensures j2 == j + 1 && writePtr2 == writePtr + 1
    ensures tmp[..writePtr2] + RunFrom(raw, ty, base, w, j2, pixel2) == whole
  {
    var b0 := ByteOr0(raw, p0);
    var b1 := ByteOr0(raw, p1);
    var diff;
    if ty == 1 {
      diff := b0 * 256 + b1;
    } else {
      diff := ToInt32(b0 * 0x100_0000 + b1 * 0x1_0000 + ByteOr0(raw, p2) * 256);
    }
    DeltaAt(raw, ty, base, w, j, p0, p1, p2);
    ghost var done := tmp[..writePtr];
    j2, pixel2, writePtr2 := j + 1, pixel + diff, writePtr + 1;
    WriteStep(raw, ty, base, w, j, pixel, diff, done, whole, j2, pixel2);
    tmp[writePtr] := if ty == 1 then pixel2 % 0x1_0000 else pixel2 % TWO32;
    assert tmp[..writePtr2] == done + [Wrap(ty, pixel2)];
  }

  /** The channel loop of uncompressPXR: one run per channel of a row. */
  method DecodeRow(raw: seq<Byte>, ty: int, w: int, channels: nat, tmp: array<int>, start: nat, planes: int,
                   ghost left: nat, ghost whole: seq<int>) returns (writePtr: nat, tmpEnd: int)
    requires ty == 1 || ty == 2
    requires 0 < w && channels <= left
    requires start <= tmp.Length == |whole| && tmp[..start] + Runs(raw, ty, planes, w, left) == whole
    modifies tmp
    ensures writePtr <= tmp.Length && tmp[..writePtr] + Runs(raw, ty, tmpEnd, w, left - channels) == whole
  {
    writePtr, tmpEnd := start, planes;
    var c := 0;
    ghost var rest: nat := left;
    while c < channels
      invariant 0 <= c <= channels && rest == left - c
      invariant writePtr <= tmp.Length && tmp[..writePtr] + Runs(raw, ty, tmpEnd, w, rest) == whole
    {
      writePtr, tmpEnd, rest := ChannelStep(raw, ty, w, tmp, writePtr, tmpEnd, rest, whole);
      c := c + 1;
    }
  }

  /** One pass of the channel loop: the run whose planes start at tmpEnd. */
  method ChannelStep(raw: seq<Byte>, ty: int, w: int, tmp: array<int>, writePtr: nat, tmpEnd: int,
                     ghost rest: nat, ghost whole: seq<int>) returns (writePtr2: nat, tmpEnd2: int, ghost rest2: nat)
    requires ty == 1 || ty == 2
    requires 0 < w && rest > 0
    requires writePtr <= tmp.Length == |whole| && tmp[..writePtr] + Runs(raw, ty, tmpEnd, w, rest) == whole
    modifies tmp
    ensures rest2 == rest - 1
    ensures writePtr2 <= tmp.Length && tmp[..writePtr2] + Runs(raw, ty, tmpEnd2, w, rest2) == whole
  {
    RunsStep(raw, ty, tmpEnd, w, rest);
    var base := tmpEnd;
    tmpEnd2 := if ty == 1 then base + 2 * w else base + 3 * w;
    rest2 := rest - 1;
    ghost var later := Runs(raw, ty, tmpEnd2, w, rest2);
    ghost var done := tmp[..writePtr];
    Assoc(done, RunFrom(raw, ty, base, w, 0, 0), later, whole);
    writePtr2 := DecodeRun(raw, ty, base, w, tmp, writePtr);
  }

  /** The row loop of uncompressPXR over the typed array tmp. */
  method DecodeRows(raw: seq<Byte>, ty: int, lines: nat, channels: nat, w: int, tmp: array<int>)
    requires ty == 1 || ty == 2
    requires 0 < w && tmp.Length == |Runs(raw, ty, 0, w, lines * channels)|
    modifies tmp
    ensures tmp[..] == Runs(raw, ty, 0, w, lines * channels)
  {
    ghost var whole := Runs(raw, ty, 0, w, lines * channels);
    // The runs still to write, and how many of them there are.
    ghost var todo := whole;
    ghost var left: nat := lines * channels;
    var tmpEnd := 0;
    var writePtr: nat := 0;
    var y := 0;
    while y < lines
      invariant 0 <= y <= lines && left == (lines - y) * channels
      invariant todo == Runs(raw, ty, tmpEnd, w, left)
      invariant writePtr <= tmp.Length == |whole| && tmp[..writePtr] + todo == whole
    {
      MulAtLeast(lines - y, channels);
      writePtr, tmpEnd := DecodeRow(raw, ty, w, channels, tmp, writePtr, tmpEnd, left, whole);
      left := left - channels;
      todo := Runs(raw, ty, tmpEnd, w, left);
      MulSucc(lines - y - 1, channels);
      y := y + 1;
    }
    assert todo == [];
    assert tmp[..writePtr] == whole;
    assert tmp[..] == tmp[..writePtr];
  }

  /** The loops of uncompressPXR over a fresh typed array (`pixel` is a
      JavaScript number, exact while the sums stay below 2^53). */
  method UncompressPxrSamples(raw: seq<Byte>, ty: int, lines: int, channels: nat, w: int) returns (r: Result<seq<int>>)
    requires ty == 1 || ty == 2
    ensures r == PxrSamples(raw, ty, lines, channels, w)
  {
    var sz := lines * channels * w;
    if sz < 0 {
      return Err(RangeError);
    }
    var tmp := new int[sz](_ => 0);
    if lines <= 0 || w <= 0 {
      // The loops below write nothing when a bound is not positive.
      assert tmp[..] == seq(sz, _ => 0);
      return Ok(tmp[..]);
    }
    RunsLength(raw, ty, 0, w, lines * channels);
    DecodeRows(raw, ty, lines, channels, w, tmp);
    r := Ok(tmp[..]);
  }

  // ------------------------------------------------------------ encoding

  /** The byte planes of a run as an encoder writes them: the differences
      of consecutive samples modulo the element range, half as high byte then
      low byte, float as its three high bytes. */
  predicate EncodesRun(raw: seq<Byte>, ty: int, w: nat, samples: seq<int>)
  {
    |samples| == w && |raw| == Stride(ty, w)
    && forall j :: 0 <= j < w ==> EncodesAt(raw, ty, w, samples, j)
  }

  /** Column j of the planes holds the bytes of the difference at j. */
  predicate EncodesAt(raw: seq<Byte>, ty: int, w: nat, samples: seq<int>, j: nat)
    requires j < w && |samples| == w && |raw| == Stride(ty, w)
  {
    var d := Wrap(ty, samples[j] - (if j == 0 then 0 else samples[j - 1]));
    if ty == 1 then raw[j] == d / 256 && raw[w + j] == d % 256
    else raw[j] == d / 0x100_0000 && raw[w + j] == d / 0x1_0000 % 256 && raw[2 * w + j] == d / 256 % 256
  }

  /** The samples PXR24 can carry: half values, or float patterns whose low
      byte is zero. */
  predicate Representable(ty: int, samples: seq<int>)
  {
    forall j :: 0 <= j < |samples| ==> 0 <= samples[j] < Modulus(ty) && (ty != 1 ==> samples[j] % 256 == 0)
  }

  /** A difference read back from encoded planes is congruent to the
      difference of the samples. */
  lemma DeltaOfEncoded(raw: seq<Byte>, ty: int, w: nat, samples: seq<int>, j: nat)
    requires ty == 1 || ty == 2
    requires EncodesRun(raw, ty, w, samples) && Representable(ty, samples) && j < w
    ensures Wrap(ty, Delta(raw, ty, 0, w, j) - (samples[j] - (if j == 0 then 0 else samples[j - 1]))) == 0
  {
    var prev := if j == 0 then 0 else samples[j - 1];
    assert EncodesAt(raw, ty, w, samples, j);
    assert 0 <= samples[j] < Modulus(ty) && 0 <= prev < Modulus(ty);
    if ty == 1 {
      DeltaOfEncodedHalf(raw, w, samples[j], prev, j);
    } else {
      assert prev % 256 == 0 && samples[j] % 256 == 0;
      DeltaOfEncodedFloat(raw, w, samples[j], prev, j);
    }
  }

  lemma DeltaOfEncodedHalf(raw: seq<Byte>, w: nat, s: int, prev: int, j: nat)
    requires j < w && |raw| == 2 * w
    requires raw[j] == Wrap(1, s - prev) / 256 && raw[w + j] == Wrap(1, s - prev) % 256
    ensures Wrap(1, Delta(raw, 1, 0, w, j) - (s - prev)) == 0
  {
    var d := (s - prev) % 0x1_0000;
    assert Delta(raw, 1, 0, w, j) == raw[j] as int * 256 + raw[w + j] as int == d;
  }

  lemma DeltaOfEncodedFloat(raw: seq<Byte>, w: nat, s: int, prev: int, j: nat)
    requires j < w && |raw| == 3 * w && s % 256 == 0 && prev % 256 == 0
    requires var d := Wrap(2, s - prev);
      raw[j] == d / 0x100_0000 && raw[w + j] == d / 0x1_0000 % 256 && raw[2 * w + j] == d / 256 % 256
    ensures Wrap(2, Delta(raw, 2, 0, w, j) - (s - prev)) == 0
  {
    var d := (s - prev) % TWO32;
    WrappedMultiple(s, prev);
    ThreeBytes(d);
    var x := raw[j] as int * 0x100_0000 + raw[w + j] as int * 0x1_0000 + raw[2 * w + j] as int * 256;
    assert x == d;
    assert ToInt32(d) == Delta(raw, 2, 0, w, j);
    Congruent32(ToInt32(d), d, s - prev);
  }

  /** The difference of two multiples of 256, wrapped to 32 bits, is one too. */
  lemma WrappedMultiple(a: int, b: int)
    requires a % 256 == 0 && b % 256 == 0
    ensures 0 <= (a - b) % TWO32 < TWO32 && ((a - b) % TWO32) % 256 == 0
  {
    var e := a - b;
    assert e == 256 * (a / 256 - b / 256);
    var d := e % TWO32;
    assert d == e - TWO32 * (e / TWO32);
    assert d == 256 * (a / 256 - b / 256 - 0x100_0000 * (e / TWO32));
  }

  lemma Congruent32(a: int, b: int, c: int)
    requires (a - b) % TWO32 == 0 && (b - c) % TWO32 == 0
    ensures (a - c) % TWO32 == 0
  {
    assert a - b == TWO32 * ((a - b) / TWO32);
    assert b - c == TWO32 * ((b - c) / TWO32);
    assert a - c == TWO32 * ((a - b) / TWO32 + (b - c) / TWO32);
  }

  lemma ThreeBytes(d: int)
    requires 0 <= d < TWO32 && d % 256 == 0
    ensures d / 0x100_0000 * 0x100_0000 + d / 0x1_0000 % 256 * 0x1_0000 + d / 256 % 256 * 256 == d
  {
    var a := d / 256;
    assert d == 256 * a;
    assert d / 0x1_0000 == a / 256;
    assert d / 0x100_0000 == a / 0x1_0000;
    assert a == a / 256 * 256 + a % 256;
    assert a / 256 == a / 0x1_0000 * 256 + a / 256 % 256;
  }

  /** Adding a difference congruent to samples[j] - samples[j - 1] carries a
      sum congruent to samples[j - 1] to one whose stored value is samples[j]. */
  lemma StepCongruent(pixel: int, prev: int, delta: int, s: int, ty: int)
    requires ty == 1 || ty == 2
    requires 0 <= s < Modulus(ty)
    requires Wrap(ty, pixel - prev) == 0 && Wrap(ty, delta - (s - prev)) == 0
    ensures Wrap(ty, (pixel + delta) - s) == 0 && Wrap(ty, pixel + delta) == s
  {
    if ty == 1 {
      StepHalf(pixel, prev, delta, s);
    } else {
      StepFloat(pixel, prev, delta, s);
    }
  }

  lemma StepHalf(pixel: int, prev: int, delta: int, s: int)
    requires 0 <= s < 0x1_0000
    requires (pixel - prev) % 0x1_0000 == 0 && (delta - (s - prev)) % 0x1_0000 == 0
    ensures (pixel + delta - s) % 0x1_0000 == 0 && (pixel + delta) % 0x1_0000 == s
  {
    var k1 := (pixel - prev) / 0x1_0000;
    var k2 := (delta - (s - prev)) / 0x1_0000;
    assert pixel - prev == 0x1_0000 * k1;
    assert delta - (s - prev) == 0x1_0000 * k2;
    assert pixel + delta - s == 0x1_0000 * (k1 + k2);
  }

  lemma StepFloat(pixel: int, prev: int, delta: int, s: int)
    requires 0 <= s < TWO32
    requires (pixel - prev) % TWO32 == 0 && (delta - (s - prev)) % TWO32 == 0
    ensures (pixel + delta - s) % TWO32 == 0 && (pixel + delta) % TWO32 == s
  {
    var k1 := (pixel - prev) / TWO32;
    var k2 := (delta - (s - prev)) / TWO32;
    assert pixel - prev == TWO32 * k1;
    assert delta - (s - prev) == TWO32 * k2;
    assert pixel + delta - s == TWO32 * (k1 + k2);
  }

  lemma {:induction false} RunFromEncoded(raw: seq<Byte>, ty: int, w: nat, samples: seq<int>, j: nat, pixel: int)
    requires ty == 1 || ty == 2
    requires EncodesRun(raw, ty, w, samples) && Representable(ty, samples) && j <= w
    requires Wrap(ty, pixel - (if j == 0 then 0 else samples[j - 1])) == 0
    ensures RunFrom(raw, ty, 0, w, j, pixel) == samples[j..]
    decreases w - j
  {
    if j < w {
      DeltaOfEncoded(raw, ty, w, samples, j);
      var prev := if j == 0 then 0 else samples[j - 1];
      var p := pixel + Delta(raw, ty, 0, w, j);
      StepCongruent(pixel, prev, Delta(raw, ty, 0, w, j), samples[j], ty);
      RunFromEncoded(raw, ty, w, samples, j + 1, p);
      assert samples[j..] == [samples[j]] + samples[j + 1..];
    }
  }

  /** PXR24 decoding inverts the encoding of a run: the decoded run is the
      samples the encoder started from. */
  lemma RunRoundTrip(raw: seq<Byte>, ty: int, w: nat, samples: seq<int>)
    requires ty == 1 || ty == 2
    requires EncodesRun(raw, ty, w, samples) && Representable(ty, samples)
    ensures RunFrom(raw, ty, 0, w, 0, 0) == samples
  {
    RunFromEncoded(raw, ty, w, samples, 0, 0);
  }

  /** uncompressPXR: the clamped slice through zlib inflate (a parameter of
      the model), then the samples as the little-endian bytes of the typed
      array. */
  function UncompressPxr(inflate: seq<Byte> -> Option<seq<Byte>>, file: seq<Byte>, offset: nat, size: nat,
                         ty: int, lines: int, channels: nat, w: int): (r: Result<seq<Byte>>)
    ensures inflate(Slice(file, offset, offset + size)).None? ==> r == Err(InflateFailed)
    ensures r.Ok? ==> PxrSamples(inflate(Slice(file, offset, offset + size)).value, ty, lines, channels, w).Ok?
    ensures r.Ok? ==> |r.value| == (if ty == 1 then 2 else 4) * (lines * channels * w)
  {
    match inflate(Slice(file, offset, offset + size))
    case None => Err(InflateFailed)
    case Some(raw) =>
      var samples :- PxrSamples(raw, ty, lines, channels, w);
      Ok(Flatten(samples, if ty == 1 then 2 else 4))
  }
}
