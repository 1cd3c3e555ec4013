/** The byte-level codecs of the RLE and ZIP compressions: the run-length
    decoder, the predictor that undoes byte differencing, and the interleave
    that puts the two byte halves of every 16-bit sample back together.
    The zlib inflate of ZIP is a parameter of the model. */
module Scanline {
  import opened Common
  import opened Readers

  // ------------------------------------------------------------ run lengths

  /** DataView.getInt8 of a byte. */
  function Int8(b: Byte): (r: int)
    ensures -128 <= r < 128 && (r - b) % 256 == 0
  {
    if b >= 128 then b - 256 else b
  }

  /** decodeRunLength from position p, where the remaining size is always
      |src| - p: a negative control byte -k is followed by k literal bytes, a
      control byte k >= 0 by one byte emitted k + 1 times. A read past the
      end raises a RangeError. */
  function RunLengthFrom(src: seq<Byte>, p: nat): (r: Result<seq<Byte>>)
    decreases |src| - p
  {
    if p >= |src| then Ok([])
    else
      var l := Int8(src[p]);
      if l < 0 then
        if p + 1 - l > |src| then Err(RangeError)
        else
          var rest :- RunLengthFrom(src, p + 1 - l);
          Ok(src[p + 1 .. p + 1 - l] + rest)
      else if p + 2 > |src| then Err(RangeError)
      else
        var rest :- RunLengthFrom(src, p + 2);
        Ok(Copies(src[p + 1], l + 1) + rest)
  }

  /** decodeRunLength: fails only by reading past the end, and a run of at
      most 128 copies needs two bytes, so no byte expands to more than 64. */
  function RunLength(src: seq<Byte>): (r: Result<seq<Byte>>)
    ensures r.Err? ==> r.error == RangeError
    ensures r.Ok? ==> |r.value| <= 64 * |src|
  {
    RunLengthBound(src, 0);
    RunLengthFrom(src, 0)
  }

  /** Decoding from p fails only with a RangeError, and expands each byte
      from p on to at most 64. */
  lemma {:induction false} RunLengthBound(src: seq<Byte>, p: nat)
    ensures RunLengthFrom(src, p).Err? ==> RunLengthFrom(src, p).error == RangeError
    ensures RunLengthFrom(src, p).Ok? && p <= |src| ==> |RunLengthFrom(src, p).value| <= 64 * (|src| - p)
    decreases |src| - p
  {
    if p < |src| {
      var l := Int8(src[p]);
      if l < 0 && p + 1 - l <= |src| {
        RunLengthBound(src, p + 1 - l);
      } else if l >= 0 && p + 2 <= |src| {
        RunLengthBound(src, p + 2);
      }
    }
  }

  /** `out` followed by the bytes of r, or r's failure. */
  function Then(out: seq<Byte>, r: Result<seq<Byte>>): Result<seq<Byte>>
  {
    if r.Ok? then Ok(out + r.value) else r
  }

  /** The loop of decodeRunLength. */
  method DecodeRunLength(src: seq<Byte>) returns (r: Result<seq<Byte>>)
    ensures r == RunLength(src)
  {
    var size: int := |src|;
    var out: seq<Byte> := [];
    var p: nat := 0;
    ThenEmpty(RunLengthFrom(src, 0));
    while size > 0
      invariant p + size == |src|
      invariant RunLength(src) == Then(out, RunLengthFrom(src, p))
      decreases size
    {
      ghost var p0 := p;
      ghost var out0 := out;
      var l := Int8(src[p]);
      p := p + 1;
      if l < 0 {
        var count := -l;
        size := size - (count + 1);
        var i := 0;
        while i < count
          invariant 0 <= i <= count && p == p0 + 1 + i <= |src|
          invariant out == out0 + src[p0 + 1 .. p]
        {
          if p >= |src| {
            assert RunLengthFrom(src, p0) == Err(RangeError);
            return Err(RangeError);
          }
          out := out + [src[p]];
          p := p + 1;
          i := i + 1;
          assert src[p0 + 1 .. p] == src[p0 + 1 .. p - 1] + [src[p - 1]];
        }
        ThenAppend(out0, src[p0 + 1 .. p], RunLengthFrom(src, p));
      } else {
        var count := l;
        size := size - 2;
        if p >= |src| {
          assert RunLengthFrom(src, p0) == Err(RangeError);
          return Err(RangeError);
        }
        var value := src[p];
        p := p + 1;
        out := out + Copies(value, count + 1);
        ThenAppend(out0, Copies(value, count + 1), RunLengthFrom(src, p));
      }
    }
    assert RunLengthFrom(src, p) == Ok([]);
    assert out + [] == out;
    r := Ok(out);
  }

  lemma ThenEmpty(r: Result<seq<Byte>>)
    ensures Then([], r) == r
  {
    if r.Ok? {
      assert [] + r.value == r.value;
    }
  }

  lemma ThenAppend(a: seq<Byte>, b: seq<Byte>, r: Result<seq<Byte>>)
    ensures Then(a, Then(b, r)) == Then(a + b, r)
  {
    if r.Ok? {
      assert a + (b + r.value) == (a + b) + r.value;
    }
  }

  /** One unit of a run-length encoding, as an encoder would emit it. */
  datatype Chunk = Literal(bytes: seq<Byte>) | Run(count: nat, value: Byte)

  /** The encodable chunks: 1 to 128 literal bytes, a run of 1 to 128 copies. */
  predicate ValidChunk(c: Chunk)
  {
    match c
    case Literal(bytes) => 1 <= |bytes| <= 128
    case Run(count, _) => 1 <= count <= 128
  }

  function EncodeChunk(c: Chunk): (r: seq<Byte>)
    requires ValidChunk(c)
  {
    match c
    case Literal(bytes) => [256 - |bytes|] + bytes
    case Run(count, value) => [count - 1, value]
  }

  function ExpandChunk(c: Chunk): seq<Byte>
  {
    match c
    case Literal(bytes) => bytes
    case Run(count, value) => Copies(value, count)
  }

  function Encode(cs: seq<Chunk>): seq<Byte>
    requires forall i :: 0 <= i < |cs| ==> ValidChunk(cs[i])
  {
    if cs == [] then [] else EncodeChunk(cs[0]) + Encode(cs[1..])
  }

  function Expand(cs: seq<Chunk>): seq<Byte>
  {
    if cs == [] then [] else ExpandChunk(cs[0]) + Expand(cs[1..])
  }

  /** Decoding does not look at the bytes before its start. */
  lemma {:induction false} RunLengthSuffix(pre: seq<Byte>, s: seq<Byte>, p: nat)
    ensures RunLengthFrom(pre + s, |pre| + p) == RunLengthFrom(s, p)
    decreases |s| - p
  {
    var t := pre + s;
    if p < |s| {
      assert t[|pre| + p] == s[p];
      var l := Int8(s[p]);
      if l < 0 {
        if p + 1 - l <= |s| {
          RunLengthSuffix(pre, s, p + 1 - l);
          assert t[|pre| + p + 1 .. |pre| + p + 1 - l] == s[p + 1 .. p + 1 - l];
        }
      } else if p + 2 <= |s| {
        assert t[|pre| + p + 1] == s[p + 1];
        RunLengthSuffix(pre, s, p + 2);
      }
    }
  }

  /** A chunk decodes to its expansion, whatever follows it. */
  lemma ChunkRoundTrip(c: Chunk, rest: seq<Byte>)
    requires ValidChunk(c)
    ensures RunLength(EncodeChunk(c) + rest) == Then(ExpandChunk(c), RunLength(rest))
  {
    var e := EncodeChunk(c);
    var t := e + rest;
    assert RunLengthFrom(t, |e|) == RunLength(rest) by {
      RunLengthSuffix(e, rest, 0);
    }
    match c
    case Literal(bytes) =>
      assert RunLength(t) == Then(bytes, RunLengthFrom(t, |e|)) by {
        assert t[0] == e[0];
        assert Int8(e[0]) == -|bytes|;
        assert t[1 .. 1 + |bytes|] == bytes;
      }
    case Run(count, value) =>
      assert RunLength(t) == Then(Copies(value, count), RunLengthFrom(t, |e|)) by {
        assert t[0] == e[0];
        assert Int8(e[0]) == count - 1;
        assert t[1] == value;
      }
  }

  /** The run-length decoder inverts the encoding of any valid chunk list:
      the output is the concatenated expansions, so its length is the sum of
      the literal and repeat counts. */
  lemma {:induction false} RunLengthRoundTrip(cs: seq<Chunk>)
    requires forall i :: 0 <= i < |cs| ==> ValidChunk(cs[i])
    ensures RunLength(Encode(cs)) == Ok(Expand(cs))
  {
    if cs == [] {
    } else {
      RunLengthRoundTrip(cs[1..]);
      ChunkRoundTrip(cs[0], Encode(cs[1..]));
    }
  }

  // -------------------------------------------------------------- predictor

  /** One step of the predictor: the previous output plus the input minus
      128, stored modulo 256 by the Uint8Array. */
  function Undiff(prev: Byte, d: Byte): Byte
  {
    (prev as int + d as int - 128) % 256
  }

  /** One step of the differencing an encoder applies. */
  function Diff(prev: Byte, x: Byte): Byte
  {
    (x as int - prev as int + 128) % 256
  }

  lemma UndiffDiff(prev: Byte, x: Byte)
    ensures Undiff(prev, Diff(prev, x)) == x
    ensures Diff(prev, Undiff(prev, x)) == x
  {
    var k := x as int - prev as int + 128;
    Mod256(k);
    Mod256(prev as int + Diff(prev, x) as int - 128);
    var m := prev as int + x as int - 128;
    Mod256(m);
    Mod256(Undiff(prev, x) as int - prev as int + 128);
  }

  /** Reduction modulo 256 of a value within one period either side. */
  lemma Mod256(k: int)
    requires -256 <= k < 512
    ensures k % 256 == if k < 0 then k + 256 else if k < 256 then k else k - 256
  {
  }

  /** The predictor over s once the output before it is prev. */
  function PredictFrom(prev: Byte, s: seq<Byte>): (r: seq<Byte>)
    ensures |r| == |s|
    decreases |s|
  {
    if s == [] then [] else
      var x := Undiff(prev, s[0]);
      [x] + PredictFrom(x, s[1..])
  }

  /** The predictor's output: byte 0 is kept, each later byte is undone
      from the output before it. */
  function Predicted(s: seq<Byte>): (r: seq<Byte>)
    ensures |r| == |s|
  {
    if s == [] then [] else [s[0]] + PredictFrom(s[0], s[1..])
  }

  function DiffFrom(prev: Byte, r: seq<Byte>): (s: seq<Byte>)
    ensures |s| == |r|
    decreases |r|
  {
    if r == [] then [] else [Diff(prev, r[0])] + DiffFrom(r[0], r[1..])
  }

  /** The differencing an encoder applies, which the predictor undoes. */
  function Differenced(r: seq<Byte>): (s: seq<Byte>)
    ensures |s| == |r|
  {
    if r == [] then [] else [r[0]] + DiffFrom(r[0], r[1..])
  }

  lemma {:induction false} PredictFromAt(prev: Byte, s: seq<Byte>, t: nat)
    requires t < |s|
    ensures PredictFrom(prev, s)[t] == Undiff(if t == 0 then prev else PredictFrom(prev, s)[t - 1], s[t])
    decreases t
  {
    if t > 0 {
      var x := Undiff(prev, s[0]);
      PredictFromAt(x, s[1..], t - 1);
    }
  }

  /** Byte 0 is kept and each later byte is the previous output plus the
      input minus 128, modulo 256. */
  lemma PredictedAt(s: seq<Byte>, t: nat)
    requires 1 <= t < |s|
    ensures Predicted(s)[0] == s[0]
    ensures Predicted(s)[t] == (Predicted(s)[t - 1] as int + s[t] as int - 128) % 256
  {
    PredictFromAt(s[0], s[1..], t - 1);
  }

  lemma {:induction false} PredictFromDiffFrom(prev: Byte, r: seq<Byte>)
    ensures PredictFrom(prev, DiffFrom(prev, r)) == r
    ensures DiffFrom(prev, PredictFrom(prev, r)) == r
    decreases |r|
  {
    if r != [] {
      UndiffDiff(prev, r[0]);
      PredictFromDiffFrom(r[0], r[1..]);
      PredictFromDiffFrom(Undiff(prev, r[0]), r[1..]);
      assert DiffFrom(prev, r)[1..] == DiffFrom(r[0], r[1..]);
      assert PredictFrom(prev, r)[1..] == PredictFrom(Undiff(prev, r[0]), r[1..]);
    }
  }

  /** The predictor undoes the differencing, and the differencing the
      predictor. */
  lemma PredictedDifferenced(r: seq<Byte>)
    ensures Predicted(Differenced(r)) == r
    ensures Differenced(Predicted(r)) == r
  {
    if r != [] {
      PredictFromDiffFrom(r[0], r[1..]);
      assert Differenced(r)[1..] == DiffFrom(r[0], r[1..]);
      assert Predicted(r)[1..] == PredictFrom(r[0], r[1..]);
    }
  }

  /** predictor, in place. */
  method Predictor(a: array<Byte>)
    modifies a
    ensures a[..] == Predicted(old(a[..]))
  {
    ghost var s := a[..];
    if a.Length > 0 {
      assert Predicted(s) == a[..1] + PredictFrom(a[0], s[1..]);
    }
    var t := 1;
    while t < a.Length
      invariant 1 <= t && (t <= a.Length || a.Length == 0)
      invariant a.Length == 0 || a[..t] + PredictFrom(a[t - 1], s[t..]) == Predicted(s)
      invariant a.Length == 0 || a[t..] == s[t..]
    {
      t := PredictorStep(a, t, s);
    }
    if a.Length > 0 {
      assert a[..] == a[..t];
    }
  }

  /** One pass of the predictor loop: byte t is undone from byte t - 1. */
  method PredictorStep(a: array<Byte>, t: nat, ghost s: seq<Byte>) returns (next: nat)
    requires 1 <= t < a.Length == |s|
    requires a[..t] + PredictFrom(a[t - 1], s[t..]) == Predicted(s) && a[t..] == s[t..]
    modifies a
    ensures next == t + 1
    ensures a[..next] + PredictFrom(a[next - 1], s[next..]) == Predicted(s) && a[next..] == s[next..]
  {
    var prev := a[t - 1];
    var d := Undiff(prev, a[t]);
    next := t + 1;
    ghost var done := a[..t];
    ghost var rest := s[t..];
    assert rest[0] == a[t] && rest[1..] == s[next..];
    assert done + PredictFrom(prev, rest) == Predicted(s);
    Concat3(done, [d], PredictFrom(d, s[next..]));
    a[t] := d;
    assert a[..next] == done + [d];
    assert a[next..] == s[next..];
  }

  lemma Concat3<T>(x: seq<T>, y: seq<T>, z: seq<T>)
    ensures x + y + z == x + (y + z)
  {
  }

  // ------------------------------------------------------------- interleave

  /** Output position i of the interleave: the first half of the bytes
      (rounded up) go to the even positions, the second half to the odd ones. */
  function InterleavedAt(s: seq<Byte>, i: nat): (b: Byte)
    requires i < |s|
  {
    var h := (|s| + 1) / 2;
    if i % 2 == 0 then s[i / 2] else s[h + i / 2]
  }

  function Interleaved(s: seq<Byte>): (r: seq<Byte>)
    ensures |r| == |s|
  {
    seq(|s|, i requires 0 <= i < |s| => InterleavedAt(s, i))
  }

  /** The split into the two halves an encoder makes. */
  function Deinterleaved(r: seq<Byte>): (s: seq<Byte>)
    ensures |s| == |r|
  {
    var h := (|r| + 1) / 2;
    seq(|r|, k requires 0 <= k < |r| => if k < h then r[2 * k] else r[2 * (k - h) + 1])
  }

  /** The split undoes the interleave ... */
  lemma DeinterleavedInterleaved(s: seq<Byte>)
    ensures Deinterleaved(Interleaved(s)) == s
  {
    var n := |s|;
    var h := (n + 1) / 2;
    var r := Interleaved(s);
    var d := Deinterleaved(r);
    forall k | 0 <= k < n
      ensures d[k] == s[k]
    {
      if k < h {
        assert 2 * k < n && (2 * k) % 2 == 0 && (2 * k) / 2 == k;
        assert d[k] == r[2 * k] == InterleavedAt(s, 2 * k);
      } else {
        var i := 2 * (k - h) + 1;
        assert i < n && i % 2 == 1 && i / 2 == k - h;
        assert d[k] == r[i] == InterleavedAt(s, i);
      }
    }
  }

  /** ... and the interleave undoes the split. */
  lemma InterleavedDeinterleaved(r: seq<Byte>)
    ensures Interleaved(Deinterleaved(r)) == r
  {
    var n := |r|;
    var h := (n + 1) / 2;
    var d := Deinterleaved(r);
    var w := Interleaved(d);
    forall i | 0 <= i < n
      ensures w[i] == r[i]
    {
      assert w[i] == InterleavedAt(d, i);
      if i % 2 == 0 {
        assert i / 2 < h && 2 * (i / 2) == i;
      } else {
        assert h <= h + i / 2 < n && 2 * (h + i / 2 - h) + 1 == i;
      }
    }
  }

  /** Alternating merge of two near-equal halves. */
  function Weave(a: seq<Byte>, b: seq<Byte>): (r: seq<Byte>)
    requires |b| <= |a| <= |b| + 1
    ensures |r| == |a| + |b|
    decreases |a| + |b|
  {
    if a == [] then [] else [a[0]] + Weave(b, a[1..])
  }

  lemma {:induction false} WeaveAt(a: seq<Byte>, b: seq<Byte>, i: nat)
    requires |b| <= |a| <= |b| + 1 && i < |a| + |b|
    ensures Weave(a, b)[i] == if i % 2 == 0 then a[i / 2] else b[i / 2]
    decreases |a| + |b|
  {
    var w := Weave(a, b);
    assert w == [a[0]] + Weave(b, a[1..]);
    if i > 0 {
      WeaveAt(b, a[1..], i - 1);
      assert w[i] == Weave(b, a[1..])[i - 1];
      if i % 2 == 0 {
        assert (i - 1) % 2 == 1 && (i - 1) / 2 + 1 == i / 2;
      } else {
        assert (i - 1) % 2 == 0 && (i - 1) / 2 == i / 2;
      }
    }
  }

  lemma {:induction false} WeaveMultiset(a: seq<Byte>, b: seq<Byte>)
    requires |b| <= |a| <= |b| + 1
    ensures multiset(Weave(a, b)) == multiset(a) + multiset(b)
    decreases |a| + |b|
  {
    if a != [] {
      WeaveMultiset(b, a[1..]);
      assert a == [a[0]] + a[1..];
    }
  }

  /** ... and the interleave keeps every byte: it is a permutation. */
  lemma InterleavedPermutes(s: seq<Byte>)
    ensures multiset(Interleaved(s)) == multiset(s)
  {
    var h := (|s| + 1) / 2;
    var a, b := s[..h], s[h..];
    forall i | 0 <= i < |s|
      ensures Interleaved(s)[i] == Weave(a, b)[i]
    {
      WeaveAt(a, b, i);
    }
    assert Interleaved(s) == Weave(a, b);
    WeaveMultiset(a, b);
    assert s == a + b;
  }

  /** The first k bytes of out are those of the interleave of src. */
  predicate InterleavedUpTo(out: seq<Byte>, src: seq<Byte>, k: nat)
  {
    |out| == |src| && k <= |out| && forall i :: 0 <= i < k ==> out[i] == InterleavedAt(src, i)
  }

  lemma InterleavedUpToStep(out: seq<Byte>, src: seq<Byte>, k: nat)
    requires k < |out| && InterleavedUpTo(out, src, k)
    ensures InterleavedUpTo(out[k := InterleavedAt(src, k)], src, k + 1)
  {
  }

  lemma InterleavedUpToAll(out: seq<Byte>, src: seq<Byte>)
    requires InterleavedUpTo(out, src, |src|)
    ensures out == Interleaved(src)
  {
  }

  /** interleaveScalar of the parser, into a fresh array of the same length. */
  method InterleaveScalar(source: array<Byte>, out: array<Byte>)
    requires source != out && out.Length == source.Length
    modifies out
    ensures out[..] == Interleaved(source[..])
  {
    ghost var src := source[..];
    var n := source.Length;
    var h := (n + 1) / 2;
    var t1 := 0;
    var t2 := h;
    var s := 0;
    var stop := n - 1;
    while true
      invariant 0 <= s <= n && s % 2 == 0 && t1 == s / 2 && t2 == h + s / 2
      invariant InterleavedUpTo(out[..], src, s)
      decreases n - s
    {
      if s > stop { break; }
      InterleavedUpToStep(out[..], src, s);
      out[s] := source[t1];
      s := s + 1;
      t1 := t1 + 1;
      if s > stop { break; }
      InterleavedUpToStep(out[..], src, s);
      out[s] := source[t2];
      s := s + 1;
      t2 := t2 + 1;
    }
    InterleavedUpToAll(out[..], src);
  }

  // ------------------------------------------------------------ pipelines

  /** The bytes after the predictor and the interleave of either loader: the
      port's output buffer stays all zero. */
  function Reordered(v: Variant, raw: seq<Byte>): (r: seq<Byte>)
    ensures |r| == |raw|
  {
    match v
    case Parser => Interleaved(Predicted(raw))
    case Port => Copies(0, |raw|)
  }

  /** The predictor and interleave of uncompressRLE and uncompressZIP, run
      over arrays as the loaders do. */
  method Reorder(v: Variant, raw: seq<Byte>) returns (r: seq<Byte>)
    ensures r == Reordered(v, raw)
  {
    var rawBuffer := new Byte[|raw|](i requires 0 <= i < |raw| => raw[i]);
    var tmpBuffer := new Byte[|raw|](_ => 0);
    assert rawBuffer[..] == raw;
    assert tmpBuffer[..] == Copies(0, |raw|);
    Predictor(rawBuffer);
    if v == Parser {
      InterleaveScalar(rawBuffer, tmpBuffer);
    }
    // The port's interleaveScalar loops `while (s > stop)`, which is false from
    // the start on non-empty input, and its body opens with `if (s > stop)
    // break;`: it never writes, and tmpBuffer keeps its zeros.
    r := tmpBuffer[..];
  }

  /** uncompressRLE: the block's bytes (the slice clamped to the file),
      run-length decoded and reordered. */
  function UncompressRle(v: Variant, file: seq<Byte>, offset: nat, size: nat): (r: Result<seq<Byte>>)
    ensures r.Ok? ==> RunLength(Slice(file, offset, offset + size)).Ok?
    ensures r.Ok? ==> r.value == Reordered(v, RunLength(Slice(file, offset, offset + size)).value)
  {
    var raw :- RunLength(Slice(file, offset, offset + size));
    Ok(Reordered(v, raw))
  }

  /** uncompressZIP: the clamped slice through zlib inflate (a parameter of
      the model), then reordered. */
  function UncompressZip(v: Variant, inflate: seq<Byte> -> Option<seq<Byte>>, file: seq<Byte>, offset: nat, size: nat): (r: Result<seq<Byte>>)
    ensures inflate(Slice(file, offset, offset + size)).None? ==> r == Err(InflateFailed)
    ensures r.Ok? ==> |r.value| == |inflate(Slice(file, offset, offset + size)).value|
  {
    match inflate(Slice(file, offset, offset + size))
    case None => Err(InflateFailed)
    case Some(raw) => Ok(Reordered(v, raw))
  }
}
