/** The range compression of PIZ. A writer keeps a bitmap of the 16-bit
    values that occur and replaces each value by its rank among them; the
    decoder reads the bitmap, builds the reverse table (rank to value) with
    reverseLutFromBitmap, and applyLut maps the decoded ranks back. */
module PizLut {
  import opened Common
  import opened Readers

  /** BITMAP_SIZE: one bit for each of the USHORT_RANGE values. */
  const BitmapSize: int := 8192
  const UShortRange: int := 65536

  // ------------------------------------------------------------- the bitmap

  /** The bitmap bytes minNonZero .. maxNonZero follow the two 16-bit bounds;
      the other bytes of the fresh Uint8Array stay 0. A maximum of
      BITMAP_SIZE or more is refused; a minimum above the maximum reads no
      byte; a byte read past the end is a RangeError. */
  function ReadBitmap(buf: seq<Byte>, pos: nat): (r: Result<Read<seq<int>>>)
    ensures r.Ok? ==> |r.value.value| == BitmapSize
  {
    var lo :- ReadU16(buf, pos);
    var hi :- ReadU16(buf, lo.next);
    if hi.value >= BitmapSize then Err(PizBitmapSize)
    else if lo.value > hi.value then Ok(Read(Zeros(BitmapSize), hi.next))
    else
      var count := hi.value - lo.value + 1;
      if hi.next + count > |buf| then Err(RangeError)
      else Ok(Read(Overwrite(Zeros(BitmapSize), lo.value, buf[hi.next..hi.next + count]), hi.next + count))
  }

  /** A bitmap that claims values from 65536 on (maxNonZero >= BITMAP_SIZE)
      is refused once both bounds are read. */
  lemma BitmapTooLarge(buf: seq<Byte>, pos: nat)
    requires pos + 4 <= |buf| && buf[pos + 2] as int + 256 * buf[pos + 3] as int >= BitmapSize
    ensures ReadBitmap(buf, pos) == Err(PizBitmapSize)
  {
  }

  /** A read bitmap holds the bytes of the file in its range minNonZero ..
      maxNonZero and zeros elsewhere, and the cursor moves past them. */
  lemma BitmapHolds(buf: seq<Byte>, pos: nat, i: int)
    requires ReadBitmap(buf, pos).Ok? && 0 <= i < BitmapSize
    ensures var lo := buf[pos] as int + 256 * buf[pos + 1] as int;
      var hi := buf[pos + 2] as int + 256 * buf[pos + 3] as int;
      var bm := ReadBitmap(buf, pos).value;
      && hi < BitmapSize
      && (lo <= i <= hi ==> bm.value[i] == buf[pos + 4 + i - lo])
      && (!(lo <= i <= hi) ==> bm.value[i] == 0)
      && bm.next == pos + 4 + (if lo <= hi then hi - lo + 1 else 0)
  {
  }

  /** The bitmap loop `bitmap[i + minNonZero] = parseUint8(...)` into the
      fresh bitmap; returns the cursor. */
  method ReadBitmapM(buf: seq<Byte>, pos: nat, bitmap: array<Byte>) returns (r: Result<nat>)
    requires bitmap.Length == BitmapSize && bitmap[..] == Zeros(BitmapSize)
    modifies bitmap
    ensures r.Ok? == ReadBitmap(buf, pos).Ok?
    ensures r.Err? ==> r.error == ReadBitmap(buf, pos).error
    ensures r.Ok? ==> r.value == ReadBitmap(buf, pos).value.next && bitmap[..] == ReadBitmap(buf, pos).value.value
  {
    var lo := ReadU16(buf, pos);
    if lo.Err? {
      return Err(lo.error);
    }
    var hi := ReadU16(buf, lo.value.next);
    if hi.Err? {
      return Err(hi.error);
    }
    var minNonZero, maxNonZero := lo.value.value, hi.value.value;
    if maxNonZero >= BitmapSize {
      return Err(PizBitmapSize);
    }
    r := Ok(hi.value.next);
    if minNonZero <= maxNonZero {
      r := ReadRange(buf, hi.value.next, minNonZero, maxNonZero - minNonZero + 1, bitmap);
    }
  }

  /** `for (i = 0; i < count; i++) bitmap[i + lo] = parseUint8(...)` from
      cursor p0 into the fresh bitmap. */
  method ReadRange(buf: seq<Byte>, p0: nat, lo: nat, count: nat, bitmap: array<Byte>) returns (r: Result<nat>)
    requires p0 <= |buf| && lo + count <= bitmap.Length && bitmap[..] == Zeros(bitmap.Length)
    modifies bitmap
    ensures r.Ok? <==> p0 + count <= |buf|
    ensures r.Err? ==> r.error == RangeError
    ensures r.Ok? ==> r.value == p0 + count && bitmap[..] == Overwrite(Zeros(bitmap.Length), lo, buf[p0..p0 + count])
  {
    var p := p0;
    var i := 0;
    while i < count
      invariant 0 <= i <= count && p == p0 + i <= |buf|
      invariant forall j :: 0 <= j < bitmap.Length ==> bitmap[j] == if lo <= j < lo + i then buf[p0 + j - lo] else 0
    {
      var b := ReadU8(buf, p);
      if b.Err? {
        return Err(b.error);
      }
      bitmap[i + lo] := b.value.value;
      p := b.value.next;
      i := i + 1;
    }
    assert bitmap[..] == Overwrite(Zeros(bitmap.Length), lo, buf[p0..p]);
    r := Ok(p);
  }

  // ---------------------------------------------------- the reverse table

  /** `b & (1 << k)` is non-zero, for a byte b and 0 <= k < 8. */
  predicate Bit(b: int, k: nat)
  {
    (b / Pow2(k)) % 2 == 1
  }

  /** Value i is in the table: 0 always, any other when its bit is set. */
  predicate Keeps(bm: seq<int>, i: int)
    requires |bm| == BitmapSize && 0 <= i < UShortRange
  {
    i == 0 || Bit(bm[i / 8], i % 8)
  }

  /** The values below i that the table keeps, in increasing order. */
  function KeptBelow(bm: seq<int>, i: nat): (r: seq<U16>)
    requires |bm| == BitmapSize && i <= UShortRange
    ensures |r| <= i
    ensures i > 0 ==> |r| > 0 && r[0] == 0
    ensures forall k :: 0 <= k < |r| ==> r[k] < i
    ensures forall k, l :: 0 <= k < l < |r| ==> r[k] < r[l]
    decreases i
  {
    if i == 0 then []
    else
      var r := KeptBelow(bm, i - 1);
      if Keeps(bm, i - 1) then r + [i - 1] else r
  }

  /** Every value of the range, kept or not. */
  function Kept(bm: seq<int>): (r: seq<U16>)
    requires |bm| == BitmapSize
  {
    KeptBelow(bm, UShortRange)
  }

  /** The table reverseLutFromBitmap leaves: the kept values in increasing
      order, then zeros. */
  function Lut(bm: seq<int>): (r: seq<U16>)
    requires |bm| == BitmapSize
    ensures |r| == UShortRange
  {
    Kept(bm) + Copies<U16>(0, UShortRange - |Kept(bm)|)
  }

  /** reverseLutFromBitmap's result: the number of kept values less one,
      the largest rank. */
  function MaxValue(bm: seq<int>): int
    requires |bm| == BitmapSize
  {
    |Kept(bm)| - 1
  }

  /** The kept values below i are exactly the values below i that 0 or a
      set bit admits. */
  lemma {:induction false} KeptExactly(bm: seq<int>, i: nat, v: int)
    requires |bm| == BitmapSize && i <= UShortRange && 0 <= v < i
    ensures v in KeptBelow(bm, i) <==> Keeps(bm, v)
    decreases i
  {
    if v < i - 1 {
      KeptExactly(bm, i - 1, v);
    }
  }

  /** The kept values below i start the kept values below any j >= i. */
  lemma {:induction false} KeptPrefix(bm: seq<int>, i: nat, j: nat)
    requires |bm| == BitmapSize && i <= j <= UShortRange
    ensures KeptBelow(bm, i) <= KeptBelow(bm, j)
    decreases j
  {
    if i < j {
      KeptPrefix(bm, i, j - 1);
      var r := KeptBelow(bm, j - 1);
      assert KeptBelow(bm, j) == r || KeptBelow(bm, j) == r + [j - 1];
    }
  }

  /** The table's shape: entries 0 .. MaxValue are the kept values in
      strictly increasing order starting with 0, each entry there is a
      value that 0 or a set bit admits and every such value appears; all
      later entries are 0. */
  lemma LutShape(bm: seq<int>)
    requires |bm| == BitmapSize
    ensures 0 <= MaxValue(bm) < UShortRange && Lut(bm)[0] == 0
    ensures forall k, l :: 0 <= k < l <= MaxValue(bm) ==> Lut(bm)[k] < Lut(bm)[l]
    ensures forall v :: 0 <= v < UShortRange ==> (Keeps(bm, v) <==> v in Lut(bm)[..MaxValue(bm) + 1])
    ensures forall k :: MaxValue(bm) < k < UShortRange ==> Lut(bm)[k] == 0
  {
    var kept := Kept(bm);
    assert Lut(bm)[..MaxValue(bm) + 1] == kept;
    forall v | 0 <= v < UShortRange
      ensures Keeps(bm, v) <==> v in kept
    {
      KeptExactly(bm, UShortRange, v);
    }
  }

  /** The position of a value in the table: how many kept values lie
      below it. */
  function Rank(bm: seq<int>, v: int): (k: nat)
    requires |bm| == BitmapSize && 0 <= v < UShortRange
    ensures k <= v
  {
    |KeptBelow(bm, v)|
  }

  /** A kept value sits at its rank, and its rank is at most MaxValue. */
  lemma RankFinds(bm: seq<int>, v: int)
    requires |bm| == BitmapSize && 0 <= v < UShortRange && Keeps(bm, v)
    ensures Rank(bm, v) <= MaxValue(bm) && Lut(bm)[Rank(bm, v)] == v
  {
    KeptPrefix(bm, v + 1, UShortRange);
    assert KeptBelow(bm, v + 1) == KeptBelow(bm, v) + [v];
  }

  /** The writer's forward table: each kept value to its rank (0 for a
      value that does not occur). */
  function ForwardLut(bm: seq<int>): (r: seq<U16>)
    requires |bm| == BitmapSize
    ensures |r| == UShortRange
  {
    seq(UShortRange, v requires 0 <= v < UShortRange => if Keeps(bm, v) then Rank(bm, v) else 0)
  }

  /** The forward table maps into 0 .. MaxValue, the range wav2Decode is
      told about. */
  lemma ForwardInRange(bm: seq<int>, v: int)
    requires |bm| == BitmapSize && 0 <= v < UShortRange
    ensures 0 <= ForwardLut(bm)[v] <= MaxValue(bm)
  {
    LutShape(bm);
    if Keeps(bm, v) {
      RankFinds(bm, v);
    }
  }

  // ------------------------------------------------------------ applyLut

  /** applyLut(lut, data, nData): each of the first nData values replaced by
      its table entry. Past the end of the typed array the JavaScript loop
      reads `undefined` and its stores are dropped. */
  function Applied(lut: seq<U16>, data: seq<U16>, n: int): (r: seq<U16>)
    requires |lut| == UShortRange
    ensures |r| == |data|
  {
    seq(|data|, i requires 0 <= i < |data| => if i < n then lut[data[i]] else data[i])
  }

  /** Mapping values that occur to their ranks and back through the reverse
      table gives them back. */
  lemma LutRoundTrip(bm: seq<int>, data: seq<U16>)
    requires |bm| == BitmapSize && forall i :: 0 <= i < |data| ==> Keeps(bm, data[i])
    ensures Applied(Lut(bm), Applied(ForwardLut(bm), data, |data|), |data|) == data
  {
    var ranks := Applied(ForwardLut(bm), data, |data|);
    forall i | 0 <= i < |data|
      ensures Lut(bm)[ranks[i]] == data[i]
    {
      RankFinds(bm, data[i]);
    }
  }

  /** reverseLutFromBitmap(bitmap, lut): the kept values into lut from
      index 0 on, then zeros to the end; returns their number less one. */
  method ReverseLutFromBitmap(bitmap: array<Byte>, lut: array<U16>) returns (n: int)
    requires bitmap.Length == BitmapSize && lut.Length == UShortRange
    modifies lut
    ensures lut[..] == Lut(bitmap[..]) && n == MaxValue(bitmap[..])
  {
    ghost var bm := bitmap[..];
    var k := 0;
    var i := 0;
    while i < UShortRange
      invariant 0 <= i <= UShortRange && bitmap[..] == bm
      invariant k == |KeptBelow(bm, i)| && lut[..k] == KeptBelow(bm, i)
    {
      if i == 0 || Bit(bitmap[i / 8], i % 8) {
        lut[k] := i;
        k := k + 1;
      }
      i := i + 1;
    }
    n := k - 1;
    FillZeros(lut, k);
  }

  /** `while (k < USHORT_RANGE) lut[k++] = 0`. */
  method FillZeros(lut: array<U16>, k0: int)
    requires 0 <= k0 <= lut.Length
    modifies lut
    ensures lut[..] == lut[..k0] + Copies<U16>(0, lut.Length - k0) && lut[..k0] == old(lut[..k0])
  {
    var k := k0;
    while k < lut.Length
      invariant k0 <= k <= lut.Length
      invariant lut[..k0] == old(lut[..k0])
      invariant forall j :: k0 <= j < k ==> lut[j] == 0
    {
      lut[k] := 0;
      k := k + 1;
    }
    assert lut[..] == lut[..k0] + Copies<U16>(0, lut.Length - k0);
  }

  /** applyLut(lut, data, nData). */
  method ApplyLut(lut: array<U16>, data: array<U16>, n: int)
    requires lut.Length == UShortRange && lut != data
    modifies data
    ensures data[..] == Applied(lut[..], old(data[..]), n)
  {
    ghost var table := lut[..];
    ghost var orig := data[..];
    var i := 0;
    while i < n && i < data.Length
      invariant 0 <= i <= data.Length && (i == 0 || i <= n)
      invariant forall j :: 0 <= j < data.Length ==> data[j] == if j < i then table[orig[j]] else orig[j]
    {
      data[i] := lut[data[i]];
      i := i + 1;
    }
  }
}
