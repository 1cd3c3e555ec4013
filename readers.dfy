/** The cursor-based readers of the header and block parsers. The JavaScript
    readers advance a shared `{ value }` cursor; here each returns the value
    together with the next position. DataView reads past the end raise a
    RangeError; Uint8Array indexing past the end yields `undefined`. */
module Readers {
  import opened Common
  import opened JsString

  datatype Read<+T> = Read(value: T, next: nat)

  /** DataView.getUint8. */
  function ReadU8(buf: seq<Byte>, pos: nat): (r: Result<Read<Byte>>)
    ensures r.Ok? <==> pos < |buf|
    ensures r.Ok? ==> r.value == Read(buf[pos], pos + 1)
  {
    if pos + 1 > |buf| then Err(RangeError) else Ok(Read(buf[pos], pos + 1))
  }

  /** DataView.getUint16 (little-endian). */
  function ReadU16(buf: seq<Byte>, pos: nat): (r: Result<Read<nat>>)
    ensures r.Ok? <==> pos + 2 <= |buf|
    ensures r.Ok? ==> r.value.next == pos + 2 && r.value.value == buf[pos] as int + 256 * buf[pos + 1] as int
  {
    if pos + 2 > |buf| then Err(RangeError)
    else Ok(Read(LittleEndian(buf, pos, 2), pos + 2))
  }

  /** DataView.getUint32 (little-endian). */
  function ReadU32(buf: seq<Byte>, pos: nat): (r: Result<Read<nat>>)
    ensures r.Ok? <==> pos + 4 <= |buf|
    ensures r.Ok? ==> r.value.next == pos + 4
    ensures r.Ok? ==> r.value.value == buf[pos] as int + 256 * buf[pos + 1] as int + 65536 * buf[pos + 2] as int + 16777216 * buf[pos + 3] as int
  {
    if pos + 4 > |buf| then Err(RangeError)
    else Ok(Read(LittleEndian(buf, pos, 4), pos + 4))
  }

  /** DataView.getInt32 (little-endian): the two's-complement reading of getUint32. */
  function ReadI32(buf: seq<Byte>, pos: nat): (r: Result<Read<int>>)
    ensures r.Ok? <==> pos + 4 <= |buf|
    ensures r.Ok? ==> r.value.next == pos + 4 && -TWO31 <= r.value.value < TWO31
    ensures r.Ok? ==> r.value.value == ToInt32(ReadU32(buf, pos).value.value)
  {
    var u :- ReadU32(buf, pos);
    Ok(Read(ToInt32(u.value), u.next))
  }

  /** DataView.getBigInt64: only its bounds check and its width matter to the
      decoder, which discards the offsets it reads. */
  function SkipI64(buf: seq<Byte>, pos: nat): (r: Result<nat>)
    ensures r.Ok? <==> pos + 8 <= |buf|
    ensures r.Ok? ==> r.value == pos + 8
  {
    if pos + 8 > |buf| then Err(RangeError) else Ok(pos + 8)
  }

  /** `uInt8Array[i]` used as a number in a bit operation: `undefined` past the
      end becomes 0. */
  function ByteOr0(buf: seq<Byte>, i: int): (r: Byte)
    ensures 0 <= i < |buf| ==> r == buf[i]
    ensures !(0 <= i < |buf|) ==> r == 0
  {
    if 0 <= i < |buf| then buf[i] else 0
  }

  /** `Uint8Array.prototype.slice(from, to)`: both ends clamped to the length. */
  function Slice(buf: seq<Byte>, from: int, to: int): (r: seq<Byte>)
    ensures 0 <= from <= to <= |buf| ==> r == buf[from..to]
    ensures |r| <= |buf|
  {
    var lo := if from < 0 then 0 else if from > |buf| then |buf| else from;
    var hi := if to < lo then lo else if to > |buf| then |buf| else to;
    buf[lo..hi]
  }

  /** parseFixedLengthString: the decoded bytes of the clamped slice; the
      cursor moves by size even past the end. */
  function ReadFixedString(buf: seq<Byte>, pos: nat, size: nat): (r: Read<string>)
    ensures r.next == pos + size
    ensures pos + size <= |buf| ==> r.value == StripBom(Chars(buf[pos..pos + size]))
  {
    Read(StripBom(Chars(Slice(buf, pos, pos + size))), pos + size)
  }

  /** The first NUL byte at or after i, if any. */
  function NulFrom(buf: seq<Byte>, i: nat): (r: Option<nat>)
    ensures r.Some? ==> i <= r.value < |buf| && buf[r.value] == 0
    ensures r.Some? ==> forall k :: i <= k < r.value ==> buf[k] != 0
    ensures r.None? ==> forall k :: i <= k < |buf| ==> buf[k] != 0
    decreases |buf| - i
  {
    if i >= |buf| then None
    else if buf[i] == 0 then Some(i)
    else NulFrom(buf, i + 1)
  }

  /** parseNullTerminatedString: the text up to the first NUL at or after
      pos, the cursor just past that NUL; with no NUL the search runs past the
      end forever. */
  function ReadCString(buf: seq<Byte>, pos: nat): (r: Result<Read<string>>)
    ensures r.Ok? || r == Err(Diverges)
    ensures r.Ok? ==> pos < r.value.next <= |buf|
  {
    match NulFrom(buf, pos)
    case None => Err(Diverges)
    case Some(k) => Ok(Read(StripBom(Chars(buf[pos..k])), k + 1))
  }

  /** The string read is the decoded bytes before the first NUL at or after
      pos, and it succeeds exactly when there is such a NUL. */
  lemma ReadCStringFindsNul(buf: seq<Byte>, pos: nat)
    ensures ReadCString(buf, pos).Ok? <==> exists k :: pos <= k < |buf| && buf[k] == 0
    ensures ReadCString(buf, pos).Ok? ==>
      var rd := ReadCString(buf, pos).value;
      buf[rd.next - 1] == 0
      && (forall k :: pos <= k < rd.next - 1 ==> buf[k] != 0)
      && rd.value == StripBom(Chars(buf[pos..rd.next - 1]))
  {
  }

  /** The scanning loop of parseNullTerminatedString. */
  method ParseNullTerminatedString(buf: seq<Byte>, pos: nat) returns (r: Result<Read<string>>)
    ensures r == ReadCString(buf, pos)
  {
    var endOffset := 0;
    while pos + endOffset < |buf| && buf[pos + endOffset] != 0
      invariant pos + endOffset <= |buf| || endOffset == 0
      invariant NulFrom(buf, pos) == NulFrom(buf, pos + endOffset)
      decreases |buf| - (pos + endOffset)
    {
      endOffset := endOffset + 1;
    }
    if pos + endOffset >= |buf| {
      // `undefined != 0` holds for every index past the end: the loop never stops.
      return Err(Diverges);
    }
    r := Ok(Read(StripBom(Chars(buf[pos..pos + endOffset])), pos + endOffset + 1));
  }
}
