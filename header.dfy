/** The OpenEXR header reader: magic number and version bytes, then
    (name, type, size, value) attributes until an empty name, after which a
    non-zero flag byte is rejected. Attribute values become AttrValue; float
    attributes keep their 32-bit patterns. */
module Header {
  import opened Common
  import opened JsString
  import opened Readers

  const MAGIC: nat := 20000630

  /** One entry of a `chlist` attribute, with its name split into a layer
      identifier and a component suffix. */
  datatype Channel = Channel(
    index: nat,
    name: string,
    id: string,
    idCh: Option<string>,
    pixelType: int,
    pLinear: Byte,
    xSampling: int,
    ySampling: int)

  datatype AttrValue =
    | Text(text: string)                 // string-like values, compression and line-order names, 'skipped'
    | ChannelList(channels: seq<Channel>)
    | Chromaticities(bits: seq<nat>)        // eight float32 bit patterns
    | Box(xMin: nat, yMin: nat, xMax: nat, yMax: nat)
    | Float(pattern: nat)
    | Floats(components: seq<nat>)          // v2f / v3f bit patterns
    | Int(value: int)
    | Pair(first: int, second: int)         // rational, timecode
    | Version(number: Byte)
    | Flags(mask: Byte)

  type Attributes = map<string, AttrValue>

  // ------------------------------------------------------------ channel names

  /** The last index holding b, if any. */
  function LastIndexOf(s: string, b: char): (r: Option<nat>)
    ensures r.Some? ==> r.value < |s| && s[r.value] == b && forall k :: r.value < k < |s| ==> s[k] != b
    ensures r.None? ==> forall k :: 0 <= k < |s| ==> s[k] != b
  {
    if |s| == 0 then None
    else if s[|s| - 1] == b then Some(|s| - 1)
    else LastIndexOf(s[..|s| - 1], b)
  }

  /** `name.split(/\.(?=[^\.]+$)/)`: the pattern only matches the last dot,
      and only when at least one character follows it. */
  function SplitName(name: string): (string, Option<string>)
  {
    match LastIndexOf(name, '.')
    case None => (name, None)
    case Some(k) => if k == |name| - 1 then (name, None) else (name[..k], Some(name[k + 1..]))
  }

  /** The split is taken exactly when the name has a dot that is not its last
      character. */
  lemma SplitNameHasSuffix(name: string)
    ensures SplitName(name).1.Some? <==> (exists k :: 0 <= k < |name| - 1 && name[k] == '.') && name[|name| - 1] != '.'
  {
    var li := LastIndexOf(name, '.');
    if li.Some? && li.value < |name| - 1 {
      assert name[|name| - 1] != '.';
    }
  }

  /** A name and its split determine each other: joining the parts with a dot
      gives the name back, and the suffix is non-empty and has no dot. */
  lemma SplitNameJoin(name: string)
    ensures var (id, ch) := SplitName(name);
      (ch.None? ==> id == name)
      && (ch.Some? ==> id + "." + ch.value == name && |ch.value| > 0 && '.' !in ch.value)
  {
    match LastIndexOf(name, '.')
    case None =>
    case Some(k) =>
      if k < |name| - 1 {
        assert name == name[..k] + "." + name[k + 1..];
      }
  }

  // ------------------------------------------------------------- chlist

  /** One channel record: name, int32 pixel type, uint8 pLinear, three
      reserved bytes, int32 x and y sampling. */
  function ReadChannel(buf: seq<Byte>, pos: nat, index: nat): (r: Result<Read<Channel>>)
    ensures r.Ok? ==> pos + 17 <= r.value.next <= |buf|
    ensures r.Ok? ==> r.value.value.index == index
    ensures r.Ok? ==> WellSplit(r.value.value)
    ensures r.Ok? ==> var at := r.value.next - 16;
      buf[at - 1] == 0 && (forall k :: pos <= k < at - 1 ==> buf[k] != 0)
      && r.value.value.name == StripBom(Chars(buf[pos..at - 1]))
      && FieldsAt(buf, at, r.value.value)
  {
    ReadCStringFindsNul(buf, pos);
    var name :- ReadCString(buf, pos);
    ReadChannelFields(buf, name, index)
  }

  /** The sixteen bytes after a channel's name hold its fields: int32 pixel
      type at +0, uint8 pLinear at +4, int32 x and y sampling at +8 and +12. */
  predicate FieldsAt(buf: seq<Byte>, at: nat, c: Channel)
  {
    at + 16 <= |buf|
    && c.pixelType == ReadI32(buf, at).value.value
    && c.pLinear == buf[at + 4]
    && c.xSampling == ReadI32(buf, at + 8).value.value
    && c.ySampling == ReadI32(buf, at + 12).value.value
  }

  /** The fields after a channel's name. */
  function ReadChannelFields(buf: seq<Byte>, name: Read<string>, index: nat): (r: Result<Read<Channel>>)
    ensures r.Ok? <==> name.next + 16 <= |buf|
    ensures r.Err? ==> r.error == RangeError
    ensures r.Ok? ==> r.value.next == name.next + 16 && FieldsAt(buf, name.next, r.value.value)
    ensures r.Ok? ==> r.value.value.index == index && r.value.value.name == name.value
    ensures r.Ok? ==> WellSplit(r.value.value)
  {
    var pixelType :- ReadI32(buf, name.next);
    var pLinear :- ReadU8(buf, pixelType.next);
    var xSampling :- ReadI32(buf, pLinear.next + 3);
    var ySampling :- ReadI32(buf, xSampling.next);
    var (id, idCh) := SplitName(name.value);
    Ok(Read(Channel(index, name.value, id, idCh, pixelType.value, pLinear.value, xSampling.value, ySampling.value), ySampling.next))
  }

  /** The identifier and suffix of a channel are the split of its name. */
  predicate WellSplit(c: Channel)
  {
    SplitName(c.name) == (c.id, c.idCh)
  }

  /** The channels carry the indices first, first + 1, ... */
  predicate Numbered(cs: seq<Channel>, first: nat)
  {
    forall i :: 0 <= i < |cs| ==> cs[i].index == first + i
  }

  predicate AllWellSplit(cs: seq<Channel>)
  {
    forall i :: 0 <= i < |cs| ==> WellSplit(cs[i])
  }

  /** The channel records from pos while the cursor is below stop
      (= start + size - 1), numbered from index; the cursor ends one past
      where the loop left it. */
  function ChannelsFrom(buf: seq<Byte>, pos: nat, stop: int, index: nat): (r: Result<Read<seq<Channel>>>)
    ensures r.Ok? ==> pos < r.value.next
    decreases if pos <= |buf| then |buf| - pos + 1 else 0
  {
    if pos >= stop then Ok(Read([], pos + 1))
    else
      var ch :- ReadChannel(buf, pos, index);
      var rest :- ChannelsFrom(buf, ch.next, stop, index + 1);
      Ok(Read([ch.value] + rest.value, rest.next))
  }

  /** parseChlist. The channels are numbered 0, 1, 2, ... in file order, and
      each one's identifier and suffix are the split of its name. */
  function ReadChlist(buf: seq<Byte>, pos: nat, size: nat): (r: Result<Read<seq<Channel>>>)
    ensures r.Ok? ==> pos < r.value.next
    ensures WellNumbered(r, 0)
  {
    ChannelsNumbered(buf, pos, pos + size - 1, 0);
    ChannelsFrom(buf, pos, pos + size - 1, 0)
  }

  /** A successful read whose channels are numbered from first and well split. */
  predicate WellNumbered(r: Result<Read<seq<Channel>>>, first: nat)
  {
    r.Ok? ==> Numbered(r.value.value, first) && AllWellSplit(r.value.value)
  }

  lemma {:induction false} ChannelsNumbered(buf: seq<Byte>, pos: nat, stop: int, index: nat)
    ensures WellNumbered(ChannelsFrom(buf, pos, stop, index), index)
    decreases if pos <= |buf| then |buf| - pos + 1 else 0
  {
    var ch := ReadChannel(buf, pos, index);
    if pos < stop && ch.Ok? {
      ChannelsStep(buf, pos, stop, index);
      ChannelsNumbered(buf, ch.value.next, stop, index + 1);
      HeadNumbered(ch.value.value, ChannelsFrom(buf, ch.value.next, stop, index + 1), index);
    } else if pos < stop {
      ChannelsFail(buf, pos, stop, index);
    }
  }

  lemma HeadNumbered(c: Channel, rest: Result<Read<seq<Channel>>>, index: nat)
    requires c.index == index && WellSplit(c)
    requires WellNumbered(rest, index + 1)
    ensures WellNumbered(Prepend([c], rest), index)
  {
  }

  /** One channel record, its name read by the NUL scan. */
  method ParseChannel(buf: seq<Byte>, pos: nat, index: nat) returns (r: Result<Read<Channel>>)
    ensures r == ReadChannel(buf, pos, index)
  {
    var name := ParseNullTerminatedString(buf, pos);
    if name.Err? {
      return Err(name.error);
    }
    r := ReadChannelFields(buf, name.value, index);
  }

  /** The record loop of parseChlist. */
  method ParseChlist(buf: seq<Byte>, pos: nat, size: nat) returns (r: Result<Read<seq<Channel>>>)
    ensures r == ReadChlist(buf, pos, size)
  {
    var stop := pos + size - 1;
    var offset := pos;
    var channels: seq<Channel> := [];
    ghost var whole := ReadChlistFrom(buf, pos, size, stop);
    PrependEmpty(whole);
    while offset < stop
      invariant whole == Prepend(channels, ChannelsFrom(buf, offset, stop, |channels|))
      decreases |buf| - offset
    {
      var next := ChlistBody(buf, offset, stop, channels, whole);
      if next.Err? {
        return Err(next.error);
      }
      channels, offset := next.value.value, next.value.next;
    }
    assert ChannelsFrom(buf, offset, stop, |channels|) == Ok(Read([], offset + 1));
    assert channels + [] == channels;
    r := Ok(Read(channels, offset + 1));
    assert whole == r;
  }

  lemma ReadChlistFrom(buf: seq<Byte>, pos: nat, size: nat, stop: int) returns (whole: Result<Read<seq<Channel>>>)
    requires stop == pos + size - 1
    ensures whole == ReadChlist(buf, pos, size) && whole == ChannelsFrom(buf, pos, stop, 0)
  {
    whole := ChannelsFrom(buf, pos, stop, 0);
  }

  /** One pass of the record loop: the record at offset joins the list. */
  method ChlistBody(buf: seq<Byte>, offset: nat, stop: int, channels: seq<Channel>, ghost whole: Result<Read<seq<Channel>>>)
    returns (r: Result<Read<seq<Channel>>>)
    requires offset < stop
    requires whole == Prepend(channels, ChannelsFrom(buf, offset, stop, |channels|))
    ensures r.Err? ==> whole == Err(r.error)
    ensures r.Ok? ==> offset < r.value.next <= |buf|
    ensures r.Ok? ==> whole == Prepend(r.value.value, ChannelsFrom(buf, r.value.next, stop, |r.value.value|))
  {
    var ch := ParseChannel(buf, offset, |channels|);
    if ch.Err? {
      ChannelsFail(buf, offset, stop, |channels|);
      return Err(ch.error);
    }
    var cs := channels + [ch.value.value];
    ghost var count := |channels| + 1;
    assert |cs| == count;
    ChannelsStep(buf, offset, stop, |channels|);
    PrependStep(channels, ch.value.value, ChannelsFrom(buf, ch.value.next, stop, count));
    r := Ok(Read(cs, ch.value.next));
  }

  lemma PrependEmpty<T>(r: Result<Read<seq<T>>>)
    ensures Prepend([], r) == r
  {
    if r.Ok? {
      assert [] + r.value.value == r.value.value;
    }
  }

  /** One record of the loop: a record read at pos heads the rest. */
  lemma ChannelsStep(buf: seq<Byte>, pos: nat, stop: int, index: nat)
    requires pos < stop && ReadChannel(buf, pos, index).Ok?
    ensures var ch := ReadChannel(buf, pos, index).value;
      ChannelsFrom(buf, pos, stop, index) == Prepend([ch.value], ChannelsFrom(buf, ch.next, stop, index + 1))
  {
  }

  lemma ChannelsFail(buf: seq<Byte>, pos: nat, stop: int, index: nat)
    requires pos < stop && ReadChannel(buf, pos, index).Err?
    ensures ChannelsFrom(buf, pos, stop, index) == Err(ReadChannel(buf, pos, index).error)
  {
  }

  lemma PrependStep<T>(xs: seq<T>, x: T, r: Result<Read<seq<T>>>)
    ensures Prepend(xs + [x], r) == Prepend(xs, Prepend([x], r))
  {
    if r.Ok? {
      assert xs + [x] + r.value.value == xs + ([x] + r.value.value);
    }
  }

  function Prepend<T>(xs: seq<T>, r: Result<Read<seq<T>>>): Result<Read<seq<T>>>
  {
    match r
    case Ok(rd) => Ok(Read(xs + rd.value, rd.next))
    case Err(e) => Err(e)
  }

  // -------------------------------------------------------------- values

  const COMPRESSION_NAMES: seq<string> := [
    "NO_COMPRESSION", "RLE_COMPRESSION", "ZIPS_COMPRESSION",
    "ZIP_COMPRESSION", "PIZ_COMPRESSION", "PXR24_COMPRESSION",
    "B44_COMPRESSION", "B44A_COMPRESSION", "DWAA_COMPRESSION",
    "DWAB_COMPRESSION"]

  /** n consecutive uint32 values (float patterns are read the same way). */
  function ReadU32s(buf: seq<Byte>, pos: nat, n: nat): (r: Result<Read<seq<nat>>>)
    ensures pos + 4 * n <= |buf| ==> r.Ok?
    ensures r.Ok? ==> |r.value.value| == n && r.value.next == pos + 4 * n
    decreases n
  {
    if n == 0 then Ok(Read([], pos))
    else
      var x :- ReadU32(buf, pos);
      var rest :- ReadU32s(buf, x.next, n - 1);
      Ok(Read([x.value] + rest.value, rest.next))
  }

  /** parseValue: the value of an attribute of the given type and size, or
      None (`undefined`) for an unknown type, a compression code of 10 or more,
      or a line order other than 0. */
  function ReadValue(buf: seq<Byte>, pos: nat, ty: string, size: nat): (r: Result<Read<Option<AttrValue>>>)
    ensures r.Ok? ==> pos <= r.value.next
    ensures ty !in KNOWN_TYPES ==> r == Ok(Read(None, pos + size))
    ensures ty == "compression" && pos < |buf| ==> r.Ok? && (r.value.value.Some? <==> buf[pos] < 10)
  {
    if ty == "string" || ty == "stringvector" || ty == "iccProfile" then
      var s := ReadFixedString(buf, pos, size);
      Ok(Read(Some(Text(s.value)), s.next))
    else if ty == "chlist" then
      var cs :- ReadChlist(buf, pos, size);
      Ok(Read(Some(ChannelList(cs.value)), cs.next))
    else if ty == "chromaticities" then
      var v :- ReadU32s(buf, pos, 8);
      Ok(Read(Some(Chromaticities(v.value)), v.next))
    else if ty == "compression" then
      var c :- ReadU8(buf, pos);
      Ok(Read(if c.value < 10 then Some(Text(COMPRESSION_NAMES[c.value])) else None, c.next))
    else if ty == "box2i" then
      var v :- ReadU32s(buf, pos, 4);
      Ok(Read(Some(Box(v.value[0], v.value[1], v.value[2], v.value[3])), v.next))
    else if ty == "lineOrder" then
      var o :- ReadU8(buf, pos);
      Ok(Read(if o.value == 0 then Some(Text("INCREASING_Y")) else None, o.next))
    else if ty == "float" then
      var f :- ReadU32(buf, pos);
      Ok(Read(Some(Float(f.value)), f.next))
    else if ty == "v2f" then
      var v :- ReadU32s(buf, pos, 2);
      Ok(Read(Some(Floats(v.value)), v.next))
    else if ty == "v3f" then
      var v :- ReadU32s(buf, pos, 3);
      Ok(Read(Some(Floats(v.value)), v.next))
    else if ty == "int" then
      var i :- ReadI32(buf, pos);
      Ok(Read(Some(Int(i.value)), i.next))
    else if ty == "rational" then
      var x :- ReadI32(buf, pos);
      var y :- ReadU32(buf, x.next);
      Ok(Read(Some(Pair(x.value, y.value)), y.next))
    else if ty == "timecode" then
      var x :- ReadU32(buf, pos);
      var y :- ReadU32(buf, x.next);
      Ok(Read(Some(Pair(x.value, y.value)), y.next))
    else if ty == "preview" then
      Ok(Read(Some(Text("skipped")), pos + size))
    else
      Ok(Read(None, pos + size))
  }

  const KNOWN_TYPES: set<string> := {
    "string", "stringvector", "iccProfile", "chlist",
    "chromaticities", "compression", "box2i", "lineOrder",
    "float", "v2f", "v3f", "int", "rational",
    "timecode", "preview"}

  /** parseValue, with the chlist branch run by its loop. */
  method ParseValue(buf: seq<Byte>, pos: nat, ty: string, size: nat) returns (r: Result<Read<Option<AttrValue>>>)
    ensures r == ReadValue(buf, pos, ty, size)
  {
    if ty == "chlist" {
      var cs := ParseChlist(buf, pos, size);
      if cs.Err? {
        return cs.PropagateFailure();
      }
      r := Ok(Read(Some(ChannelList(cs.value.value)), cs.value.next));
    } else {
      r := ReadValue(buf, pos, ty, size);
    }
  }

  // ------------------------------------------------------------- header

  /** The attribute loop's end test: the parser compares the name loosely
      with 0, the port strictly with the empty string. */
  predicate EndsAttributes(v: Variant, name: string)
  {
    match v
    case Parser => LooselyZero(name)
    case Port => name == ""
  }

  /** One attribute as the loop reads it: its name, its type name, and its
      value, None when parseValue gives undefined. */
  datatype Attribute = Attribute(name: string, ty: string, value: Option<AttrValue>)

  /** One pass of the attribute loop: the name that ends the list gives
      None, any other attribute is read with its type and value; an
      attribute of an unknown type has no value. */
  function NextAttribute(v: Variant, buf: seq<Byte>, pos: nat): (r: Result<Read<Option<Attribute>>>)
    ensures r.Ok? ==> pos < |buf| && pos < r.value.next
    ensures r.Ok? && r.value.value.Some? ==> !EndsAttributes(v, r.value.value.value.name)
    ensures r.Ok? && r.value.value.Some? && r.value.value.value.ty !in KNOWN_TYPES ==> r.value.value.value.value.None?
  {
    var name :- ReadCString(buf, pos);
    if EndsAttributes(v, name.value) then Ok(Read(None, name.next))
    else
      var ty :- ReadCString(buf, name.next);
      var size :- ReadU32(buf, ty.next);
      var value :- ReadValue(buf, size.next, ty.value, size.value);
      Ok(Read(Some(Attribute(name.value, ty.value, value.value)), value.next))
  }

  /** The attributes the loop reads from pos, in file order, up to the name
      that ends the list, without storing any of them. None of the names read
      ends the list, and an attribute of an unknown type has no value. */
  function AttributeList(v: Variant, buf: seq<Byte>, pos: nat): (r: Result<Read<seq<Attribute>>>)
    ensures r.Ok? ==> forall i :: 0 <= i < |r.value.value| ==> !EndsAttributes(v, r.value.value[i].name)
    ensures r.Ok? ==> forall i :: 0 <= i < |r.value.value| && r.value.value[i].ty !in KNOWN_TYPES ==> r.value.value[i].value.None?
    decreases if pos <= |buf| then |buf| - pos + 1 else 0
  {
    var n :- NextAttribute(v, buf, pos);
    match n.value
    case None => Ok(Read([], n.next))
    case Some(a) =>
      var rest :- AttributeList(v, buf, n.next);
      assert forall i :: 0 < i <= |rest.value| ==> ([a] + rest.value)[i] == rest.value[i - 1];
      Ok(Read([a] + rest.value, rest.next))
  }

  /** The value stored last under name k among the attributes read: the
      value of the last attribute named k that has one. */
  function LastKnown(read: seq<Attribute>, k: string): (r: Option<AttrValue>)
    ensures r.Some? ==> (exists i :: 0 <= i < |read| && read[i].name == k && read[i].value == r &&
                                 (forall j :: i < j < |read| ==> !(read[j].name == k && read[j].value.Some?)))
    ensures r.None? ==> forall i :: 0 <= i < |read| && read[i].name == k ==> read[i].value.None?
  {
    if |read| == 0 then None
    else
      var later := LastKnown(read[1..], k);
      if later.Some? then
        var i :| 0 <= i < |read[1..]| && read[1..][i].name == k && read[1..][i].value == later &&
          (forall j :: i < j < |read[1..]| ==> !(read[1..][j].name == k && read[1..][j].value.Some?));
        assert read[i + 1] == read[1..][i];
        later
      else if read[0].name == k && read[0].value.Some? then read[0].value
      else None
  }

  /** The attribute loop from pos: each attribute with a known value is stored
      under its name, replacing an earlier one of the same name; the result's
      cursor is just past the terminating name (AttributesStored). */
  function AttributesFrom(v: Variant, buf: seq<Byte>, pos: nat, attrs: Attributes): (r: Result<Read<Attributes>>)
    ensures r.Ok? ==> attrs.Keys <= r.value.value.Keys
    decreases if pos <= |buf| then |buf| - pos + 1 else 0
  {
    var n :- NextAttribute(v, buf, pos);
    match n.value
    case None => Ok(Read(attrs, n.next))
    case Some(a) =>
      var attrs' := if a.value.Some? then attrs[a.name := a.value.value] else attrs;
      AttributesFrom(v, buf, n.next, attrs')
  }

  /** parseHeader: the header attributes and the offset just past them. The
      map starts with the version byte under "version" and the flag byte under
      "spec", which attributes of those names replace. */
  function ReadHeader(v: Variant, buf: seq<Byte>): (r: Result<Read<Attributes>>)
    ensures |buf| < 4 ==> r == Err(RangeError)
    ensures |buf| >= 4 && LittleEndian(buf, 0, 4) != MAGIC ==> r == Err(NotOpenExr)
    ensures r.Ok? ==> |buf| >= 8 && LittleEndian(buf, 0, 4) == MAGIC && buf[5] == 0
    ensures r.Ok? ==> 8 < r.value.next <= |buf|
    ensures |buf| >= 6 && LittleEndian(buf, 0, 4) == MAGIC ==>
      var list := AttributesFrom(v, buf, 8, map["version" := Version(buf[4]), "spec" := Flags(buf[5])]);
      (list.Err? ==> r == Err(list.error)) &&
      (list.Ok? && buf[5] != 0 ==> r == Err(UnsupportedFile)) &&
      (list.Ok? && buf[5] == 0 ==> r == list)
  {
    var magic :- ReadU32(buf, 0);
    if magic.value != MAGIC then Err(NotOpenExr)
    else
      var version :- ReadU8(buf, 4);
      var flags :- ReadU8(buf, 5);
      var init := map["version" := Version(version.value), "spec" := Flags(flags.value)];
      var attrs :- AttributesFrom(v, buf, 8, init);
      AttributesEnd(v, buf, 8, init);
      if flags.value != 0 then Err(UnsupportedFile) else Ok(attrs)
  }

  /** An attribute read before the others counts only when none of them
      stores a value under its name. */
  lemma LastKnownCons(a: Attribute, rest: seq<Attribute>, k: string)
    ensures LastKnown([a] + rest, k) ==
      if LastKnown(rest, k).Some? then LastKnown(rest, k)
      else if a.name == k && a.value.Some? then a.value else None
  {
    assert ([a] + rest)[1..] == rest;
  }

  /** m is what storing the attributes read over attrs gives: a key is
      present exactly when it was in attrs or some attribute of that name has
      a known value, and then holds the value of the last such attribute. */
  ghost predicate StoredMap(m: Attributes, read: seq<Attribute>, attrs: Attributes)
  {
    (forall k :: k in m <==> k in attrs || LastKnown(read, k).Some?) &&
    (forall k :: k in m ==> m[k] == (if LastKnown(read, k).Some? then LastKnown(read, k).value else attrs[k]))
  }

  /** r is what storing the attributes of list over attrs gives: the same
      error, or the same cursor and the StoredMap of the attributes read. */
  ghost predicate Stores(r: Result<Read<Attributes>>, list: Result<Read<seq<Attribute>>>, attrs: Attributes)
  {
    (r.Err? <==> list.Err?) && (r.Err? ==> r.error == list.error) &&
    (r.Ok? ==> r.value.next == list.value.next && StoredMap(r.value.value, list.value.value, attrs))
  }

  /** Storing a first attribute, then the rest over the map it gives, stores
      the whole list. */
  lemma StoresCons(a: Attribute, rest: seq<Attribute>, attrs: Attributes, m: Attributes)
    requires StoredMap(m, rest, if a.value.Some? then attrs[a.name := a.value.value] else attrs)
    ensures StoredMap(m, [a] + rest, attrs)
  {
    forall k
      ensures (k in m <==> k in attrs || LastKnown([a] + rest, k).Some?)
      ensures k in m ==> m[k] == (if LastKnown([a] + rest, k).Some? then LastKnown([a] + rest, k).value else attrs[k])
    {
      LastKnownCons(a, rest, k);
    }
  }

  /** The loop reads AttributeList and stores it: the same error, or each
      attribute with a known value under its name, the last one of a name
      winning. */
  lemma {:induction false} AttributesStored(v: Variant, buf: seq<Byte>, pos: nat, attrs: Attributes)
    ensures Stores(AttributesFrom(v, buf, pos, attrs), AttributeList(v, buf, pos), attrs)
    decreases if pos <= |buf| then |buf| - pos + 1 else 0
  {
    var n := NextAttribute(v, buf, pos);
    if n.Ok? && n.value.value.Some? {
      var a := n.value.value.value;
      var attrs' := if a.value.Some? then attrs[a.name := a.value.value] else attrs;
      AttributesStored(v, buf, n.value.next, attrs');
      var later := AttributesFrom(v, buf, n.value.next, attrs');
      var rest := AttributeList(v, buf, n.value.next);
      if later.Ok? {
        StoresCons(a, rest.value.value, attrs, later.value.value);
      }
    }
  }

  lemma {:induction false} AttributesEnd(v: Variant, buf: seq<Byte>, pos: nat, attrs: Attributes)
    ensures AttributesFrom(v, buf, pos, attrs).Ok? ==> pos < AttributesFrom(v, buf, pos, attrs).value.next <= |buf|
    decreases if pos <= |buf| then |buf| - pos + 1 else 0
  {
    var n := NextAttribute(v, buf, pos);
    if n.Ok? && n.value.value.Some? {
      var a := n.value.value.value;
      AttributesEnd(v, buf, n.value.next, if a.value.Some? then attrs[a.name := a.value.value] else attrs);
    }
  }

  /** A name "0" followed by its NUL reads as "0". */
  lemma ZeroName(buf: seq<Byte>, pos: nat)
    requires pos + 2 <= |buf| && buf[pos] == '0' as int && buf[pos + 1] == 0
    ensures ReadCString(buf, pos) == Ok(Read("0", pos + 2))
  {
    assert NulFrom(buf, pos + 1) == Some(pos + 1);
    assert NulFrom(buf, pos) == Some(pos + 1);
    assert Chars(buf[pos..pos + 1]) == "0";
    assert StripBom("0") == "0";
  }

  /** The name "0" ends the parser's attribute list (it is loosely equal to 0). */
  lemma ZeroNameEndsParser(buf: seq<Byte>, pos: nat, attrs: Attributes)
    requires pos + 2 <= |buf| && buf[pos] == '0' as int && buf[pos + 1] == 0
    ensures AttributesFrom(Parser, buf, pos, attrs) == Ok(Read(attrs, pos + 2))
  {
    ZeroName(buf, pos);
    LooselyZeroDigit();
    AttributesStop(Parser, buf, pos, attrs);
  }

  /** A name whose numeral underflows to 0, such as "1e-400", ends the
      parser's list too, and not the port's. */
  lemma UnderflowNameEnds()
    ensures EndsAttributes(Parser, "1e-400") && !EndsAttributes(Port, "1e-400")
  {
    LooselyZeroUnderflow();
  }

  /** A name that ends the list leaves the attributes as they are. */
  lemma AttributesStop(v: Variant, buf: seq<Byte>, pos: nat, attrs: Attributes)
    requires ReadCString(buf, pos).Ok? && EndsAttributes(v, ReadCString(buf, pos).value.value)
    ensures AttributesFrom(v, buf, pos, attrs) == Ok(Read(attrs, ReadCString(buf, pos).value.next))
  {
  }

  /** The port does not stop at the name "0": it goes on to read a type name after it, which never ends at the end of the buffer. */
  lemma ZeroNameGoesOnInPort(buf: seq<Byte>, pos: nat, attrs: Attributes)
    requires pos + 2 == |buf| && buf[pos] == '0' as int && buf[pos + 1] == 0
    ensures AttributesFrom(Port, buf, pos, attrs) == Err(Diverges)
  {
    ZeroName(buf, pos);
    assert !EndsAttributes(Port, "0");
    assert NulFrom(buf, pos + 2) == None;
    assert ReadCString(buf, pos + 2) == Err(Diverges);
  }

  /** The loop of parseHeader. */
  method ParseHeader(v: Variant, buf: seq<Byte>) returns (r: Result<Read<Attributes>>)
    ensures r == ReadHeader(v, buf)
  {
    var magic := ReadU32(buf, 0);
    if magic.Err? { return magic.PropagateFailure(); }
    if magic.value.value != MAGIC { return Err(NotOpenExr); }
    var version := ReadU8(buf, 4);
    if version.Err? { return version.PropagateFailure(); }
    var flags := ReadU8(buf, 5);
    if flags.Err? { return flags.PropagateFailure(); }
    var init := map["version" := Version(version.value.value), "spec" := Flags(flags.value.value)];
    var attrs := init;
    var offset: nat := 8;
    var keepReading := true;
    while keepReading
      invariant keepReading ==> AttributesFrom(v, buf, 8, init) == AttributesFrom(v, buf, offset, attrs)
      invariant !keepReading ==> AttributesFrom(v, buf, 8, init) == Ok(Read(attrs, offset))
      decreases keepReading, if offset <= |buf| then |buf| - offset + 1 else 0
    {
      var name := ParseNullTerminatedString(buf, offset);
      if name.Err? { return name.PropagateFailure(); }
      if EndsAttributes(v, name.value.value) {
        keepReading := false;
        offset := name.value.next;
      } else {
        var ty := ParseNullTerminatedString(buf, name.value.next);
        if ty.Err? { return ty.PropagateFailure(); }
        var size := ReadU32(buf, ty.value.next);
        if size.Err? { return size.PropagateFailure(); }
        var value := ParseValue(buf, size.value.next, ty.value.value, size.value.value);
        if value.Err? { return value.PropagateFailure(); }
        if value.value.value.Some? {
          attrs := attrs[name.value.value := value.value.value.value];
        }
        offset := value.value.next;
      }
    }
    if flags.value.value != 0 { return Err(UnsupportedFile); }
    r := Ok(Read(attrs, offset));
  }
}
