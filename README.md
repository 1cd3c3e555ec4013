# OpenEXR scanline decoder and image manager of the veriv viewer, in Dafny

This project models two parts of the veriv image viewer.

- **The OpenEXR decoder.** `parseEXR` in `src/viewer/loaders/ext/exr_parser.js` reads a scanline OpenEXR file:
  - the header attributes, including the channel list;
  - the block offset table;
  - the scanline blocks, decoded raw or with RLE, ZIP, PIZ (Huffman, then wavelet, then reverse lookup table), PXR24 or DWA;
  - the samples of each block, scattered into a legacy RGBA buffer and into one buffer per channel group (RGBA, RGB, XYZ, UV or a single channel), after the channels are sorted by layer name.
- **Where the TypeScript port differs.** `src/viewer/loaders/EXRLoader_bad.ts` is a port of the same decoder. The model has a `Variant` (`Parser` or `Port`) wherever the two differ:
  - the port's interleave step never writes its output;
  - its wavelet decoder resets the row cursor only once;
  - it throws on DWA;
  - it refuses an unsupported output type while setting up;
  - its attribute list ends only on an empty name.
- **The image manager.** The `ImageManager` class of `src/viewer/image_manager.ts` holds:
  - the cache of loaded images;
  - the active image, the reference image and the active channel group;
  - the statistics cache, keyed by `statistics_key`.

  It is modelled as a Dafny class whose methods update these fields.

Failures are values. Every `throw` becomes `Err(e)` of `Common.Result`, and so does every exception the JavaScript runtime would raise (a `RangeError` from a DataView read past the end, a `TypeError` from a call through `undefined`). A loop that would never end becomes `Err(Diverges)`. Where the JavaScript code runs a loop, the model has a method with loop invariants, proved equal to a recursive specification function; the properties are lemmas about those functions.

Modules (one per file):

- `Common`: bytes, `Result`, 32-bit integer semantics, arithmetic helpers.
- `JsString`: the JavaScript string semantics the decoder relies on.
- `Readers`: the DataView and typed-array readers.
- `Header`: the header and the channel list.
- `Decoder`: `setupDecoder`.

Decompression:

- `Scanline`: RLE, ZIP, the predictor and interleave steps.
- `Bits`: the Huffman bit reader (`getChar`, `getBits`).
- `Huffman`: the packed code-length table (`hufUnpackEncTable`).
- `Canonical`: canonical code assignment (`hufCanonicalCodeTable`).
- `DecTable`: the decoding table (`hufBuildDecTable`).
- `HufDecode`, `HufDecodeLoop`, `HufUncompress`: the PIZ Huffman decoder (`getCode`, `hufDecode`, `hufUncompress`).
- `Wavelet`: the PIZ wavelet transform (`wav2Decode`).
- `PizLut`: the PIZ bitmap and lookup table (`reverseLutFromBitmap`, `applyLut`).
- `Piz`: `uncompressPIZ` as a whole.
- `Pxr24`: `uncompressPXR`.

Decoding:

- `ChannelSort`: the channel sort.
- `Grouping`: the channel grouping.
- `Buffers`: the output buffers.
- `Scatter`: the block loop.
- `Exr`: `parseEXR` as a whole.
- `Images`: the image manager.

Both loaders refuse a half-float output once the header and decoder are read (`HalfFloatType is not supported yet`).

Behaviour of the code worth knowing, each modelled as written:

- **Short tails in `test_group`.** The guard `j > channels.length` (exr_parser.js:2348) never fires. The first index past the end reads `channels[length].id` and throws a `TypeError`. So a tail `B, G` crashes, and so does a lone `A` (`Grouping.TryGroupsCrash`, `Grouping.GroupExampleShortTail`).
- **Missing sub-identifiers in the sort.** The comparator (exr_parser.js:2315-2326) sorts by identifier, then sub-identifier. Its `!== undefined` test passes for a `null` sub-identifier, and JavaScript then compares `null` with the other string as numbers. So `x` sorts before `x.5` but equal to `x.abc`, and the comparator is not transitive (`ChannelSort.CompareNotTransitive`). For such inputs the order `Array.prototype.sort` gives is implementation-defined. The model fixes it to the order of an insertion sort (`ChannelSort.Sort`).
- **XYZ groups.** Every three-channel group is widened to four cells, XYZ included (exr_parser.js:2407-2410; `Grouping.EntryNames`).
- **Half-float output.** Both loaders throw on it in `parseEXR` (exr_parser.js:2311-2313; `Exr.HalfFloatRefused`).
- **DWA.** The parser decodes DWA blocks; only the port throws on them.
- **The legacy `== 0` test.** The parser ends the attribute list on any name that JavaScript's loose `== 0` takes for zero: empty, blank, a numeral such as "0", or one such as "1e-400" that rounds to zero (exr_parser.js:2099; `JsString.LooselyZeroDigits`, `JsString.LooselyZeroUnderflow`). The port ends it only on an empty name.

## Model

| member | source | states |
|---|---|---|
| Common.ToInt32 | src/viewer/loaders/ext/exr_parser.js:244 | a bitwise operator's result lies in the signed 32-bit range and agrees with the value modulo 2^32 |
| Common.Int32Id | src/viewer/loaders/ext/exr_parser.js:244 | a value already in the signed 32-bit range is unchanged |
| Common.ToUint32 | src/viewer/loaders/ext/exr_parser.js:1801-1809 | an unsigned 32-bit value agreeing with the value modulo 2^32 |
| Common.LowBits | src/viewer/loaders/ext/exr_parser.js:251 | masking with `(1 << k) - 1` leaves a value below 2^k |
| Common.LittleEndian | src/viewer/loaders/ext/exr_parser.js:1801-1809 | the little-endian value of n bytes is below 2^(8n) |
| Common.LeBytes | src/viewer/loaders/ext/exr_parser.js:1517 | a typed array stores an element as n little-endian bytes |
| Common.LeBytesRoundTrip | src/viewer/loaders/ext/exr_parser.js:1517 | reading back the stored little-endian bytes gives the element |
| Readers.ReadU8 | src/viewer/loaders/ext/exr_parser.js:1821-1829 | succeeds exactly when the position is inside the buffer; gives the byte there and advances the cursor by one |
| Readers.ReadU16 | src/viewer/loaders/ext/exr_parser.js:1875-1883 | succeeds exactly when two bytes remain; gives their little-endian value and advances by two |
| Readers.ReadU32 | src/viewer/loaders/ext/exr_parser.js:1801-1809 | succeeds exactly when four bytes remain; gives their little-endian value and advances by four |
| Readers.ReadI32 | src/viewer/loaders/ext/exr_parser.js:1791-1799 | succeeds exactly when four bytes remain; gives the two's-complement reading of the unsigned value, in the signed 32-bit range |
| Readers.SkipI64 | src/viewer/loaders/ext/exr_parser.js:1831-1839 | succeeds exactly when eight bytes remain, and advances by eight |
| Readers.ByteOr0 | src/viewer/loaders/ext/exr_parser.js:434-442 | a byte inside the buffer is itself; an index past the end reads as 0 |
| Readers.Slice | src/viewer/loaders/ext/exr_parser.js:1761-1771 | an in-range slice is the subsequence; any slice is no longer than the buffer |
| Readers.ReadFixedString | src/viewer/loaders/ext/exr_parser.js:1761-1771 | the cursor advances by size, even past the end; in range, the text is the decoded bytes without a leading byte-order mark |
| Readers.NulFrom | src/viewer/loaders/ext/exr_parser.js:1745-1749 | finds the first NUL at or after i, or reports that there is none |
| Readers.ReadCString | src/viewer/loaders/ext/exr_parser.js:1740-1759 | either succeeds, with the cursor past the start and inside the buffer, or never ends |
| Readers.ReadCStringFindsNul | src/viewer/loaders/ext/exr_parser.js:1740-1759 | succeeds exactly when a NUL follows; the text is the decoded bytes before the first NUL, and the cursor is just past that NUL |
| Readers.ParseNullTerminatedString | src/viewer/loaders/ext/exr_parser.js:1745-1757 | the scanning loop computes ReadCString |
| JsString.StripBom | src/viewer/loaders/ext/exr_parser.js:1751-1753 | TextDecoder drops one leading UTF-8 byte-order mark and keeps any other text |
| JsString.SkipDigits | src/viewer/loaders/ext/exr_parser.js:2099 | the first index at or after i that is not a decimal digit: every character skipped is a digit |
| JsString.Untrimmed | src/viewer/loaders/ext/exr_parser.js:2099 | a name without surrounding white space or byte-order mark is what ToNumber trims it to |
| JsString.ToNumberClass | src/viewer/loaders/ext/exr_parser.js:2099 | the class of ToNumber of a name: zero when it trims to nothing, NaN when its first trimmed character cannot start a numeral, negative only after a leading minus; its meaning on digit strings, signs and underflow is proved in JsString.LooselyZeroDigits, JsString.NegatedClass and JsString.LooselyZeroUnderflow |
| JsString.LooselyZero | src/viewer/loaders/ext/exr_parser.js:2099 | the loose test `name == 0`: true for a name that trims to nothing, false for one whose first trimmed character cannot start a numeral, such as a channel letter; see JsString.LooselyZeroDigits and JsString.LooselyZeroUnderflow |
| JsString.LooselyZeroDigit | src/viewer/loaders/ext/exr_parser.js:2099 | the attribute name "0" is loosely equal to 0 |
| JsString.LooselyZeroBlank | src/viewer/loaders/ext/exr_parser.js:2099 | a name of spaces is loosely equal to 0 |
| JsString.LooselyZeroNegative | src/viewer/loaders/ext/exr_parser.js:2099 | "-0" is loosely equal to 0 |
| JsString.LooselyZeroHex | src/viewer/loaders/ext/exr_parser.js:2099 | "0x0" is loosely equal to 0 |
| JsString.HexZeroLiteral | src/viewer/loaders/ext/exr_parser.js:2099 | "0x0" is a hexadecimal literal whose digits are all zero |
| JsString.LooselyZeroExponent | src/viewer/loaders/ext/exr_parser.js:2099 | ".0e5" is loosely equal to 0 |
| JsString.ZeroExponentLiteral | src/viewer/loaders/ext/exr_parser.js:2099 | ".0e5" is a decimal literal of value zero |
| JsString.NotLooselyZeroLetter | src/viewer/loaders/ext/exr_parser.js:2099 | a channel-style name such as "R" does not end the attribute list |
| JsString.DecimalZero | src/viewer/loaders/ext/exr_parser.js:2099 | a string of decimal digits has value zero exactly when every digit is 0 |
| JsString.LooselyZeroDigits | src/viewer/loaders/ext/exr_parser.js:2099 | a name of decimal digits is loosely equal to 0, and so ends the attribute list, exactly when every digit is 0 |
| JsString.NegatedClass | src/viewer/loaders/ext/exr_parser.js:2099 | a minus sign before a literal keeps a zero a zero and a NaN a NaN and makes a positive value negative; before 0x, 0o or 0b it gives NaN |
| JsString.NonDecimalNotDecimal | src/viewer/loaders/ext/exr_parser.js:2099 | a 0x, 0o or 0b literal is not read as a decimal literal |
| JsString.LooselyZeroUnderflow | src/viewer/loaders/ext/exr_parser.js:2099 | "1e-400", whose value rounds to zero as a double, is loosely equal to 0 |
| JsString.UnderflowLiteral | src/viewer/loaders/ext/exr_parser.js:2099 | "1e-400" is a decimal literal whose value rounds to zero |
| JsString.UnderflowLiteralShape | src/viewer/loaders/ext/exr_parser.js:2099 | "1e-400" is read as mantissa 1 and exponent -400 |
| JsString.SmallNotLooselyZero | src/viewer/loaders/ext/exr_parser.js:2099 | "1e-300" is a positive number, so it does not end the attribute list |
| JsString.SmallLiteral | src/viewer/loaders/ext/exr_parser.js:2099 | "1e-300" is a decimal literal whose value does not round to zero |
| JsString.SmallLiteralShape | src/viewer/loaders/ext/exr_parser.js:2099 | "1e-300" is read as mantissa 1 and exponent -300 |
| JsString.LessIrreflexive | src/viewer/loaders/ext/exr_parser.js:2316-2327 | no layer name sorts before itself under `<` |
| JsString.LessTrichotomy | src/viewer/loaders/ext/exr_parser.js:2316-2327 | of two different names exactly one is `<` the other |
| JsString.LessTransitive | src/viewer/loaders/ext/exr_parser.js:2316-2327 | `<` on strings is transitive |
| Header.LastIndexOf | src/viewer/loaders/ext/exr_parser.js:1906 | finds the last occurrence of a character, or reports that there is none |
| Header.SplitNameHasSuffix | src/viewer/loaders/ext/exr_parser.js:1906-1908 | a channel name gets a suffix exactly when it has a dot that is not its last character |
| Header.SplitNameJoin | src/viewer/loaders/ext/exr_parser.js:1906-1908 | without a suffix the identifier is the whole name; with one, identifier + "." + suffix is the name and the suffix is non-empty and has no dot |
| Header.ReadChannel | src/viewer/loaders/ext/exr_parser.js:1899-1920 | one channel record is a name running to the first NUL from the cursor, then 16 bytes of fields: int32 pixel type at +0, uint8 pLinear at +4, int32 x and y sampling at +8 and +12; it carries its index and the split of its name |
| Header.ReadChannelFields | src/viewer/loaders/ext/exr_parser.js:1900-1920 | the fields after a name are read exactly when 16 bytes remain, otherwise a RangeError; they are the int32 at +0, the byte at +4 and the int32s at +8 and +12, the cursor ends 16 bytes on, and the record keeps the name and index and is well split |
| Header.ChannelsFrom | src/viewer/loaders/ext/exr_parser.js:1897-1924 | the record loop moves the cursor forward |
| Header.ReadChlist | src/viewer/loaders/ext/exr_parser.js:1891-1927 | parseChlist moves the cursor forward, and its channels are numbered 0, 1, 2, ... in file order and each is well split |
| Header.ChannelsNumbered | src/viewer/loaders/ext/exr_parser.js:1897-1921 | the loop numbers its records consecutively from the starting index, each well split |
| Header.ParseChannel | src/viewer/loaders/ext/exr_parser.js:1899-1920 | the record reader computes ReadChannel |
| Header.ParseChlist | src/viewer/loaders/ext/exr_parser.js:1891-1927 | the record loop computes ReadChlist |
| Header.ChlistBody | src/viewer/loaders/ext/exr_parser.js:1899-1921 | one pass of the loop keeps the overall result: records read so far, then the rest |
| Header.ChannelsStep | src/viewer/loaders/ext/exr_parser.js:1897-1921 | a record readable at the cursor heads the rest of the list |
| Header.ChannelsFail | src/viewer/loaders/ext/exr_parser.js:1897-1921 | an unreadable record fails the whole list with its error |
| Header.ReadU32s | src/viewer/loaders/ext/exr_parser.js:1929-2005 | n words fit exactly when 4n bytes remain; the cursor moves by 4n |
| Header.ReadValue | src/viewer/loaders/ext/exr_parser.js:2007-2069 | the cursor never moves back; an unknown type skips size bytes and gives undefined; a compression value is known exactly when its code is below 10 |
| Header.ParseValue | src/viewer/loaders/ext/exr_parser.js:2007-2069 | the attribute-value reader, with the chlist loop, computes ReadValue |
| Header.AttributesFrom | src/viewer/loaders/ext/exr_parser.js:2095-2120 | the attribute loop never loses an attribute already stored; what it stores is stated by Header.AttributesStored |
| Header.NextAttribute | src/viewer/loaders/ext/exr_parser.js:2097-2117 | one pass of the loop starts inside the buffer and moves the cursor forward; an attribute it reads has a name that does not end the list, and no value when its type is unknown |
| Header.AttributeList | src/viewer/loaders/ext/exr_parser.js:2095-2120 | the attributes the loop reads, in file order: no name read ends the list, and an attribute of an unknown type has no value |
| Header.LastKnown | src/viewer/loaders/ext/exr_parser.js:2112-2116 | the value of the last attribute of a name that has one, or none when no attribute of that name has a value |
| Header.LastKnownCons | src/viewer/loaders/ext/exr_parser.js:2112-2116 | an earlier attribute counts only when no later one of its name has a value |
| Header.StoresCons | src/viewer/loaders/ext/exr_parser.js:2104-2116 | storing one attribute and then the rest over the map it gives is storing the whole list |
| Header.AttributesStored | src/viewer/loaders/ext/exr_parser.js:2095-2120 | the loop fails exactly when reading the attribute list fails, with its error; otherwise a key is stored exactly when it was already there or some attribute of that name has a known value, and it holds the value of the last such attribute, so unknown types are never stored |
| Header.ReadHeader | src/viewer/loaders/ext/exr_parser.js:2071-2132 | a buffer under four bytes is a RangeError; a wrong magic number is rejected; success needs the magic number and a zero flag byte, and ends the cursor past byte 8 inside the buffer; with the magic number and the flag byte present, an error of the attribute list comes first, a list read in full with a non-zero flag byte gives exactly the unsupported-file error, and otherwise the header is the list read |
| Header.AttributesEnd | src/viewer/loaders/ext/exr_parser.js:2095-2120 | a finished attribute loop leaves the cursor past where it started, inside the buffer |
| Header.ZeroName | src/viewer/loaders/ext/exr_parser.js:1740-1759 | the bytes "0", NUL read as the name "0" |
| Header.ZeroNameEndsParser | src/viewer/loaders/ext/exr_parser.js:2099-2101 | in the parser, an attribute named "0" ends the header, with the attributes unchanged |
| Header.AttributesStop | src/viewer/loaders/ext/exr_parser.js:2099-2101 | a name that ends the list leaves the attributes unchanged and the cursor past that name |
| Header.ZeroNameGoesOnInPort | src/viewer/loaders/EXRLoader_bad.ts:2078-2084 | the port reads on after a name "0", and at the end of the buffer never finishes |
| Header.UnderflowNameEnds | src/viewer/loaders/ext/exr_parser.js:2099-2101 | an attribute named "1e-400" ends the header in the parser, and not in the port |
| Header.ParseHeader | src/viewer/loaders/ext/exr_parser.js:2071-2132 | the header loop computes ReadHeader |
| Bits.SyncedAtStart | src/viewer/loaders/ext/exr_parser.js:285-287 | a reader that holds no bits is in step with the stream at any byte |
| Bits.GetChar | src/viewer/loaders/ext/exr_parser.js:434-442 | getChar holds eight more bits, advances the cursor by one byte, and keeps the accumulator a signed 32-bit value |
| Bits.ReadBits | src/viewer/loaders/ext/exr_parser.js:240-255 | getBits returns a value below 2^nBits, never moves the cursor back, and uses up at most nBits held bits |
| Bits.GetBits | src/viewer/loaders/ext/exr_parser.js:240-255 | the refill loop computes ReadBits |
| Bits.GetCharSynced | src/viewer/loaders/ext/exr_parser.js:434-442 | the byte shifted in holds the eight stream bits right after those already held, so the reader stays in step and its stream position is unchanged |
| Bits.ReadBitsNext | src/viewer/loaders/ext/exr_parser.js:240-255 | for 1 to 24 bits, getBits returns exactly the next nBits bits of the stream, most significant first, stays in step, and moves the stream position by nBits |
| Bits.TakeTopBits | src/viewer/loaders/ext/exr_parser.js:249-253 | `(c >> (lc - n)) & ((1 << n) - 1)` is the oldest n of the held bits, and the rest stay held in step |
| Bits.ByteStream | src/viewer/loaders/ext/exr_parser.js:1811-1819 | the eight stream bits of a byte spell that byte, or 0 past the end |
| Bits.LowBitsShiftIn | src/viewer/loaders/ext/exr_parser.js:244 | `c << 8` or-ed with `b` keeps the low lc held bits and appends b below them, as long as at most 24 bits were held |
| Huffman.UnpackFrom | src/viewer/loaders/ext/exr_parser.js:283-341 | the unpack loop runs to its end exactly when ni >= 0 or there is nothing to read (the `p - inOffset > ni` test compares one cursor with itself); its only error is the run-too-long throw |
| Huffman.UnpackShape | src/viewer/loaders/ext/exr_parser.js:283-341 | the lengths written so far stay; a finished loop writes exactly one length per symbol im .. iM, an early return writes none, and every length is 0 .. 58 |
| Huffman.UnpackSimulates | src/viewer/loaders/ext/exr_parser.js:283-341 | two readers that yield the same fields unpack the same lengths with the same outcome |
| Huffman.ReadFieldIsFieldAt | src/viewer/loaders/ext/exr_parser.js:295-312 | the getBits calls of one pass read the field the bit stream spells at that position, and stay in step |
| Huffman.UnpackReadsStream | src/viewer/loaders/ext/exr_parser.js:283-341 | hufUnpackEncTable from byte pos decodes the fields of the bit stream from bit 8·pos: 6-bit lengths, 59..62 as l - 57 zeros, 63 plus 8 bits as that many plus 6 zeros |
| Huffman.WriteZeros | src/viewer/loaders/ext/exr_parser.js:319 | the zero-run loop writes n zeros from the given index and nothing else |
| Huffman.GetField | src/viewer/loaders/ext/exr_parser.js:295-317 | the getBits calls of one pass compute ReadField |
| Huffman.UnpackStep | src/viewer/loaders/ext/exr_parser.js:291-337 | one pass of the loop either throws exactly when the specification does, or moves im forward and keeps the table equal to the lengths the specification writes |
| Huffman.UnpackLengths | src/viewer/loaders/ext/exr_parser.js:283-339 | the unpack loop writes the specification's lengths into hcode from im on, with its outcome and final cursor |
| Canonical.Start | src/viewer/loaders/ext/exr_parser.js:264-272 | the first code of each length is at most the number of symbols |
| Canonical.CodeTable | src/viewer/loaders/ext/exr_parser.js:259-281 | the encoding table has one entry per symbol |
| Canonical.CodeRange | src/viewer/loaders/ext/exr_parser.js:259-281 | the codes of one length l are the numbers from the first code of l up to that plus the count of l |
| Canonical.CodesIncrease | src/viewer/loaders/ext/exr_parser.js:274-278 | symbols of the same length get increasing codes in symbol order, so no two share a code |
| Canonical.EntryRoundTrip | src/viewer/loaders/ext/exr_parser.js:347-357 | hufCode and hufLength take `code << 6` or-ed with `l` apart again |
| Canonical.EncodedDecodes | src/viewer/loaders/ext/exr_parser.js:274-278 | every table entry decodes to its symbol's length and code, and a zero length to code 0 |
| Canonical.CountLengths | src/viewer/loaders/ext/exr_parser.js:261-262 | the first two loops leave the number of symbols of each length l in hufTableBuffer[l] |
| Canonical.StartStep | src/viewer/loaders/ext/exr_parser.js:266-272 | one pass stores the first code of length i and computes that of length i - 1 |
| Canonical.StartCodes | src/viewer/loaders/ext/exr_parser.js:264-272 | the third loop leaves the first code of each length 1 .. 58 in hufTableBuffer |
| Canonical.AssignStep | src/viewer/loaders/ext/exr_parser.js:274-278 | one pass writes the symbol's entry and advances its length's next code |
| Canonical.AssignCodes | src/viewer/loaders/ext/exr_parser.js:274-278 | the last loop turns the lengths into CodeTable |
| Canonical.CanonicalCodeTable | src/viewer/loaders/ext/exr_parser.js:259-281 | hufCanonicalCodeTable turns the 65537 lengths into CodeTable of them |
| DecTable.ClearDecTable | src/viewer/loaders/ext/exr_parser.js:225-236 | every entry becomes `{len: 0, lit: 0, p: null}`, a table that is well chained and holds no symbol |
| DecTable.Fill | src/viewer/loaders/ext/exr_parser.js:403-422 | a finished fill keeps the table's size |
| DecTable.Place | src/viewer/loaders/ext/exr_parser.js:363-424 | one pass of the build keeps the table's size |
| DecTable.BuildFrom | src/viewer/loaders/ext/exr_parser.js:359-430 | a finished build keeps the table's size |
| DecTable.ExtendsTrans | src/viewer/loaders/ext/exr_parser.js:359-430 | keeping what a table holds is transitive over successive passes |
| DecTable.PlacedStays | src/viewer/loaders/ext/exr_parser.js:359-430 | a placed symbol stays placed in every table that keeps what this one holds |
| DecTable.FillPlaces | src/viewer/loaders/ext/exr_parser.js:403-422 | a finished fill keeps the table, lies inside it, and gives each of its k slots the code's length and symbol |
| DecTable.FillFrame | src/viewer/loaders/ext/exr_parser.js:407-422 | a finished fill changes no slot outside the k it fills |
| DecTable.FillFails | src/viewer/loaders/ext/exr_parser.js:407-422 | a fill fails exactly when one of its slots is outside the table or holds a code or a chain; the first such slot gives a TypeError outside the table and an invalid entry inside it |
| DecTable.PlaceFrame | src/viewer/loaders/ext/exr_parser.js:363-424 | a successful pass changes no slot but a long code's chain slot or a short code's filled slots |
| DecTable.PlaceFails | src/viewer/loaders/ext/exr_parser.js:363-424 | a pass fails exactly when the code has bits above its length, a long code's chain slot is outside the table or holds a short code, or a short code's slot is outside the table or taken |
| DecTable.PlacePlaces | src/viewer/loaders/ext/exr_parser.js:363-424 | a successful pass keeps the table and places the symbol: at every slot its short code starts, or chained on the slot of a long code's top 14 bits |
| DecTable.BuildPlaces | src/viewer/loaders/ext/exr_parser.js:359-430 | a successful hufBuildDecTable places every symbol im .. iM, and keeps what the table held |
| DecTable.FillKeeps | src/viewer/loaders/ext/exr_parser.js:403-422 | a fill keeps chains counted and symbols in range |
| DecTable.PlaceKeeps | src/viewer/loaders/ext/exr_parser.js:363-424 | one pass keeps chains counted (`lit` is the length of `p`) and symbols in range |
| DecTable.BuildKeeps | src/viewer/loaders/ext/exr_parser.js:359-430 | the build keeps every chain's count equal to its length and every symbol in lo .. hi |
| DecTable.FillSlots | src/viewer/loaders/ext/exr_parser.js:407-422 | the fill loop computes Fill: the same error, or the same table |
| DecTable.PlaceSymbol | src/viewer/loaders/ext/exr_parser.js:363-424 | one pass computes Place |
| DecTable.BuildDecTable | src/viewer/loaders/ext/exr_parser.js:359-430 | hufBuildDecTable computes BuildFrom |
| HufUncompress.ReadHufHeader | src/viewer/loaders/ext/exr_parser.js:786-793 | the header reads succeed exactly when 16 bytes remain, and leave the cursor 20 bytes on |
| HufUncompress.UnpackShaped | src/viewer/loaders/ext/exr_parser.js:805 | the lengths unpacked fit the 65537-entry table, and each is one the canonical pass counts |
| HufUncompress.EncTable | src/viewer/loaders/ext/exr_parser.js:801-805 | the encoding table has 65537 entries |
| HufUncompress.Cleared | src/viewer/loaders/ext/exr_parser.js:802-803 | the cleared decoding table has 16384 entries, is well chained and has its symbols in range |
| HufUncompress.TablesReady | src/viewer/loaders/ext/exr_parser.js:813-815 | a decoding table built from the encoding table is one hufDecode can use: chains counted, symbols inside the encoding table |
| HufUncompress.Uncompress | src/viewer/loaders/ext/exr_parser.js:781-820 | hufUncompress writes at most nRaw values, whatever the input |
| HufUncompress.DecodeTables | src/viewer/loaders/ext/exr_parser.js:813-819 | building the decoding table and decoding write at most nRaw values |
| HufUncompress.UncompressChecksRange | src/viewer/loaders/ext/exr_parser.js:795-799 | im or iM outside the table size throws before anything else is read |
| HufUncompress.TablesAgree | src/viewer/loaders/ext/exr_parser.js:801-815 | after a complete unpack and a successful build, every symbol with a length holds its canonical code in the encoding table and is placed in the decoding table at that code |
| HufUncompress.UnpackEncTable | src/viewer/loaders/ext/exr_parser.js:283-345 | hufUnpackEncTable into a fresh table fails exactly when Unpack does, with its error, and otherwise leaves EncTable and the cursor |
| HufUncompress.HufUncompressM | src/viewer/loaders/ext/exr_parser.js:781-820 | hufUncompress computes Uncompress: the same error, or the values written from offset 0 with the rest of the buffer unchanged |
| Common.Copies | src/viewer/loaders/ext/exr_parser.js:471-475 | n copies of v, used for the rlc run here and for a run-length chunk (exr_parser.js:893-897) |
| HufDecode.GetCode | src/viewer/loaders/ext/exr_parser.js:446-490 | getCode leaves getCodeReturn equal to the held bits it continues with, and never moves the cursor back |
| HufDecode.Index | src/viewer/loaders/ext/exr_parser.js:685 | the 14-bit index lies inside the decoding table |
| HufDecode.Refill | src/viewer/loaders/ext/exr_parser.js:711-718 | the refill loop never moves the cursor back |
| HufDecode.TryCode | src/viewer/loaders/ext/exr_parser.js:709-735 | trying one chained symbol never moves the cursor back |
| HufDecode.Search | src/viewer/loaders/ext/exr_parser.js:707-743 | the search over the chained symbols never moves the cursor back |
| HufDecode.InnerStep | src/viewer/loaders/ext/exr_parser.js:685-745 | one pass of the inner loop never moves the cursor back |
| HufDecode.Loop | src/viewer/loaders/ext/exr_parser.js:683-747 | a loop that ends leaves its condition false |
| HufDecode.Inner | src/viewer/loaders/ext/exr_parser.js:683-747 | the inner loop ends with fewer than 14 bits held and the cursor not moved back |
| HufDecode.InnerMovesOn | src/viewer/loaders/ext/exr_parser.js:683-747 | no pass of the inner loop moves the cursor back |
| HufDecode.Tail | src/viewer/loaders/ext/exr_parser.js:756-775 | the final loop ends with no bits held |
| HufDecode.LoopKeeps | src/viewer/loaders/ext/exr_parser.js:676-775 | an invariant every pass keeps holds when the loop ends |
| HufDecode.LoopStalls | src/viewer/loaders/ext/exr_parser.js:683-747 | a pass that leaves the state as it was repeats forever |
| HufDecode.GetCodeWithin | src/viewer/loaders/ext/exr_parser.js:446-490 | getCode only appends to what was written and never writes past the end offset |
| HufDecode.SearchWithin | src/viewer/loaders/ext/exr_parser.js:707-743 | the chained-symbol search only appends, within the end offset |
| HufDecode.TryWithin | src/viewer/loaders/ext/exr_parser.js:709-735 | trying one symbol only appends, within the end offset |
| HufDecode.InnerStepWithin | src/viewer/loaders/ext/exr_parser.js:685-745 | one pass of the inner loop only appends, within the end offset |
| HufDecode.TailStepWithin | src/viewer/loaders/ext/exr_parser.js:758-773 | one pass of the final loop only appends, within the end offset |
| HufDecode.InnerStaysWithin | src/viewer/loaders/ext/exr_parser.js:683-747 | every pass of the inner loop keeps the output an extension within the end offset |
| HufDecode.TailStaysWithin | src/viewer/loaders/ext/exr_parser.js:756-775 | every pass of the final loop keeps the output an extension within the end offset |
| HufDecode.InnerWithin | src/viewer/loaders/ext/exr_parser.js:683-747 | the inner loop only appends, within the end offset |
| HufDecode.TailWithin | src/viewer/loaders/ext/exr_parser.js:756-775 | the final loop only appends, within the end offset |
| HufDecode.OuterWithin | src/viewer/loaders/ext/exr_parser.js:676-749 | the outer loop only appends, within the end offset |
| HufDecode.Decode | src/viewer/loaders/ext/exr_parser.js:669-779 | hufDecode writes at most `no` values however the stream and the tables look |
| HufDecode.ShortIndex | src/viewer/loaders/ext/exr_parser.js:685-686 | when the next l <= 14 stream bits are a code, the 14-bit index falls among the slots that start with that code |
| HufDecode.ShlSmall | src/viewer/loaders/ext/exr_parser.js:402 | `code << k` does not wrap while the result stays within the table |
| HufDecode.ShortCodeDecodes | src/viewer/loaders/ext/exr_parser.js:685-697 | when the next l stream bits are the code of a placed, non-run symbol and there is room, one inner pass writes that symbol and moves l bits on, still in step |
| HufDecode.StallsWhenFull | src/viewer/loaders/ext/exr_parser.js:477-483 | once `no` values are written, a short code makes getCode fail and leave getCodeReturn as it was; when that is the current state the inner loop never ends |
| HufDecodeLoop.LoopPass | src/viewer/loaders/ext/exr_parser.js:683-747 | one pass of a loop that goes on: stop at its error or go on from its state |
| HufDecodeLoop.OuterPass | src/viewer/loaders/ext/exr_parser.js:676-749 | one pass of the outer loop is a getChar and then the inner loop |
| HufDecodeLoop.DecodeFails | src/viewer/loaders/ext/exr_parser.js:669-779 | an error in the loops is the error of hufDecode |
| HufDecodeLoop.DecodeEnds | src/viewer/loaders/ext/exr_parser.js:751-775 | after the loops, `(8 - nBits) & 7` padding bits are dropped and the final loop runs |
| HufDecodeLoop.CopyRun | src/viewer/loaders/ext/exr_parser.js:471-475 | the run loop writes cs copies of v after the values written and leaves the rest of the buffer |
| HufDecodeLoop.GetCodeM | src/viewer/loaders/ext/exr_parser.js:446-490 | getCode computes GetCode, and the buffer mirrors its output |
| HufDecodeLoop.RunM | src/viewer/loaders/ext/exr_parser.js:448-475 | the run-length symbol copies the last value as many times as the next 8 bits say, or writes nothing when the run would pass the output end |
| HufDecodeLoop.PutM | src/viewer/loaders/ext/exr_parser.js:477-485 | any other symbol is stored at the output cursor, or nothing is written at the output end |
| HufDecodeLoop.RefillM | src/viewer/loaders/ext/exr_parser.js:711-718 | the refill loop computes Refill |
| HufDecodeLoop.TryCodeM | src/viewer/loaders/ext/exr_parser.js:709-735 | trying one chained symbol computes TryCode |
| HufDecodeLoop.SearchM | src/viewer/loaders/ext/exr_parser.js:707-743 | the search loop computes Search |
| HufDecodeLoop.InnerStepM | src/viewer/loaders/ext/exr_parser.js:685-745 | one pass of the inner loop computes InnerStep |
| HufDecodeLoop.InnerM | src/viewer/loaders/ext/exr_parser.js:683-747 | the inner loop computes Inner |
| HufDecodeLoop.OuterM | src/viewer/loaders/ext/exr_parser.js:676-749 | the outer loop computes Outer |
| HufDecodeLoop.TailStepM | src/viewer/loaders/ext/exr_parser.js:758-773 | one pass of the final loop computes TailStep |
| HufDecodeLoop.TailM | src/viewer/loaders/ext/exr_parser.js:756-775 | the final loop computes Tail |
| HufDecodeLoop.HufDecodeM | src/viewer/loaders/ext/exr_parser.js:669-779 | hufDecode computes Decode, the buffer holds the decoded values followed by what it held before, and at most `no` values are written |
| Wavelet.UInt16 | src/viewer/loaders/ext/exr_parser.js:492-496 | the low 16 bits: equal to the value modulo 2^16, and the value itself when it is already 16-bit |
| Wavelet.Int16 | src/viewer/loaders/ext/exr_parser.js:498-503 | the signed 16-bit reading: in [-2^15, 2^15), equal modulo 2^16, and the value itself when already in range |
| Wavelet.Wdec14 | src/viewer/loaders/ext/exr_parser.js:507-521 | the decoded pair differs by the signed h and has the signed l as its floor mean |
| Wavelet.Wdec14Wenc14 | src/viewer/loaders/ext/exr_parser.js:507-521 | wdec14 undoes the 14-bit wavelet encoder on every pair of values below 2^14 |
| Wavelet.Wdec16 | src/viewer/loaders/ext/exr_parser.js:523-534 | both outputs are 16-bit, b = m - (d >> 1) and a = d + b - 2^15 modulo 2^16 |
| Wavelet.Wdec16Parts | src/viewer/loaders/ext/exr_parser.js:525-529 | on 16-bit inputs, b and a are the masked lifting steps |
| Wavelet.Wdec16Wenc16Up | src/viewer/loaders/ext/exr_parser.js:523-534 | wdec16 undoes the 16-bit encoder when the offset a is at least b |
| Wavelet.Wdec16Wenc16Down | src/viewer/loaders/ext/exr_parser.js:523-534 | wdec16 undoes the 16-bit encoder when the offset a is below b |
| Wavelet.Wdec16Wenc16 | src/viewer/loaders/ext/exr_parser.js:523-534 | wdec16 undoes the 16-bit wavelet encoder on every pair of 16-bit values |
| Wavelet.DecoderChoice | src/viewer/loaders/ext/exr_parser.js:538 | wdec14 is used exactly when the largest value is below 2^14 |
| Wavelet.At | src/viewer/loaders/ext/exr_parser.js:572 | a read inside the buffer is the stored value |
| Wavelet.TopExpFrom | src/viewer/loaders/ext/exr_parser.js:543 | the search ends at an exponent r <= 30 with 2^(r-1) <= n < 2^r |
| Wavelet.TopExp | src/viewer/loaders/ext/exr_parser.js:543 | the exponent of the least power of two above n, for n below 2^30 |
| Wavelet.Wav2 | src/viewer/loaders/ext/exr_parser.js:536-667 | wav2Decode fails, by not ending, exactly when min(nx, ny) >= 2^30; a plane with fewer than two rows or columns is left as it is |
| Wavelet.StepsAt | src/viewer/loaders/ext/exr_parser.js:552-556 | with positive strides the level's steps are positive, so its loops end |
| Wavelet.OneLevelSame | src/viewer/loaders/EXRLoader_bad.ts:518 | when min(nx, ny) < 4 the port's single `py` and the parser's per-level `py` give the same result |
| Wavelet.PutSame | src/viewer/loaders/ext/exr_parser.js:584-590 | storing the value already there, or a store past the end, leaves the buffer unchanged |
| Wavelet.QuadOfZeros | src/viewer/loaders/ext/exr_parser.js:570-590 | a 2x2 step on four zeros leaves the buffer unchanged when the decoder maps (0, 0) to (0, 0) |
| Wavelet.QuadFrame | src/viewer/loaders/ext/exr_parser.js:570-612 | a 2x2 step keeps the length and every value outside its four places |
| Wavelet.CoarseLevelIdle | src/viewer/loaders/ext/exr_parser.js:549-663 | on the example plane the coarse level meets only zeros and stops its row loop at 16 |
| Wavelet.PortFineLevelIdle | src/viewer/loaders/EXRLoader_bad.ts:505-635 | from py = 16 the port's fine level touches nothing on a 16-value buffer |
| Wavelet.FirstFineQuad | src/viewer/loaders/ext/exr_parser.js:564-590 | the first fine 2x2 step turns the detail coefficient into the pixels 1 and -1 |
| Wavelet.ParserFineLevel | src/viewer/loaders/ext/exr_parser.js:549-663 | from py = 0 the parser's fine level decodes the detail at index 1 and keeps the length |
| Wavelet.TwoLevels | src/viewer/loaders/ext/exr_parser.js:549-663 | the port's two levels leave the example buffer as it was; the parser's write 0xFFFF at index 1 |
| Wavelet.PortSkipsFinestLevel | src/viewer/loaders/EXRLoader_bad.ts:518 | the port's `py`, declared once outside the level loop, makes it skip the finest level on a 4x4 plane, where the parser decodes it |
| Wavelet.Wav2OfGrid | src/viewer/loaders/ext/exr_parser.js:538-547 | a 4x4 plane with largest value 2 has two levels, decoded with wdec14 |
| Wavelet.Load | src/viewer/loaders/ext/exr_parser.js:572 | a load of the typed array is its sequence model's read |
| Wavelet.Store | src/viewer/loaders/ext/exr_parser.js:584 | a store of the typed array is its sequence model's update |
| Wavelet.DecodeQuad | src/viewer/loaders/ext/exr_parser.js:566-612 | one 2x2 step in place computes Quad |
| Wavelet.DecodeDuo | src/viewer/loaders/ext/exr_parser.js:621-631 | one two-point edge step in place computes Duo |
| Wavelet.ColsBody | src/viewer/loaders/ext/exr_parser.js:564-617 | one pass of the column loop keeps the remaining loop's result |
| Wavelet.DecodeCols | src/viewer/loaders/ext/exr_parser.js:561-617 | the column loop computes ColsFrom and returns where it stopped |
| Wavelet.DecodeRow | src/viewer/loaders/ext/exr_parser.js:559-635 | one row of a level computes RowAt |
| Wavelet.RowsBody | src/viewer/loaders/ext/exr_parser.js:559-635 | one pass of the row loop keeps the remaining loop's result |
| Wavelet.DecodeRows | src/viewer/loaders/ext/exr_parser.js:559-635 | the row loop computes RowsFrom and returns where it stopped |
| Wavelet.EdgeBody | src/viewer/loaders/ext/exr_parser.js:642-656 | one pass of the bottom-row loop keeps the remaining loop's result |
| Wavelet.DecodeEdge | src/viewer/loaders/ext/exr_parser.js:637-658 | the bottom-row loop computes EdgeFrom |
| Wavelet.DecodeLevel | src/viewer/loaders/ext/exr_parser.js:551-658 | the body of the level loop computes Level |
| Wavelet.DecodeLevels | src/viewer/loaders/ext/exr_parser.js:549-663 | the level loop computes LevelsFrom, p halving from 2^(count-1) to 1 |
| Wavelet.TopPower | src/viewer/loaders/ext/exr_parser.js:540-543 | the first loop ends exactly when n < 2^30, with the least power of two above n; otherwise it never ends |
| Wavelet.Halves | src/viewer/loaders/ext/exr_parser.js:545-547 | the halvings give p = 2^(e-2), p2 = 2p when e >= 2 and p = 0 otherwise |
| Wavelet.Wav2Decode | src/viewer/loaders/ext/exr_parser.js:536-667 | wav2Decode transforms the buffer in place into Wav2 of its old contents, and fails exactly when Wav2 diverges |
| PizLut.ReadBitmap | src/viewer/loaders/ext/exr_parser.js:1369-1386 | a read bitmap is BITMAP_SIZE bytes long |
| PizLut.BitmapTooLarge | src/viewer/loaders/ext/exr_parser.js:1372-1376 | a maximum of BITMAP_SIZE or more is refused once both bounds are read |
| PizLut.BitmapHolds | src/viewer/loaders/ext/exr_parser.js:1369-1386 | the bitmap holds the file's bytes in minNonZero .. maxNonZero and zeros elsewhere, and the cursor moves past them |
| PizLut.ReadBitmapM | src/viewer/loaders/ext/exr_parser.js:1369-1386 | the bounds and the bitmap loop over the fresh bitmap compute ReadBitmap, the same error included |
| PizLut.ReadRange | src/viewer/loaders/ext/exr_parser.js:1380-1384 | the byte loop succeeds exactly when the bytes are there, else a RangeError; it copies them to minNonZero on |
| PizLut.KeptBelow | src/viewer/loaders/ext/exr_parser.js:207-215 | the kept values below i are increasing, start with 0 and lie below i |
| PizLut.Lut | src/viewer/loaders/ext/exr_parser.js:203-223 | the reverse table has USHORT_RANGE entries |
| PizLut.KeptExactly | src/viewer/loaders/ext/exr_parser.js:209 | a value below i is kept exactly when it is 0 or its bitmap bit is set |
| PizLut.KeptPrefix | src/viewer/loaders/ext/exr_parser.js:207-215 | the kept values below i start the kept values below any later j |
| PizLut.LutShape | src/viewer/loaders/ext/exr_parser.js:203-223 | entries 0 .. n are exactly the admitted values, strictly increasing from 0, and all later entries are 0 |
| PizLut.Rank | src/viewer/loaders/ext/exr_parser.js:211 | the rank of v is at most v |
| PizLut.RankFinds | src/viewer/loaders/ext/exr_parser.js:203-223 | a kept value sits in the table at its rank, at most n |
| PizLut.ForwardLut | src/viewer/loaders/ext/exr_parser.js:203-223 | the writer's forward table has USHORT_RANGE entries |
| PizLut.ForwardInRange | src/viewer/loaders/ext/exr_parser.js:1390 | the forward table maps into 0 .. maxValue, the range wav2Decode is told about |
| PizLut.Applied | src/viewer/loaders/ext/exr_parser.js:822-830 | applyLut keeps the length of the data |
| PizLut.LutRoundTrip | src/viewer/loaders/ext/exr_parser.js:822-830 | mapping the values that occur to their ranks and back through the reverse table gives them back |
| PizLut.ReverseLutFromBitmap | src/viewer/loaders/ext/exr_parser.js:203-223 | reverseLutFromBitmap fills lut with Lut of the bitmap and returns the largest rank |
| PizLut.FillZeros | src/viewer/loaders/ext/exr_parser.js:219 | the closing loop zeroes the table from k on and keeps what is before |
| PizLut.ApplyLut | src/viewer/loaders/ext/exr_parser.js:822-830 | applyLut in place computes Applied |
| Piz.Starts | src/viewer/loaders/ext/exr_parser.js:1354-1365 | one start per channel |
| Piz.ChannelPlanes | src/viewer/loaders/ext/exr_parser.js:1352-1365 | the setup loop gives each channel's start as the sum of the planes before it and outBufferEnd as the sum of all |
| Piz.PlanesFit | src/viewer/loaders/ext/exr_parser.js:1348-1365 | with lines <= blockSize the planes end inside outBuffer |
| Piz.Wav2Idle | src/viewer/loaders/ext/exr_parser.js:536-667 | a plane with fewer than two rows or columns passes wav2Decode unchanged |
| Piz.PlaneWaveletsIdle | src/viewer/loaders/ext/exr_parser.js:1402-1414 | the word loop of such a plane changes nothing |
| Piz.WaveletsIdle | src/viewer/loaders/ext/exr_parser.js:1398-1416 | a block of a single row or column passes the wavelet stage unchanged |
| Piz.PlaneWaveletsAgree | src/viewer/loaders/EXRLoader_bad.ts:1369-1381 | with fewer than four rows or columns the two loaders' word loops agree |
| Piz.WaveletsAgree | src/viewer/loaders/EXRLoader_bad.ts:1365-1383 | with fewer than four rows or columns the two loaders' wavelet stages agree |
| Piz.PlaneWaveletsM | src/viewer/loaders/ext/exr_parser.js:1402-1414 | the word loop computes PlaneWavelets, the same error included |
| Piz.ChannelWaveletsM | src/viewer/loaders/ext/exr_parser.js:1398-1416 | the channel loop computes ChannelWavelets, the same error included |
| Piz.Run | src/viewer/loaders/ext/exr_parser.js:1431 | inside the buffer a run is the n words from its cursor |
| Piz.RowRuns | src/viewer/loaders/ext/exr_parser.js:1426-1437 | one run of n words per channel |
| Piz.Advance | src/viewer/loaders/ext/exr_parser.js:1435 | one cursor per channel |
| Piz.Layout | src/viewer/loaders/ext/exr_parser.js:1424-1439 | rows*channels runs of n words |
| Piz.LayoutAt | src/viewer/loaders/ext/exr_parser.js:1424-1439 | run y*channels + c is channel c's run y rows on |
| Piz.RelaidAt | src/viewer/loaders/ext/exr_parser.js:1424-1439 | word j of run y*channels + c is word j of channel c's run in row y |
| Piz.RelaidPlacement | src/viewer/loaders/ext/exr_parser.js:1422-1439 | word (y*channels + c)*n + j of the relayout is word c*plane + y*n + j of outBuffer |
| Piz.RelaidLength | src/viewer/loaders/ext/exr_parser.js:1422-1439 | the relayout holds lines*channels runs of n words |
| Piz.RelayoutInside | src/viewer/loaders/ext/exr_parser.js:1431 | every run the relayout reads lies inside outBuffer |
| Piz.FitsAdvance | src/viewer/loaders/ext/exr_parser.js:1435 | room for m words is room for n now and for m - n after the cursors move |
| Piz.RelayRow | src/viewer/loaders/ext/exr_parser.js:1426-1437 | one row of the relayout copies each channel's next n words and moves each cursor n on |
| Piz.LayoutStep | src/viewer/loaders/ext/exr_parser.js:1424-1439 | the relayout is one row's runs followed by the rest from the moved cursors |
| Piz.Relayout | src/viewer/loaders/ext/exr_parser.js:1424-1439 | the relayout loop computes Layout |
| Piz.Decoded | src/viewer/loaders/ext/exr_parser.js:1395 | outBuffer keeps its length after hufUncompress |
| Piz.Pad | src/viewer/loaders/ext/exr_parser.js:1423-1433 | the fresh tmpBuffer holds the set bytes, then zeros |
| Piz.PizBitmapTooLarge | src/viewer/loaders/ext/exr_parser.js:1372-1376 | a block whose bitmap claims values from 65536 on is refused |
| Piz.RelaidFits | src/viewer/loaders/ext/exr_parser.js:1423-1441 | the relayout's bytes open tmpBuffer and zeros follow them |
| Piz.DecodedHolds | src/viewer/loaders/ext/exr_parser.js:1348-1395 | outBuffer after hufUncompress over the fresh buffer is Decoded of what was written |
| Piz.ReconstructM | src/viewer/loaders/ext/exr_parser.js:1397-1441 | the wavelet loop, applyLut and the relayout over the typed arrays compute Reconstruct |
| Piz.PizTables | src/viewer/loaders/ext/exr_parser.js:1367-1392 | the bitmap's error, or the length after it, a fresh table equal to Lut of the bitmap, and maxValue |
| Piz.UncompressPizM | src/viewer/loaders/ext/exr_parser.js:1343-1443 | uncompressPIZ over the typed arrays computes UncompressPiz |
| Piz.DecodePizM | src/viewer/loaders/ext/exr_parser.js:1393-1443 | hufUncompress into the fresh outBuffer and the stages after it compute DecodePiz |
| Piz.UncompressPiz | src/viewer/loaders/ext/exr_parser.js:1343-1443 | a decoded block is 2*width*blockSize*channels*type bytes |
| Piz.DecodePiz | src/viewer/loaders/ext/exr_parser.js:1393-1443 | the stages after the bitmap give the 2*total bytes of the block |
| Piz.Reconstruct | src/viewer/loaders/ext/exr_parser.js:1397-1441 | the wavelet loop, applyLut and the relayout give the 2*total bytes of the block |
| Pxr24.Wrap | src/viewer/loaders/ext/exr_parser.js:1484 | a store into the typed array lands in the element's range |
| Pxr24.RunFrom | src/viewer/loaders/ext/exr_parser.js:1478-1487 | a run from column j has w - j samples |
| Pxr24.RunList | src/viewer/loaders/ext/exr_parser.js:1464-1515 | one run per (row, channel) |
| Pxr24.PiecesAt | src/viewer/loaders/ext/exr_parser.js:1474-1476 | piece k starts k strides after the first |
| Pxr24.RunListAt | src/viewer/loaders/ext/exr_parser.js:1474-1496 | run k decodes the planes starting k run strides on, its sum restarting at 0 |
| Pxr24.RunListUniform | src/viewer/loaders/ext/exr_parser.js:1478-1507 | every run has width samples |
| Pxr24.RunsLength | src/viewer/loaders/ext/exr_parser.js:1457-1458 | count runs hold count*width samples |
| Pxr24.PxrSamples | src/viewer/loaders/ext/exr_parser.js:1457-1515 | a negative length is a RangeError; otherwise there are lines*channels*width samples |
| Pxr24.RunFromAt | src/viewer/loaders/ext/exr_parser.js:1478-1487 | sample i of a run is the wrapped sum of its first i + 1 differences |
| Pxr24.RunsAt | src/viewer/loaders/ext/exr_parser.js:1464-1515 | sample (run k, column j) is the wrapped sum of the first j + 1 differences of run k, whose planes start k strides on |
| Pxr24.RunFromStep | src/viewer/loaders/ext/exr_parser.js:1480-1485 | a run is its first wrapped sum followed by the rest from the new sum |
| Pxr24.DeltaAt | src/viewer/loaders/ext/exr_parser.js:1480-1500 | the difference is the two plane bytes as a big-endian 16-bit value for half, and three plane bytes shifted left by 8 as a signed 32-bit value for float, missing bytes read as 0 |
| Pxr24.RunsStep | src/viewer/loaders/ext/exr_parser.js:1466-1513 | the runs are the first run followed by the runs from the next stride |
| Pxr24.DecodeRun | src/viewer/loaders/ext/exr_parser.js:1478-1507 | the innermost loop appends RunFrom of its planes after what was written |
| Pxr24.RunStep | src/viewer/loaders/ext/exr_parser.js:1480-1485 | one pass stores the next sample of the run |
| Pxr24.DecodeRow | src/viewer/loaders/ext/exr_parser.js:1466-1513 | the channel loop writes one run per channel, in order |
| Pxr24.ChannelStep | src/viewer/loaders/ext/exr_parser.js:1468-1511 | one pass of the channel loop writes the run whose planes start at tmpBufferEnd |
| Pxr24.DecodeRows | src/viewer/loaders/ext/exr_parser.js:1464-1515 | the row loop fills the typed array with Runs |
| Pxr24.UncompressPxrSamples | src/viewer/loaders/ext/exr_parser.js:1457-1515 | the loops over a fresh typed array compute PxrSamples |
| Pxr24.DeltaOfEncoded | src/viewer/loaders/ext/exr_parser.js:1480-1500 | a difference read from encoded planes is congruent to the difference of the samples |
| Pxr24.DeltaOfEncodedHalf | src/viewer/loaders/ext/exr_parser.js:1480 | the same, for half planes |
| Pxr24.DeltaOfEncodedFloat | src/viewer/loaders/ext/exr_parser.js:1500 | the same, for float planes of samples with a zero low byte |
| Pxr24.StepCongruent | src/viewer/loaders/ext/exr_parser.js:1482-1484 | adding a congruent difference stores the next sample |
| Pxr24.RunFromEncoded | src/viewer/loaders/ext/exr_parser.js:1478-1507 | from a sum congruent to the previous sample, decoding gives back the remaining samples |
| Pxr24.RunRoundTrip | src/viewer/loaders/ext/exr_parser.js:1464-1515 | PXR24 decoding inverts the encoding of a run |
| Pxr24.UncompressPxr | src/viewer/loaders/ext/exr_parser.js:1445-1519 | an inflate failure is an error; success means the samples decoded, their little-endian bytes 2 or 4 per sample |
| Scanline.Int8 | src/viewer/loaders/ext/exr_parser.js:872 | getInt8 is the signed reading of the byte |
| Scanline.DecodeRunLength | src/viewer/loaders/ext/exr_parser.js:862-905 | the loop computes RunLength |
| Scanline.ThenAppend | src/viewer/loaders/ext/exr_parser.js:865 | appending output in two steps is appending it once |
| Scanline.RunLengthSuffix | src/viewer/loaders/ext/exr_parser.js:870-901 | decoding does not look at the bytes before its start |
| Scanline.ChunkRoundTrip | src/viewer/loaders/ext/exr_parser.js:872-899 | a valid literal or run chunk decodes to its expansion, whatever follows |
| Scanline.RunLengthRoundTrip | src/viewer/loaders/ext/exr_parser.js:862-905 | decodeRunLength inverts the run-length encoding of any valid chunk list |
| Scanline.RunLengthBound | src/viewer/loaders/ext/exr_parser.js:870-901 | decoding from p fails only with a RangeError, and each byte from p on expands to at most 64 |
| Scanline.RunLength | src/viewer/loaders/ext/exr_parser.js:862-905 | decodeRunLength only fails with a RangeError, and its output is at most 64 times its input |
| Scanline.UndiffDiff | src/viewer/loaders/ext/exr_parser.js:836-837 | the predictor step and the differencing step undo each other |
| Scanline.PredictFrom | src/viewer/loaders/ext/exr_parser.js:834-839 | the predictor keeps the length |
| Scanline.Predicted | src/viewer/loaders/ext/exr_parser.js:832-841 | the predictor keeps the length |
| Scanline.Differenced | src/viewer/loaders/ext/exr_parser.js:832-841 | the differencing keeps the length |
| Scanline.PredictFromAt | src/viewer/loaders/ext/exr_parser.js:834-839 | byte t is undone from the output before it |
| Scanline.PredictedAt | src/viewer/loaders/ext/exr_parser.js:832-841 | byte 0 is kept and byte t is (out[t-1] + in[t] - 128) mod 256 |
| Scanline.PredictFromDiffFrom | src/viewer/loaders/ext/exr_parser.js:834-839 | predicting and differencing from the same byte undo each other |
| Scanline.PredictedDifferenced | src/viewer/loaders/ext/exr_parser.js:832-841 | the predictor undoes the differencing and the differencing the predictor |
| Scanline.Predictor | src/viewer/loaders/ext/exr_parser.js:832-841 | predictor in place computes Predicted |
| Scanline.PredictorStep | src/viewer/loaders/ext/exr_parser.js:836-837 | one pass of the predictor loop undoes byte t |
| Scanline.Interleaved | src/viewer/loaders/ext/exr_parser.js:843-860 | the interleave keeps the length |
| Scanline.Deinterleaved | src/viewer/loaders/ext/exr_parser.js:843-860 | the split keeps the length |
| Scanline.DeinterleavedInterleaved | src/viewer/loaders/ext/exr_parser.js:843-860 | the split undoes the interleave |
| Scanline.InterleavedDeinterleaved | src/viewer/loaders/ext/exr_parser.js:843-860 | the interleave undoes the split |
| Scanline.Weave | src/viewer/loaders/ext/exr_parser.js:850-858 | the merge of the halves has both their lengths |
| Scanline.WeaveAt | src/viewer/loaders/ext/exr_parser.js:850-858 | even positions come from the first half, odd ones from the second |
| Scanline.WeaveMultiset | src/viewer/loaders/ext/exr_parser.js:850-858 | the merge keeps every byte of both halves |
| Scanline.InterleavedPermutes | src/viewer/loaders/ext/exr_parser.js:843-860 | the interleave is a permutation |
| Scanline.InterleavedUpToStep | src/viewer/loaders/ext/exr_parser.js:853-856 | one store extends the interleaved prefix |
| Scanline.InterleavedUpToAll | src/viewer/loaders/ext/exr_parser.js:843-860 | a complete prefix is the interleave |
| Scanline.InterleaveScalar | src/viewer/loaders/ext/exr_parser.js:843-860 | interleaveScalar into a fresh array computes Interleaved |
| Scanline.Reordered | src/viewer/loaders/EXRLoader_bad.ts:811-827 | the reordered block keeps the raw length |
| Scanline.Reorder | src/viewer/loaders/ext/exr_parser.js:1311-1316 | the predictor and the interleave over arrays compute Reordered; the port's `while (s > stop)` never stores, leaving its output all zero |
| Scanline.UncompressRle | src/viewer/loaders/ext/exr_parser.js:1307-1320 | success means the clamped slice run-length decodes, and the block is its reordering |
| Scanline.UncompressZip | src/viewer/loaders/ext/exr_parser.js:1322-1341 | an inflate failure is an error; success keeps the inflated length |
| Decoder.CodecOf | src/viewer/loaders/ext/exr_parser.js:2154-2199 | an unknown compression name is refused as unsupported |
| Decoder.BlockLines | src/viewer/loaders/ext/exr_parser.js:2154-2201 | every block has at least one line |
| Decoder.BlockCount | src/viewer/loaders/ext/exr_parser.js:2242-2245 | the loop over a real-valued blockCount runs a whole number of times |
| Decoder.BlockCountCovers | src/viewer/loaders/ext/exr_parser.js:2242-2245 | the line-offset entries skipped are the least number of blocks that cover yMax + 1 lines |
| Decoder.SkipOffsets | src/viewer/loaders/ext/exr_parser.js:2244-2245 | the skip loop computes SkipTable over BlockCount entries |
| Decoder.DataWindow | src/viewer/loaders/ext/exr_parser.js:2141-2142 | a data window read is a box |
| Decoder.Setup | src/viewer/loaders/ext/exr_parser.js:2134-2294 | a decoder is made only for half or float samples and has a block height of at least 1 |
| Decoder.SetupDecoder | src/viewer/loaders/ext/exr_parser.js:2134-2294 | setupDecoder computes Setup |
| Decoder.CodecLines | src/viewer/loaders/ext/exr_parser.js:2154-2199 | exactly the eight names are accepted, with block heights 1, 16, 32 and 256 as listed |
| Decoder.SetupShape | src/viewer/loaders/ext/exr_parser.js:2203-2251 | a set-up decoder has half or float samples, four output channels exactly when the file has three, and the line-offset table skipped |
| Decoder.PixelTypeRefused | src/viewer/loaders/ext/exr_parser.js:2236-2240 | a first channel whose pixel type is not half or float, or has no pixel type at all, is refused once the compression is known |
| Decoder.ChannelsOf | src/viewer/loaders/ext/exr_parser.js:2143-2147 | a channel list that is read is not empty |
| Decoder.CompressionOf | src/viewer/loaders/ext/exr_parser.js:2154-2199 | every failure is the unsupported-compression throw, and a codec comes only from a compression name |
| Decoder.ChannelsReadable | src/viewer/loaders/ext/exr_parser.js:2143-2147 | a first pixel type is read without a TypeError exactly from a non-empty channel list, string, v2f or v3f, or from a rational or timecode; only a channel list gives one, and it gives the list itself |
| Decoder.CompressionAccepted | src/viewer/loaders/ext/exr_parser.js:2154-2199 | a compression is accepted exactly when it is a string naming one of the switch's cases; anything else is refused as unsupported |
| Decoder.OutputTypeDivergence | src/viewer/loaders/EXRLoader_bad.ts:2202-2219 | on another output type the port throws where the parser goes on with no reader, no line size and no output array; otherwise the two agree |
| Buffers.Filled | src/viewer/loaders/ext/exr_parser.js:2256-2260 | n cells of the fill value |
| Buffers.Store | src/viewer/loaders/ext/exr_parser.js:2462-2468 | a typed-array store keeps every array's length |
| Buffers.StoreOneCell | src/viewer/loaders/ext/exr_parser.js:2462-2468 | a store changes exactly the one cell it lands on, in the one array it targets; a write outside the array is dropped |
| Buffers.Snap | src/viewer/loaders/ext/exr_parser.js:2419 | the snapshot has the arrays' lengths |
| Buffers.Put | src/viewer/loaders/ext/exr_parser.js:2462-2468 | one typed-array write computes Store |
| Grouping.Pattern | src/viewer/loaders/ext/exr_parser.js:2329-2334 | each pattern is two to four lower-case letters |
| Grouping.MatchFrom | src/viewer/loaders/ext/exr_parser.js:2347-2364 | the only failure of the inner loop is a TypeError |
| Grouping.TryGroups | src/viewer/loaders/ext/exr_parser.js:2343-2371 | an answer is a pattern no longer than the channels left |
| Grouping.TestGroup | src/viewer/loaders/ext/exr_parser.js:2342-2372 | an answer is a pattern that fits in the channels left; the only failure is a TypeError |
| Grouping.MatchFromBounded | src/viewer/loaders/ext/exr_parser.js:2348 | an accepted match has all its channels present |
| Grouping.MatchFromCases | src/viewer/loaders/ext/exr_parser.js:2347-2364 | the inner loop accepts exactly a full match and crashes exactly on channels that are a proper prefix of the pattern |
| Grouping.FirstMatch | src/viewer/loaders/ext/exr_parser.js:2343-2371 | the first full match is among the patterns from i |
| Grouping.TryGroupsStep | src/viewer/loaders/ext/exr_parser.js:2343-2370 | a full match answers, a truncated one crashes, anything else tries the next pattern |
| Grouping.TryGroupsFirst | src/viewer/loaders/ext/exr_parser.js:2343-2371 | an answer is the first full match |
| Grouping.TryGroupsCrashWhy | src/viewer/loaders/ext/exr_parser.js:2348-2353 | a crash means the channels run out inside a pattern before any full match |
| Grouping.TryGroupsCrashes | src/viewer/loaders/ext/exr_parser.js:2348-2353 | such channels do crash |
| Grouping.MatchesNotTruncates | src/viewer/loaders/ext/exr_parser.js:2347-2364 | no channel list both matches and truncates a pattern |
| Grouping.TryGroupsCrash | src/viewer/loaders/ext/exr_parser.js:2343-2371 | test_group crashes if and only if the channels run out inside a pattern before any full match |
| Grouping.TestGroupSpec | src/viewer/loaders/ext/exr_parser.js:2342-2372 | test_group answers the first full match and crashes exactly on a truncated pattern before it |
| Grouping.FirstMatchPriority | src/viewer/loaders/ext/exr_parser.js:2343-2371 | the first match is matched in full and no earlier pattern is |
| Grouping.GroupExampleRgb | src/viewer/loaders/ext/exr_parser.js:2331 | B, G, R form an RGB group |
| Grouping.GroupExampleShortTail | src/viewer/loaders/ext/exr_parser.js:2348-2353 | a B, G tail crashes test_group |
| Grouping.GroupExampleAlpha | src/viewer/loaders/ext/exr_parser.js:2348-2353 | a lone A crashes test_group |
| Grouping.GroupExampleLuminance | src/viewer/loaders/ext/exr_parser.js:2371 | a lone Y is a group of its own |
| Grouping.GroupLength | src/viewer/loaders/ext/exr_parser.js:2383 | a group has one to four channels |
| Grouping.Slots | src/viewer/loaders/ext/exr_parser.js:2397-2414 | one slot per channel of the group |
| Grouping.Cons | src/viewer/loaders/ext/exr_parser.js:2381-2432 | a failure later in the loop is the loop's failure |
| Grouping.Tests | src/viewer/loaders/ext/exr_parser.js:2382 | the test results have the shape test_group gives |
| Grouping.GroupFromCovers | src/viewer/loaders/ext/exr_parser.js:2381-2432 | one slot per channel; a failure is a test_group crash at some channel |
| Grouping.SlotsLetters | src/viewer/loaders/ext/exr_parser.js:2397-2403 | each letter of a matched pattern gets its place in a pixel: r, g, b, a; x, y, z; u, v |
| Grouping.EntryNames | src/viewer/loaders/ext/exr_parser.js:2384-2410 | an unmatched channel is a group of one named after it at offset 0; a matched run is named id + "." + label, and three channels widen to four |
| Grouping.GroupHead | src/viewer/loaders/ext/exr_parser.js:2381-2432 | the first group is test_group's entry and slots, and the loop goes on after its run |
| Grouping.GroupMatch | src/viewer/loaders/ext/exr_parser.js:2382-2414 | a matched group is the first full match and its channels sit at their letters' places |
| Grouping.SlotsShape | src/viewer/loaders/ext/exr_parser.js:2397-2414 | a group's slots are in that group, within its length, and distinct |
| Grouping.ConsFits | src/viewer/loaders/ext/exr_parser.js:2381-2432 | a new group keeps the slots fitting and distinct |
| Grouping.GroupFromFits | src/viewer/loaders/ext/exr_parser.js:2381-2432 | the slots fit their groups and no two coincide |
| Grouping.Grouped | src/viewer/loaders/ext/exr_parser.js:2374-2432 | one slot per channel, each a cell of its group's pixel to itself; the only failure is test_group's TypeError |
| Grouping.AfterCons | src/viewer/loaders/ext/exr_parser.js:2385-2413 | pushing a group onto the made ones is putting it in front of the rest |
| Grouping.AfterStep | src/viewer/loaders/ext/exr_parser.js:2381-2432 | one turn of the loop pushes the entry and the slots and moves on by the group's length |
| Grouping.AfterNothing | src/viewer/loaders/ext/exr_parser.js:2374-2377 | with nothing made, the result is the loop's |
| Grouping.AfterDone | src/viewer/loaders/ext/exr_parser.js:2381 | with no channels left, the result is what was made |
| Grouping.PushSlots | src/viewer/loaders/ext/exr_parser.js:2397-2414 | the sequenceArray loops push the group's slots |
| Grouping.Fill | src/viewer/loaders/ext/exr_parser.js:2417-2422 | a group's array has width*height*length cells |
| Grouping.NewBuffer | src/viewer/loaders/ext/exr_parser.js:2417-2422 | a fresh group array is zeros, or ones for four channels |
| Grouping.GroupAccFrom | src/viewer/loaders/ext/exr_parser.js:2381-2432 | the running loop ends where the grouping from i on, after the groups made, does |
| Grouping.TestIs | src/viewer/loaders/ext/exr_parser.js:2382 | test k is test_group on the channels from k |
| Grouping.TestsAll | src/viewer/loaders/ext/exr_parser.js:2382 | the test results are test_group's from every index |
| Grouping.TestAt | src/viewer/loaders/ext/exr_parser.js:2382 | test_group on the slice from i |
| Grouping.GroupChannels | src/viewer/loaders/ext/exr_parser.js:2374-2432 | the grouping loop computes Grouped, with one fresh distinct array per group for a Float output |
| Grouping.GroupTurn | src/viewer/loaders/ext/exr_parser.js:2382-2414 | one turn pushes an entry and keeps the loop's result |
| Grouping.AddBuffer | src/viewer/loaders/ext/exr_parser.js:2416-2428 | a Float output gets one fresh array per group, all distinct |
| Grouping.GroupLoop | src/viewer/loaders/ext/exr_parser.js:2381-2432 | the loop computes GroupAcc from nothing made |
| ChannelSort.CompareText | src/viewer/loaders/ext/exr_parser.js:2317-2318 | three-way code-unit comparison: 0 exactly on equal strings, 1 and -1 by the order |
| ChannelSort.CompareNull | src/viewer/loaders/ext/exr_parser.js:2320-2325 | null against a string compares 0 with the number the string reads as |
| ChannelSort.CompareSuffix | src/viewer/loaders/ext/exr_parser.js:2320-2325 | the suffix comparison is three-way, 0 on equal suffixes and on two missing ones |
| ChannelSort.Compare | src/viewer/loaders/ext/exr_parser.js:2316-2326 | the comparator is three-way and orders by id first |
| ChannelSort.CompareAntisymmetric | src/viewer/loaders/ext/exr_parser.js:2316-2326 | the comparator flips sign when its arguments swap |
| ChannelSort.CompareNotTransitive | src/viewer/loaders/ext/exr_parser.js:2320-2325 | with a missing suffix the comparator is not transitive |
| ChannelSort.CompareUnderflow | src/viewer/loaders/ext/exr_parser.js:2320-2325 | channels "x" and "x.1e-400" compare 0 both ways, because null compared with "1e-400" is null compared with 0 |
| ChannelSort.CompareAntisymmetricAll | src/viewer/loaders/ext/exr_parser.js:2316-2326 | the comparator is antisymmetric on all channels |
| ChannelSort.Insert | src/viewer/loaders/ext/exr_parser.js:2316 | an insertion adds one element |
| ChannelSort.Sort | src/viewer/loaders/ext/exr_parser.js:2316 | the sort keeps the length |
| ChannelSort.InsertPermutes | src/viewer/loaders/ext/exr_parser.js:2316 | an insertion keeps every element and adds one |
| ChannelSort.InsertSorted | src/viewer/loaders/ext/exr_parser.js:2316 | an insertion keeps the sequence sorted |
| ChannelSort.SortPermutes | src/viewer/loaders/ext/exr_parser.js:2316 | the sort permutes the channels |
| ChannelSort.SortSorted | src/viewer/loaders/ext/exr_parser.js:2316 | the sort leaves neighbours in comparator order |
| ChannelSort.SortKeepsOrdered | src/viewer/loaders/ext/exr_parser.js:2316 | an ordered list stays as it is |
| ChannelSort.SortIdempotent | src/viewer/loaders/ext/exr_parser.js:2316 | sorting twice is sorting once |
| ChannelSort.SortedChannels | src/viewer/loaders/ext/exr_parser.js:2315-2326 | the sorted channels are a permutation, sorted by the comparator |
| ChannelSort.LocallySortedIds | src/viewer/loaders/ext/exr_parser.js:2317-2318 | neighbours in comparator order have ordered ids |
| ChannelSort.IdsChain | src/viewer/loaders/ext/exr_parser.js:2317-2318 | ids ordered between neighbours are ordered throughout |
| ChannelSort.SortOrdersIds | src/viewer/loaders/ext/exr_parser.js:2316-2326 | after the sort the ids are in order whatever the suffixes |
| ChannelSort.PermutedSuffixed | src/viewer/loaders/ext/exr_parser.js:2320 | a permutation of suffixed channels is suffixed |
| ChannelSort.SortOrdersSuffixes | src/viewer/loaders/ext/exr_parser.js:2320-2323 | with all suffixes present the channels are in (id, suffix) order |
| ChannelSort.SortedChannelsIdempotent | src/viewer/loaders/ext/exr_parser.js:2316-2326 | sorting the sorted channels changes nothing |
| ChannelSort.InsertAtPlace | src/viewer/loaders/ext/exr_parser.js:2316 | the insertion puts x after the last element not above it |
| ChannelSort.ShiftUp | src/viewer/loaders/ext/exr_parser.js:2316 | the shifting loop moves the elements above x up by one and finds x's place |
| ChannelSort.InsertAt | src/viewer/loaders/ext/exr_parser.js:2316 | one insertion step in place computes Insert |
| ChannelSort.SortInPlace | src/viewer/loaders/ext/exr_parser.js:2316 | the sort in place computes Sort |
| ChannelSort.SortChannels | src/viewer/loaders/ext/exr_parser.js:2315-2326 | channels.sort computes SortedChannels |
| Scatter.LinesOf | src/viewer/loaders/ext/exr_parser.js:2441 | a block is short exactly when it would run past the last row, and then it ends at that row |
| Scatter.RawView | src/viewer/loaders/ext/exr_parser.js:1301-1305 | uncompressRAW succeeds exactly when the block lies in the file, with `size` bytes |
| Scatter.Dwa | src/viewer/loaders/EXRLoader_bad.ts:1488-1490 | the port's uncompressDWA throws at once |
| Scatter.BlockViewCases | src/viewer/loaders/ext/exr_parser.js:2443-2444 | an uncompressed block is read as it lies in the file whatever the codec; a compressed DWA block fails in the port; only PIZ changes getCodeReturn |
| Scatter.DecodeBlock | src/viewer/loaders/ext/exr_parser.js:2443-2444 | the codecs' loops compute BlockView |
| Scatter.DecodeZip | src/viewer/loaders/ext/exr_parser.js:1322-1341 | uncompressZIP fails exactly when inflate does, and otherwise computes UncompressZip |
| Scatter.ChannelOffset | src/viewer/loaders/ext/exr_parser.js:2435-2454 | R, G, B, A and Y have legacy slots below 4; any other name gives undefined |
| Scatter.ReadSample | src/viewer/loaders/ext/exr_parser.js:2461 | a sample read succeeds exactly when a getter was chosen and the sample lies in the view, and gives its bytes |
| Scatter.Write | src/viewer/loaders/ext/exr_parser.js:2462-2468 | a successful write has a slot for the channel, naming a group with an array |
| Scatter.BlockAt | src/viewer/loaders/ext/exr_parser.js:2439-2445 | a block header past the file is a RangeError; the cursor moves by the declared size; the line count is LinesOf |
| Scatter.BlockAtRaw | src/viewer/loaders/ext/exr_parser.js:2443-2445 | a block not compressed is the file's bytes after its header, and getCodeReturn is left alone |
| Scatter.PutSample | src/viewer/loaders/ext/exr_parser.js:2458-2468 | one sample read and written over the arrays computes ReadSample then Write |
| Scatter.ScatterRow | src/viewer/loaders/ext/exr_parser.js:2456-2469 | the x loop computes RowFrom |
| Scatter.ScatterLine | src/viewer/loaders/ext/exr_parser.js:2452-2471 | the channel loop computes LineFrom |
| Scatter.ScatterBlock | src/viewer/loaders/ext/exr_parser.js:2447-2473 | the line_y loop computes BlockFrom |
| Scatter.ReadBlock | src/viewer/loaders/ext/exr_parser.js:2439-2445 | reading and decompressing a block computes BlockAt |
| Scatter.ScatterBlocks | src/viewer/loaders/ext/exr_parser.js:2437-2475 | the block loop computes Scattered |
| Scatter.Scattered | src/viewer/loaders/ext/exr_parser.js:2437-2475 | a finished scatter keeps the legacy array and every group array at its size |
| Scatter.BlockLoopRuns | src/viewer/loaders/ext/exr_parser.js:2437 | the real-valued test holds exactly for the indices below BlockCount |
| Scatter.BlockCountIsCeiling | src/viewer/loaders/ext/exr_parser.js:2437 | the block loop runs ceil(height / blockSize) times |
| Scatter.GroupCell | src/viewer/loaders/ext/exr_parser.js:2467 | a group write lands at row height-1-trueY, column x, slot off, inside the group array |
| Scatter.GroupCellInjective | src/viewer/loaders/ext/exr_parser.js:2467 | two different samples of a group never share a cell |
| Scatter.WriteFails | src/viewer/loaders/ext/exr_parser.js:2464-2468 | a write fails exactly when the channel has no slot or the slot's group has no array |
| Scatter.WriteLands | src/viewer/loaders/ext/exr_parser.js:2459-2468 | a write puts the sample in its group cell and, for R, G, B, A and Y, its legacy cell, and changes nothing else |
| Scatter.RowKeepsShape | src/viewer/loaders/ext/exr_parser.js:2456-2469 | the x loop keeps every buffer's size |
| Scatter.LineKeepsShape | src/viewer/loaders/ext/exr_parser.js:2452-2471 | the channel loop keeps every buffer's size |
| Scatter.BlockKeepsShape | src/viewer/loaders/ext/exr_parser.js:2447-2473 | the line_y loop keeps every buffer's size |
| Scatter.BlocksKeepShape | src/viewer/loaders/ext/exr_parser.js:2437-2475 | the block loop keeps every buffer's size |
| Exr.Initial | src/viewer/loaders/ext/exr_parser.js:2251-2276 | the buffers before the scatter: the legacy array and one group array per group for a Float output |
| Exr.Prepare | src/viewer/loaders/ext/exr_parser.js:2303-2313 | a prepared decoder has half or float samples, a block height of at least 1, and the output is not HalfFloat |
| Exr.PrepareDecoder | src/viewer/loaders/ext/exr_parser.js:2303-2313 | parseHeader and setupDecoder compute Prepare and a fresh legacy array of its fill value |
| Exr.FinishDecoder | src/viewer/loaders/ext/exr_parser.js:2315-2486 | the sort, the grouping and the scatter over the arrays compute Finish |
| Exr.ParseExr | src/viewer/loaders/ext/exr_parser.js:2296-2486 | parseEXR computes Decode |
| Exr.Decode | src/viewer/loaders/ext/exr_parser.js:2296-2486 | a HalfFloat output fails; a decoded file returns a header whose channel list is sorted by id, and one buffer per group exactly for a Float output |
| Exr.HalfFloatRefused | src/viewer/loaders/ext/exr_parser.js:2311-2313 | a HalfFloat output always fails, with the HalfFloat error once header and decoder are read |
| Exr.OtherTypeRefused | src/viewer/loaders/EXRLoader_bad.ts:2202-2203 | the port refuses another output type |
| Exr.FinishSortsHeader | src/viewer/loaders/ext/exr_parser.js:2315-2326 | the returned header holds the channels read, sorted by id, and everything else unchanged |
| Exr.FinishBuffers | src/viewer/loaders/ext/exr_parser.js:2477-2486 | the returned buffers have the sizes they were made with |
| Images.Wrap | src/viewer/image_manager.ts:187-195 | a position less than one turn outside [0, n) lands in range, at the position modulo n |
| Images.WrapOnce | src/viewer/image_manager.ts:190-195 | the wrap is applied once: a longer jump leaves the range |
| Images.Removed | src/viewer/image_manager.ts:184 | the splice removes one image |
| Images.RemoveFollowsImage | src/viewer/image_manager.ts:161-184 | an index other than the removed one still names the image it named |
| Images.RemoveActive | src/viewer/image_manager.ts:171-177 | removing the active image shows the one before it, the new first image, or none when none remain; a valid index stays valid |
| Images.RefAfterRemove | src/viewer/image_manager.ts:161-166 | the removed reference becomes -1; any other index, put back past the removed slot, is the old one, and keeps its side of it |
| Images.ActiveAfterRemove | src/viewer/image_manager.ts:171-177 | an index other than the removed one moves as the reference does; the removed active index moves back one, to 0 when images remain |
| Images.IndexOf | src/viewer/image_manager.ts:103-110 | -1 exactly when no cached image has the uuid, else the first index that has it |
| Images.Lookup | src/viewer/image_manager.ts:69-87 | no image exactly for a null or out-of-range index; an image without channel groups throws; else that image and the group asked for, or 0 when it is past the image's groups |
| Images.ResetGroupValid | src/viewer/image_manager.ts:197-204 | after the reset a non-negative group is one of the shown image's |
| Images.Largest | src/viewer/image_manager.ts:273-278 | the running maximum is never negative |
| Images.LargestBounds | src/viewer/image_manager.ts:273-278 | no image exceeds the maximum, which is 0 or the size of one image |
| Images.MaxDimsLeast | src/viewer/image_manager.ts:271-283 | the result is the least non-negative even number no width or height exceeds |
| Images.DigitChar | src/viewer/image_manager.ts:296 | the character of a decimal digit |
| Images.Digits | src/viewer/image_manager.ts:296 | a template literal prints at least one decimal digit |
| Images.DigitsRoundTrip | src/viewer/image_manager.ts:296 | reading the printed digits back gives the number |
| Images.KeyTail | src/viewer/image_manager.ts:290-296 | the part after the reference tag is not empty and does not open with '{' |
| Images.StatisticsKey | src/viewer/image_manager.ts:285-298 | a key is never empty and opens with `{` exactly when it has a reference, whose tag it then starts with |
| Images.TagPrefix | src/viewer/image_manager.ts:287-289 | two reference tags without '}' inside prefix one another's keys only when they are the same |
| Images.KeyTagged | src/viewer/image_manager.ts:285-298 | a statistics key opens with `{uuid}` exactly when it was computed against that reference |
| Images.WithoutRef | src/viewer/image_manager.ts:336-340 | a sub-map of the bucket that drops exactly the keys opening with the reference tag |
| Images.Cleaned | src/viewer/image_manager.ts:330-341 | the cache without the image's bucket, every other bucket kept as a sub-map of itself |
| Images.CleanedKeys | src/viewer/image_manager.ts:330-341 | clean_statistics drops the image's bucket and, in every other bucket, exactly the keys computed against it, keeping the rest unchanged |
| Images.FilterBucket | src/viewer/image_manager.ts:336-340 | the key loop computes WithoutRef |
| Images.ImageManager.constructor | src/viewer/image_manager.ts:18-35 | an empty cache, no statistics, nothing selected, group 0 and limits 0 to 1 |
| Images.ImageManager.SetActiveImage | src/viewer/image_manager.ts:89-94 | an index outside the cache throws and changes nothing; otherwise it becomes the active image |
| Images.ImageManager.SetRefImage | src/viewer/image_manager.ts:96-101 | an index outside the cache throws and changes nothing; otherwise it becomes the reference |
| Images.ImageManager.FindUuid | src/viewer/image_manager.ts:103-110 | the loop computes IndexOf |
| Images.ImageManager.ReloadImage | src/viewer/image_manager.ts:121-132 | the image with the uuid is replaced and its statistics dropped; when it is gone nothing changes |
| Images.ImageManager.AddImage | src/viewer/image_manager.ts:133-139 | the image is appended, given an empty bucket and made active |
| Images.ImageManager.CleanStatistics | src/viewer/image_manager.ts:330-345 | the bucket loop leaves Cleaned of the statistics and resets the limits |
| Images.ImageManager.RemoveImage | src/viewer/image_manager.ts:151-185 | an index outside the cache throws and changes nothing; otherwise the image goes, the indices follow, its statistics go and the limits reset |
| Images.ImageManager.ShiftImage | src/viewer/image_manager.ts:187-205 | the active index moves with one wrap and the group resets when the image shown has fewer |
| Images.ImageManager.ShiftChannelGroup | src/viewer/image_manager.ts:207-219 | with an image shown the group moves with one wrap within its groups |
| Images.ImageManager.SelectImage | src/viewer/image_manager.ts:221-240 | an index at or past n_images is ignored; a reference selection toggles; an active one resets the group when needed |
| Images.ImageManager.SelectChannelGroup | src/viewer/image_manager.ts:242-252 | with an image shown the group becomes index, or 0 when the image has no such group |
| Images.ImageManager.CleanCache | src/viewer/image_manager.ts:254-262 | no images, no statistics, nothing selected, limits cleared; the group is kept |
| Images.ImageManager.MaxDims | src/viewer/image_manager.ts:271-283 | the loop returns the least even bound of all widths and heights |

## Left out

- **Lossy DWA.** `uncompressDWA`'s internals `lossyDctDecode`, `unRleAC`, `unZigZag`, `dctInverse`, `csc709Inverse`, `toLinear` and `convertToHalf` are floating-point DCT and colour code. The parser's DWA decoder is a function parameter `dwa` of the model, and a `None` from it is an error.
- **zlib inflate.** `fflate.unzlibSync` is a foreign library. It is a function parameter `inflate`, where `None` stands for the library throwing.
- **Float conversions.** `decodeFloat16`, `decodeFloat32`, `parseFloat16`, `parseFloat32`, `toHalfFloat`, its tables from `_generateTables`, and `clamp` are float numerics. A sample is kept as the bytes its getter consumes (`Buffers.Texel`).
- **The half-float output buffer.** Its `Uint16Array` and `0x3C00` fills (exr_parser.js:2264-2270, 2423-2428) are left out, because both loaders throw on a half-float output before any sample is written.
- **Texture encoding.** It is always `LinearEncoding` (exr_parser.js:2283, 2288), so it is left out. The format is modelled (`Exr.Format`).
- **Console output.** A `console.error` call changes no state and is left out.
- **Text decoding.** `TextDecoder` is left out. Strings are byte strings, one character per byte, so code-unit order is byte order; this matches JavaScript order only for ASCII names.
- Common.LeBytes: fixes little-endian byte order. The PIZ `Uint16Array` view over the output (exr_parser.js:1348, 1441) and the PXR24 typed-array stores use the platform's own byte order, so the model matches only little-endian platforms, the usual ones.
- **JavaScript numbers.** They are modelled as unbounded integers, with explicit 32-bit wrap-around wherever a bitwise operator applies.
- Pxr24.UncompressPxrSamples: it does not model how `pixel` loses precision past 2^53. That needs more than 2^21 float samples of maximal difference in one run.
- **Fuel.** Once `getCode` fails, the two inner loops of `hufDecode` can run forever (`HufDecode.StallsWhenFull`). The model bounds each run of them by a `fuel` parameter, so the contracts below are weaker than the source's behaviour, one line each:
- HufDecode.Inner: gives `Err(OutOfFuel)` when its run needs more than `fuel` passes, including a run that more passes would have ended.
- HufDecode.Tail: gives `Err(OutOfFuel)` in the same way for the final loop.
- HufDecodeLoop.HufDecodeM: gives `Err(OutOfFuel)` wherever `HufDecode.Decode` does.
- HufUncompress.HufUncompressM: fails with `Err(OutOfFuel)` wherever `hufDecode` does.
- Piz.UncompressPizM: fails with `Err(OutOfFuel)` wherever `hufUncompress` does.
- Scatter.ScatterBlocks: fails with `Err(OutOfFuel)` wherever a PIZ block does.
- Exr.ParseExr: fails with `Err(OutOfFuel)` wherever a PIZ block does.
- Decoder.DataWindow: a `dataWindow` attribute that is not a box has no `xMax` or `yMax`. In the source, width, height and the block count are then NaN (src/viewer/loaders/ext/exr_parser.js:2141-2142, 2242). No offsets are skipped and no block is read, the typed arrays get length 0 (2256), and parseEXR returns normally with a NaN width and height. The model has no NaN and refuses such a header with `MalformedHeader`.
- JsString.UnsignedDecimal: a value is taken to round to zero exactly when it is at most 2^-1075. ECMA-262 lets an implementation round a literal of more than 20 significant digits before converting it, which can move a value within 10^-20 of that bound across it.
- Wavelet.Wav2: takes the strides its one caller passes (x stride the sample type, y stride nx times it; exr_parser.js:1404-1412). Other strides, which can skip the loops or run them forever, are not modelled.
- HufDecode.Search: the chained search for a long code is proved never to move the cursor back and to write within the end offset, but no lemma states that it finds the symbol whose code the stream holds; that meaning is proved for short codes only (`HufDecode.ShortCodeDecodes`). For the run-length symbol no lemma ties the repeat count to the stream either: `HufDecodeLoop.RunM` reads it as the next 8 held bits, and no lemma says these are the next 8 bits of the stream.
- **Infinite loops elsewhere.** An unterminated string and a wavelet plane with at least 2^30 rows and 2^30 columns loop forever in the source. There the model returns `Err(Diverges)`.
- **Decoded-but-unused values.** `uncompressPIZ`'s tmpBuffer bytes past the relayout are modelled as read from a fresh buffer (zeros). `wav2Decode`'s returned `py`, which its caller discards, is not modelled.
- **The port's null check.** The port checks `scanlineBlockSize`, `outputChannels` and `byteArray` for `null` (EXRLoader_bad.ts:2426-2431). The model leaves it out, because setupDecoder has already thrown in every case where the check could fire.
- **Loading images.** `ImageManager.load_image` starts an asynchronous `ImageLoader`. The model has the two callbacks it can run as `Images.ImageManager.ReloadImage` and `Images.ImageManager.AddImage`. The loader, the success and error callbacks, and the statistics computation they start are left out.
- **Statistics.** `compute_statistics`, `get_statistics`, `get_limits` and the worker threads are left out. A histogram is an opaque value the manager stores.
- **Trivial getters and callbacks.** `size`, `active_ref_different`, `valid_image`, `get_index_active`, `get_index_ref`, `get_channel_group_active` and `for_each_image` only return a field or call a callback. They are left out. `get_current_image` and `get_current_ref_image` are `Images.Lookup` applied to the active and the reference index.
- **Group lookups.** `Images.Lookup`: with a negative channel index, `get_image_data` returns `undefined` for the group. The model returns that index unchanged and does not model the `undefined`.
- **Texture glue, UI, other loaders and build scripts.** These are not part of this model.


