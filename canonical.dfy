/** hufCanonicalCodeTable: the canonical Huffman codes of PIZ assigned from
    the code lengths. Longer codes get the smaller numbers: the codes of
    length 58 start at 0, and the codes of length l - 1 start at half of the
    first number after the codes of length l. Within one length, symbols take
    consecutive codes in symbol order. */
module Canonical {
  import opened Common
  import opened Huffman

  /** The number of entries of s equal to l. */
  function Count(s: seq<int>, l: int): (n: nat)
    ensures n <= |s|
  {
    if s == [] then 0 else Count(s[..|s| - 1], l) + (if s[|s| - 1] == l then 1 else 0)
  }

  lemma CountSnoc(s: seq<int>, x: int, l: int)
    ensures Count(s + [x], l) == Count(s, l) + (if x == l then 1 else 0)
  {
    assert (s + [x])[..|s|] == s;
  }

  /** The first code of length l, for 1 <= l <= 58 (hufTableBuffer[l] after
      the second loop). */
  function Start(lens: seq<int>, l: int): (r: nat)
    requires 1 <= l <= MaxLength
    ensures r <= |lens|
    decreases MaxLength - l
  {
    if l == MaxLength then 0 else (Start(lens, l + 1) + Count(lens, l + 1)) / 2
  }

  /** The code of symbol i: the first code of its length plus the number of
      earlier symbols with that length. */
  function Code(lens: seq<int>, i: int): int
    requires 0 <= i < |lens| && 1 <= lens[i] <= MaxLength
  {
    Start(lens, lens[i]) + Count(lens[..i], lens[i])
  }

  /** An encoding-table entry `l | code << 6`, for l < 64. */
  function Entry(code: int, l: int): int
  {
    code * 64 + l
  }

  /** The entry of symbol i: 0 for length 0, else its code and length. */
  function Encoded(lens: seq<int>, i: int): int
    requires 0 <= i < |lens| && 0 <= lens[i] <= MaxLength
  {
    if lens[i] == 0 then 0 else Entry(Code(lens, i), lens[i])
  }

  /** The encoding table hufCanonicalCodeTable leaves. */
  function CodeTable(lens: seq<int>): (t: seq<int>)
    requires LengthsOk(lens)
    ensures |t| == |lens|
  {
    seq(|lens|, i requires 0 <= i < |lens| => Encoded(lens, i))
  }

  // ------------------------------------------------------------ properties

  lemma {:induction false} CountSplit(s: seq<int>, i: int, l: int)
    requires 0 <= i <= |s|
    ensures Count(s, l) == Count(s[..i], l) + Count(s[i..], l)
    decreases |s|
  {
    if i < |s| {
      var t := s[..|s| - 1];
      CountSplit(t, i, l);
      assert t[..i] == s[..i];
      assert s[i..] == t[i..] + [s[|s| - 1]];
      CountSnoc(t[i..], s[|s| - 1], l);
    } else {
      assert s[..i] == s;
      assert s[i..] == [];
    }
  }

  /** The codes of one length are the numbers Start(l) .. Start(l) + Count(l) - 1. */
  lemma CodeRange(lens: seq<int>, i: int)
    requires 0 <= i < |lens| && 1 <= lens[i] <= MaxLength
    ensures Start(lens, lens[i]) <= Code(lens, i) < Start(lens, lens[i]) + Count(lens, lens[i])
  {
    var l := lens[i];
    CountSplit(lens, i, l);
    assert lens[i..] == [l] + lens[i + 1..];
    CountSplit([l] + lens[i + 1..], 1, l);
    assert ([l] + lens[i + 1..])[..1] == [l];
    assert ([l] + lens[i + 1..])[1..] == lens[i + 1..];
    CountSnoc([], l, l);
  }

  /** Symbols of the same length get increasing codes in symbol order: no two
      share a code. */
  lemma CodesIncrease(lens: seq<int>, i: int, j: int)
    requires 0 <= i < j < |lens| && lens[i] == lens[j] && 1 <= lens[i] <= MaxLength
    ensures Code(lens, i) < Code(lens, j)
  {
    var l := lens[i];
    var s := lens[..j];
    assert s[..i] == lens[..i];
    CountSplit(s, i, l);
    CountSplit(s[i..], 1, l);
    assert s[i..][..1] == [l];
    CountSnoc([], l, l);
  }

  /** hufCode and hufLength take an entry apart again: `entry >> 6` is the
      code and `entry & 63` the length. */
  lemma EntryRoundTrip(code: int, l: int)
    requires 0 <= code < 0x200_0000 && 0 <= l < 64
    ensures Sar(Entry(code, l), 6) == code && LowBits(Entry(code, l), 6) == l
  {
    Int32Id(Entry(code, l));
    assert Pow2(6) == 64;
    LowHigh(code, l, 64);
  }

  /** Every entry of the table decodes to its symbol's code and length. */
  lemma EncodedDecodes(lens: seq<int>, i: int)
    requires |lens| <= EncSize && 0 <= i < |lens| && 0 <= lens[i] <= MaxLength
    ensures Sar(Encoded(lens, i), 6) == (if lens[i] == 0 then 0 else Code(lens, i))
    ensures LowBits(Encoded(lens, i), 6) == lens[i]
  {
    if lens[i] == 0 {
      EntryRoundTrip(0, 0);
    } else {
      CodeRange(lens, i);
      EntryRoundTrip(Code(lens, i), lens[i]);
    }
  }

  // --------------------------------------------------------------- methods

  /** The first two loops: hufTableBuffer[l] counts the symbols of length l. */
  method CountLengths(hcode: array<int>, tb: array<int>)
    requires tb.Length == MaxLength + 1 && tb != hcode && LengthsOk(hcode[..])
    modifies tb
    ensures forall l :: 0 <= l <= MaxLength ==> tb[l] == Count(hcode[..], l)
  {
    var i := 0;
    while i <= MaxLength
      invariant 0 <= i <= MaxLength + 1
      invariant forall l :: 0 <= l < i ==> tb[l] == 0
    {
      tb[i] := 0;
      i := i + 1;
    }
    i := 0;
    while i < hcode.Length
      invariant 0 <= i <= hcode.Length
      invariant forall l :: 0 <= l <= MaxLength ==> tb[l] == Count(hcode[..i], l)
    {
      var l := hcode[i];
      assert hcode[..i + 1] == hcode[..i] + [l];
      forall m | 0 <= m <= MaxLength
        ensures Count(hcode[..i + 1], m) == Count(hcode[..i], m) + (if l == m then 1 else 0)
      {
        CountSnoc(hcode[..i], l, m);
      }
      tb[l] := tb[l] + 1;
      i := i + 1;
    }
    assert hcode[..i] == hcode[..];
  }

  /** `>> 1` of a count sum: both parts are at most the table size. */
  lemma HalfSum(c: int, n: int)
    requires 0 <= c <= EncSize && 0 <= n <= EncSize
    ensures Sar(c + n, 1) == (c + n) / 2
  {
    Int32Id(c + n);
    assert 1 % 32 == 1;
    assert Pow2(1) == 2;
    assert Sar(c + n, 1) == ToInt32(c + n) / Pow2(1);
  }

  /** One pass of the third loop: `nc = (c + n) >> 1` and the entry becomes c. */
  method StartStep(tb: array<int>, ghost lens: seq<int>, i: int, c: int) returns (nc: int)
    requires tb.Length == MaxLength + 1 && |lens| <= EncSize && 1 <= i <= MaxLength
    requires c == Start(lens, i) && tb[i] == Count(lens, i)
    modifies tb
    ensures tb[..] == old(tb[..])[i := Start(lens, i)]
    ensures i > 1 ==> nc == Start(lens, i - 1)
  {
    HalfSum(c, tb[i]);
    nc := Sar(c + tb[i], 1);
    tb[i] := c;
  }

  /** The third loop, from length 58 down to 1: the entry for each length
      becomes the first code of that length. */
  method StartCodes(tb: array<int>, ghost lens: seq<int>)
    requires tb.Length == MaxLength + 1 && |lens| <= EncSize
    requires forall l :: 0 <= l <= MaxLength ==> tb[l] == Count(lens, l)
    modifies tb
    ensures tb[0] == Count(lens, 0)
    ensures forall l :: 1 <= l <= MaxLength ==> tb[l] == Start(lens, l)
  {
    var c := 0;
    var i := MaxLength;
    while i > 0
      invariant 0 <= i <= MaxLength
      invariant i > 0 ==> c == Start(lens, i)
      invariant forall l :: 0 <= l <= i ==> tb[l] == Count(lens, l)
      invariant forall l :: i < l <= MaxLength ==> tb[l] == Start(lens, l)
    {
      c := StartStep(tb, lens, i, c);
      i := i - 1;
    }
  }

  /** One pass of the last loop, at symbol i. */
  method AssignStep(hcode: array<int>, tb: array<int>, ghost lens: seq<int>, i: int)
    requires tb.Length == MaxLength + 1 && tb != hcode && |lens| == hcode.Length <= EncSize && LengthsOk(lens)
    requires 0 <= i < hcode.Length && hcode[i] == lens[i]
    requires forall l :: 1 <= l <= MaxLength ==> tb[l] == Start(lens, l) + Count(lens[..i], l)
    modifies hcode, tb
    ensures hcode[..] == old(hcode[..])[i := Encoded(lens, i)]
    ensures forall l :: 1 <= l <= MaxLength ==> tb[l] == Start(lens, l) + Count(lens[..i + 1], l)
  {
    var l := hcode[i];
    assert lens[..i + 1] == lens[..i] + [l];
    forall m | 1 <= m <= MaxLength
      ensures Count(lens[..i + 1], m) == Count(lens[..i], m) + (if l == m then 1 else 0)
    {
      CountSnoc(lens[..i], l, m);
    }
    if l > 0 {
      var code := tb[l];
      CodeRange(lens, i);
      Int32Id(code);
      assert 6 % 32 == 6 && Pow2(6) == 64;
      Int32Id(code * 64);
      hcode[i] := l + Shl(code, 6);
      tb[l] := code + 1;
    }
  }

  /** The last loop: a symbol of length l > 0 gets `l | hufTableBuffer[l]++ << 6`.
      The shifted code has six zero low bits, so the `|` adds l. */
  method AssignCodes(hcode: array<int>, tb: array<int>)
    requires tb.Length == MaxLength + 1 && tb != hcode && hcode.Length <= EncSize && LengthsOk(hcode[..])
    requires forall l :: 1 <= l <= MaxLength ==> tb[l] == Start(hcode[..], l)
    modifies hcode, tb
    ensures hcode[..] == CodeTable(old(hcode[..]))
  {
    ghost var lens := hcode[..];
    var i := 0;
    while i < hcode.Length
      invariant 0 <= i <= hcode.Length
      invariant forall k :: 0 <= k < i ==> hcode[k] == Encoded(lens, k)
      invariant forall k :: i <= k < hcode.Length ==> hcode[k] == lens[k]
      invariant forall l :: 1 <= l <= MaxLength ==> tb[l] == Start(lens, l) + Count(lens[..i], l)
    {
      AssignStep(hcode, tb, lens, i);
      i := i + 1;
    }
    assert hcode[..] == CodeTable(lens);
  }

  /** hufCanonicalCodeTable over the 65537-entry table. */
  method CanonicalCodeTable(hcode: array<int>)
    requires hcode.Length == EncSize && LengthsOk(hcode[..])
    modifies hcode
    ensures hcode[..] == CodeTable(old(hcode[..]))
  {
    var tb := new int[MaxLength + 1];
    CountLengths(hcode, tb);
    StartCodes(tb, hcode[..]);
    AssignCodes(hcode, tb);
  }
}
