/** hufClearDecTable and hufBuildDecTable: the 14-bit decoding table of PIZ's
    Huffman decoder. A code of at most 14 bits fills every slot whose index
    starts with it; a longer code is chained on the slot of its top 14 bits,
    where the decoder tries the chained symbols one by one. */
module DecTable {
  import opened Common
  import opened Huffman

  /** A decoding-table entry `{len, lit, p}`: a short code's length and
      symbol, or (len 0) the count and list of long codes chained here. The
      list `p` is null until the first long code arrives; null is []. */
  datatype DecEntry = DecEntry(len: int, lit: int, p: seq<int>)

  const Empty: DecEntry := DecEntry(0, 0, [])

  /** Every chain holds as many symbols as its count says, and a short-code
      entry has no chain. */
  predicate WellChained(t: seq<DecEntry>)
  {
    forall i :: 0 <= i < |t| ==> (t[i].len == 0 ==> |t[i].p| == t[i].lit) && (t[i].len != 0 ==> t[i].p == [])
  }

  /** Every symbol in the table lies in lo .. hi. */
  predicate SymbolsIn(t: seq<DecEntry>, lo: int, hi: int)
  {
    forall i :: 0 <= i < |t| ==>
      (t[i].len != 0 ==> lo <= t[i].lit <= hi) && (forall k :: 0 <= k < |t[i].p| ==> lo <= t[i].p[k] <= hi)
  }

  /** hufClearDecTable: every entry `{len: 0, lit: 0, p: null}`. */
  method ClearDecTable(hdec: array<DecEntry>)
    modifies hdec
    ensures forall i :: 0 <= i < hdec.Length ==> hdec[i] == Empty
    ensures WellChained(hdec[..]) && SymbolsIn(hdec[..], 0, -1)
  {
    var i := 0;
    while i < hdec.Length
      invariant 0 <= i <= hdec.Length
      invariant forall k :: 0 <= k < i ==> hdec[k] == Empty
    {
      hdec[i] := Empty;
      i := i + 1;
    }
  }

  // ---------------------------------------------------------- the build

  /** The fill loop for a code of length l <= 14: slots from `slot` on, k of
      them, each must be free and gets `len = l, lit = im`. A slot outside
      the table is `undefined`, whose `len` throws. */
  function Fill(t: seq<DecEntry>, slot: int, k: nat, l: int, im: int): (r: Result<seq<DecEntry>>)
    ensures r.Ok? ==> |r.value| == |t|
    decreases k
  {
    if k == 0 then Ok(t)
    else if !(0 <= slot < |t|) then Err(TypeError)
    else if t[slot].len != 0 || t[slot].p != [] then Err(InvalidTableEntry)
    else Fill(t[slot := DecEntry(l, im, t[slot].p)], slot + 1, k - 1, l, im)
  }

  /** A long code chained on an entry: `lit++` and im appended to `p`. */
  function Chain(e: DecEntry, im: int): DecEntry
  {
    DecEntry(0, e.lit + 1, e.p + [im])
  }

  /** One pass of hufBuildDecTable's loop for symbol im with encoding-table
      entry x: `c = x >> 6`, `l = x & 63`; `c >> l` non-zero is an invalid
      entry; a long code's slot `c >> (l - 14)` must hold no short code; a
      short code fills `1 << (14 - l)` slots from `c << (14 - l)`; length 0
      adds nothing. */
  function Place(x: int, im: int, t: seq<DecEntry>): (r: Result<seq<DecEntry>>)
    ensures r.Ok? ==> |r.value| == |t|
  {
    var c := Sar(x, 6);
    var l := LowBits(x, 6);
    if Sar(c, l) != 0 then Err(InvalidTableEntry)
    else if l > DecBits then
      var slot := Sar(c, l - DecBits);
      if !(0 <= slot < |t|) then Err(TypeError)
      else if t[slot].len != 0 then Err(InvalidTableEntry)
      else Ok(t[slot := Chain(t[slot], im)])
    else if l > 0 then Fill(t, Shl(c, DecBits - l), Pow2(DecBits - l), l, im)
    else Ok(t)
  }

  /** hufBuildDecTable for the symbols im .. iM of the encoding table enc. */
  function BuildFrom(enc: seq<int>, im: int, iM: int, t: seq<DecEntry>): (r: Result<seq<DecEntry>>)
    requires 0 <= im && iM < |enc|
    ensures r.Ok? ==> |r.value| == |t|
    decreases iM + 1 - im
  {
    if im > iM then Ok(t)
    else
      var t' :- Place(enc[im], im, t);
      BuildFrom(enc, im + 1, iM, t')
  }

  // ------------------------------------------------------ what it builds

  /** u keeps what t holds: short-code entries stay, chains only grow. */
  predicate Extends(t: seq<DecEntry>, u: seq<DecEntry>)
  {
    |t| == |u| && forall i :: 0 <= i < |t| ==> (t[i].len != 0 ==> u[i] == t[i]) && t[i].p <= u[i].p
  }

  lemma ExtendsTrans(t: seq<DecEntry>, u: seq<DecEntry>, v: seq<DecEntry>)
    requires Extends(t, u) && Extends(u, v)
    ensures Extends(t, v)
  {
  }

  /** Symbol im with entry x is in the table: a code of l <= 14 bits holds
      every slot that starts with it, and a longer code is chained on the
      slot of its top 14 bits. */
  predicate Placed(x: int, im: int, u: seq<DecEntry>)
  {
    var c := Sar(x, 6);
    var l := LowBits(x, 6);
    && (DecBits < l ==> var slot := Sar(c, l - DecBits); 0 <= slot < |u| && im in u[slot].p)
    && (0 < l <= DecBits ==>
          var base := Shl(c, DecBits - l);
          0 <= base && base + Pow2(DecBits - l) <= |u|
          && forall j :: base <= j < base + Pow2(DecBits - l) ==> u[j] == DecEntry(l, im, []))
  }

  lemma PlacedStays(x: int, im: int, u: seq<DecEntry>, v: seq<DecEntry>)
    requires Placed(x, im, u) && Extends(u, v)
    ensures Placed(x, im, v)
  {
    var c := Sar(x, 6);
    var l := LowBits(x, 6);
    if DecBits < l {
      var slot := Sar(c, l - DecBits);
      assert u[slot].p <= v[slot].p;
    }
  }

  /** A successful fill keeps the table and gives every slot to the code. */
  lemma {:induction false} FillPlaces(t: seq<DecEntry>, slot: int, k: nat, l: int, im: int)
    requires l != 0 && Fill(t, slot, k, l, im).Ok?
    ensures var u := Fill(t, slot, k, l, im).value;
      Extends(t, u) && (k > 0 ==> 0 <= slot && slot + k <= |t|)
      && forall j :: slot <= j < slot + k ==> u[j] == DecEntry(l, im, [])
    decreases k
  {
    if k > 0 {
      var t' := t[slot := DecEntry(l, im, t[slot].p)];
      FillPlaces(t', slot + 1, k - 1, l, im);
      ExtendsTrans(t, t', Fill(t, slot, k, l, im).value);
    }
  }

  /** Slot j cannot take a short code: it is outside the table (reading
      its `len` throws) or already holds a code or a chain. */
  predicate Blocked(t: seq<DecEntry>, j: int)
  {
    !(0 <= j < |t|) || t[j].len != 0 || t[j].p != []
  }

  /** A finished fill changes no slot outside slot .. slot + k - 1. */
  lemma {:induction false} FillFrame(t: seq<DecEntry>, slot: int, k: nat, l: int, im: int)
    requires Fill(t, slot, k, l, im).Ok?
    ensures forall j :: 0 <= j < |t| && !(slot <= j < slot + k) ==> Fill(t, slot, k, l, im).value[j] == t[j]
    decreases k
  {
    if k > 0 {
      FillFrame(t[slot := DecEntry(l, im, t[slot].p)], slot + 1, k - 1, l, im);
    }
  }

  /** A fill fails exactly when one of its slots is blocked, and then the
      first blocked slot decides the error: a TypeError outside the table,
      an invalid entry inside it. */
  lemma {:induction false} FillFails(t: seq<DecEntry>, slot: int, k: nat, l: int, im: int)
    ensures Fill(t, slot, k, l, im).Err? <==> exists j :: slot <= j < slot + k && Blocked(t, j)
    ensures Fill(t, slot, k, l, im).Err? ==>
      exists j :: (slot <= j < slot + k && Blocked(t, j)
                   && (forall i :: slot <= i < j ==> !Blocked(t, i))
                   && Fill(t, slot, k, l, im).error == if 0 <= j < |t| then InvalidTableEntry else TypeError)
    decreases k
  {
    if k > 0 && !Blocked(t, slot) {
      var t' := t[slot := DecEntry(l, im, t[slot].p)];
      FillFails(t', slot + 1, k - 1, l, im);
      assert forall j :: slot < j ==> (Blocked(t', j) <==> Blocked(t, j));
      if Fill(t', slot + 1, k - 1, l, im).Err? {
        var j :| slot + 1 <= j < slot + k && Blocked(t', j)
                 && (forall i :: slot + 1 <= i < j ==> !Blocked(t', i))
                 && Fill(t', slot + 1, k - 1, l, im).error == if 0 <= j < |t'| then InvalidTableEntry else TypeError;
        assert forall i :: slot <= i < j ==> !Blocked(t, i);
      }
    } else if k > 0 {
      assert Blocked(t, slot);
    }
  }

  /** The slots a pass for entry x writes: the chain slot of a long code, or
      the 2^(14 - l) slots a short code fills. */
  predicate Touched(x: int, j: int)
  {
    var c := Sar(x, 6);
    var l := LowBits(x, 6);
    (DecBits < l && j == Sar(c, l - DecBits))
    || (0 < l <= DecBits && Shl(c, DecBits - l) <= j < Shl(c, DecBits - l) + Pow2(DecBits - l))
  }

  /** A successful pass changes no slot it does not write. */
  lemma PlaceFrame(x: int, im: int, t: seq<DecEntry>)
    requires Place(x, im, t).Ok?
    ensures forall j :: 0 <= j < |t| && !Touched(x, j) ==> Place(x, im, t).value[j] == t[j]
  {
    var c := Sar(x, 6);
    var l := LowBits(x, 6);
    if 0 < l <= DecBits {
      FillFrame(t, Shl(c, DecBits - l), Pow2(DecBits - l), l, im);
    }
  }

  /** A pass fails exactly when the code has bits above its length, or a
      long code's chain slot is outside the table or holds a short code, or
      one of a short code's slots is blocked. */
  lemma PlaceFails(x: int, im: int, t: seq<DecEntry>)
    ensures var c := Sar(x, 6);
      var l := LowBits(x, 6);
      Place(x, im, t).Err? <==>
        Sar(c, l) != 0
        || (DecBits < l && var slot := Sar(c, l - DecBits); !(0 <= slot < |t|) || t[slot].len != 0)
        || (0 < l <= DecBits && exists j :: Shl(c, DecBits - l) <= j < Shl(c, DecBits - l) + Pow2(DecBits - l) && Blocked(t, j))
  {
    var c := Sar(x, 6);
    var l := LowBits(x, 6);
    if 0 < l <= DecBits {
      FillFails(t, Shl(c, DecBits - l), Pow2(DecBits - l), l, im);
    }
  }

  /** A successful pass for one symbol keeps the table and places the symbol. */
  lemma PlacePlaces(x: int, im: int, t: seq<DecEntry>)
    requires Place(x, im, t).Ok?
    ensures Extends(t, Place(x, im, t).value) && Placed(x, im, Place(x, im, t).value)
  {
    var c := Sar(x, 6);
    var l := LowBits(x, 6);
    if 0 < l <= DecBits {
      FillPlaces(t, Shl(c, DecBits - l), Pow2(DecBits - l), l, im);
    }
  }

  /** A successful build places every symbol im .. iM, and keeps what the
      table held. */
  lemma {:induction false} BuildPlaces(enc: seq<int>, im: int, iM: int, t: seq<DecEntry>)
    requires 0 <= im && iM < |enc| && BuildFrom(enc, im, iM, t).Ok?
    ensures var u := BuildFrom(enc, im, iM, t).value;
      Extends(t, u) && forall s :: im <= s <= iM ==> Placed(enc[s], s, u)
    decreases iM + 1 - im
  {
    if im <= iM {
      var t' := Place(enc[im], im, t).value;
      var u := BuildFrom(enc, im, iM, t).value;
      assert u == BuildFrom(enc, im + 1, iM, t').value;
      PlacePlaces(enc[im], im, t);
      BuildPlaces(enc, im + 1, iM, t');
      ExtendsTrans(t, t', u);
      PlacedStays(enc[im], im, t', u);
    }
  }

  /** A successful fill keeps the table well chained, with its symbols in range. */
  lemma {:induction false} FillKeeps(t: seq<DecEntry>, slot: int, k: nat, l: int, im: int, lo: int, hi: int)
    requires l != 0 && lo <= im <= hi && WellChained(t) && SymbolsIn(t, lo, hi) && Fill(t, slot, k, l, im).Ok?
    ensures WellChained(Fill(t, slot, k, l, im).value) && SymbolsIn(Fill(t, slot, k, l, im).value, lo, hi)
    decreases k
  {
    if k > 0 {
      FillKeeps(t[slot := DecEntry(l, im, t[slot].p)], slot + 1, k - 1, l, im, lo, hi);
    }
  }

  lemma PlaceKeeps(x: int, im: int, t: seq<DecEntry>, lo: int, hi: int)
    requires lo <= im <= hi && WellChained(t) && SymbolsIn(t, lo, hi) && Place(x, im, t).Ok?
    ensures WellChained(Place(x, im, t).value) && SymbolsIn(Place(x, im, t).value, lo, hi)
  {
    var c := Sar(x, 6);
    var l := LowBits(x, 6);
    if 0 < l <= DecBits {
      FillKeeps(t, Shl(c, DecBits - l), Pow2(DecBits - l), l, im, lo, hi);
    } else if DecBits < l {
      var slot := Sar(c, l - DecBits);
      var u := Place(x, im, t).value;
      assert u == t[slot := Chain(t[slot], im)];
      assert forall k :: 0 <= k < |u[slot].p| ==> u[slot].p[k] == if k < |t[slot].p| then t[slot].p[k] else im;
    }
  }

  /** The build keeps every chain's count equal to its length and every
      symbol in lo .. hi: the decoder may index the encoding table with any
      chained symbol. */
  lemma {:induction false} BuildKeeps(enc: seq<int>, im: int, iM: int, t: seq<DecEntry>, lo: int, hi: int)
    requires 0 <= im && iM < |enc| && lo <= im && iM <= hi
    requires WellChained(t) && SymbolsIn(t, lo, hi) && BuildFrom(enc, im, iM, t).Ok?
    ensures WellChained(BuildFrom(enc, im, iM, t).value) && SymbolsIn(BuildFrom(enc, im, iM, t).value, lo, hi)
    decreases iM + 1 - im
  {
    if im <= iM {
      PlaceKeeps(enc[im], im, t, lo, hi);
      BuildKeeps(enc, im + 1, iM, Place(enc[im], im, t).value, lo, hi);
    }
  }

  // ------------------------------------------------------------ methods

  /** The method's outcome is the function's: no error and the table it
      builds, or the same error. */
  predicate Outcome(err: Option<Error>, hd: seq<DecEntry>, spec: Result<seq<DecEntry>>)
  {
    if spec.Ok? then err.None? && hd == spec.value else err == Some(spec.error)
  }

  /** The fill loop `for (i = 1 << (14 - l); i > 0; i--)` of a short code. */
  method FillSlots(hdec: array<DecEntry>, base: int, n: nat, l: int, im: int) returns (err: Option<Error>)
    modifies hdec
    ensures Outcome(err, hdec[..], Fill(old(hdec[..]), base, n, l, im))
  {
    var i, off := n, 0;
    while i > 0
      invariant 0 <= i <= n && off == n - i
      invariant Fill(hdec[..], base + off, i, l, im) == Fill(old(hdec[..]), base, n, l, im)
    {
      var slot := base + off;
      if !(0 <= slot < hdec.Length) {
        return Some(TypeError);
      }
      var pl := hdec[slot];
      if pl.len != 0 || pl.p != [] {
        return Some(InvalidTableEntry);
      }
      hdec[slot] := DecEntry(l, im, pl.p);
      off := off + 1;
      i := i - 1;
    }
    return None;
  }

  /** One pass of hufBuildDecTable's loop, for symbol im. */
  method PlaceSymbol(x: int, im: int, hdec: array<DecEntry>) returns (err: Option<Error>)
    modifies hdec
    ensures Outcome(err, hdec[..], Place(x, im, old(hdec[..])))
  {
    var c := Sar(x, 6);
    var l := LowBits(x, 6);
    if Sar(c, l) != 0 {
      return Some(InvalidTableEntry);
    }
    if l > DecBits {
      var slot := Sar(c, l - DecBits);
      if !(0 <= slot < hdec.Length) {
        return Some(TypeError);
      }
      var pl := hdec[slot];
      if pl.len != 0 {
        return Some(InvalidTableEntry);
      }
      hdec[slot] := Chain(pl, im);
    } else if l > 0 {
      err := FillSlots(hdec, Shl(c, DecBits - l), Pow2(DecBits - l), l, im);
      return err;
    }
    return None;
  }

  /** hufBuildDecTable(hcode, im, iM, hdecod). */
  method BuildDecTable(enc: array<int>, im0: int, iM: int, hdec: array<DecEntry>) returns (err: Option<Error>)
    requires 0 <= im0 && iM < enc.Length
    modifies hdec
    ensures Outcome(err, hdec[..], BuildFrom(enc[..], im0, iM, old(hdec[..])))
  {
    var im := im0;
    while im <= iM
      invariant im0 <= im && (im0 <= iM + 1 ==> im <= iM + 1)
      invariant BuildFrom(enc[..], im, iM, hdec[..]) == BuildFrom(enc[..], im0, iM, old(hdec[..]))
      decreases iM + 1 - im
    {
      err := PlaceSymbol(enc[im], im, hdec);
      if err.Some? {
        return err;
      }
      im := im + 1;
    }
    return None;
  }
}
