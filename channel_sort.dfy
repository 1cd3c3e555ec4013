/** parseEXR sorts the header's channel list in place with a comparator on
    the layer identifier and then on the component suffix. Array.prototype.sort
    gives an order that is only defined when the comparator is consistent,
    so the model fixes it to an insertion sort that takes
    each channel from the front and puts it after every earlier channel it
    does not compare below. */
module ChannelSort {
  import opened Common
  import opened JsString
  import opened Header

  /** Three-way comparison of two strings by code units. */
  function CompareText(a: string, b: string): (r: int)
    ensures r == 0 <==> a == b
    ensures r == 1 <==> Less(b, a)
    ensures r == -1 <==> Less(a, b)
  {
    LessTrichotomy(a, b);
    LessIrreflexive(a);
    if Less(b, a) then 1 else if Less(a, b) then -1 else 0
  }

  /** `null > s` and `null < s` compare 0 with ToNumber(s). */
  function CompareNull(s: string): (r: int)
    ensures r == 1 <==> ToNumberClass(s) == Negative
    ensures r == -1 <==> ToNumberClass(s) == Positive
    ensures r == 0 <==> ToNumberClass(s) in {NaN, Zero}
  {
    match ToNumberClass(s)
    case Negative => 1
    case Positive => -1
    case _ => 0
  }

  /** The suffixes: strings by code units; a missing suffix (null) against a
      string by the number the string reads as; two missing ones are equal. */
  function CompareSuffix(a: Option<string>, b: Option<string>): (r: int)
    ensures r in {-1, 0, 1}
    ensures a.Some? && b.Some? ==> (r == 0 <==> a == b)
    ensures a.None? && b.None? ==> r == 0
  {
    match (a, b)
    case (Some(x), Some(y)) => CompareText(x, y)
    case (None, Some(y)) => CompareNull(y)
    case (Some(x), None) => -CompareNull(x)
    case (None, None) => 0
  }

  /** The comparator of channels.sort. */
  function Compare(a: Channel, b: Channel): (r: int)
    ensures r in {-1, 0, 1}
    ensures Less(a.id, b.id) ==> r == -1
    ensures Less(b.id, a.id) ==> r == 1
  {
    LessTrichotomy(a.id, b.id);
    if Less(b.id, a.id) then 1
    else if Less(a.id, b.id) then -1
    else CompareSuffix(a.idCh, b.idCh)
  }

  /** A suffix that underflows to zero compares equal to a missing one:
      x.1e-400 and x keep their file order. */
  lemma CompareUnderflow()
    ensures var plain := Channel(0, "x", "x", None, 1, 0, 1, 1);
      var tiny := Channel(1, "x.1e-400", "x", Some("1e-400"), 1, 0, 1, 1);
      Compare(plain, tiny) == 0 && Compare(tiny, plain) == 0
  {
    LessIrreflexive("x");
    LooselyZeroUnderflow();
  }

  /** The comparator is antisymmetric, and it orders ids strictly first. */
  lemma CompareAntisymmetric(a: Channel, b: Channel)
    ensures Compare(a, b) == -Compare(b, a)
    ensures Compare(a, b) <= 0 ==> !Less(b.id, a.id)
  {
    LessTrichotomy(a.id, b.id);
    if a.idCh.Some? && b.idCh.Some? {
      LessTrichotomy(a.idCh.value, b.idCh.value);
    }
  }

  /** The comparator is not transitive once a missing suffix meets numeric
      ones: x.5 comes after x, x.abc equals x, and yet x.5 comes before x.abc. */
  lemma CompareNotTransitive()
    ensures var plain := Channel(0, "x", "x", None, 1, 0, 1, 1);
      var five := Channel(1, "x.5", "x", Some("5"), 1, 0, 1, 1);
      var word := Channel(2, "x.abc", "x", Some("abc"), 1, 0, 1, 1);
      Compare(plain, five) == -1 && Compare(plain, word) == 0 && Compare(five, word) == -1
  {
    LessIrreflexive("x");
    var five := "5";
    assert LeadingSpace(five) == 0 && TrailingSpace(five) == 0;
    Untrimmed(five);
    assert !IsNonDecimal(five);
    assert SkipDigits(five, 1) == 1 && SkipDigits(five, 0) == 1;
    assert five[..1] == five;
    assert ToNumberClass(five) == Positive;
    var word := "abc";
    assert LeadingSpace(word) == 0 && TrailingSpace(word) == 0;
    Untrimmed(word);
    assert !IsNonDecimal(word) && SkipDigits(word, 0) == 0;
    assert ToNumberClass(word) == NaN;
    assert Less(five, word);
  }

  /** Compare(a, b) is -Compare(b, a) for all channels. */
  lemma CompareAntisymmetricAll()
    ensures Antisymmetric(Compare)
  {
    forall a: Channel, b: Channel
      ensures Compare(a, b) == -Compare(b, a)
    {
      CompareAntisymmetric(a, b);
    }
  }

  // ------------------------------------------------------------- sorting

  /** A three-way comparator that flips sign when its arguments swap. */
  ghost predicate Antisymmetric<T(!new)>(cmp: (T, T) -> int)
  {
    forall a, b :: cmp(a, b) == -cmp(b, a)
  }

  /** x put into t from the back: after the last element that does not
      compare above it. */
  function Insert<T>(t: seq<T>, x: T, cmp: (T, T) -> int): (r: seq<T>)
    ensures |r| == |t| + 1
  {
    if |t| == 0 || cmp(t[|t| - 1], x) <= 0 then t + [x]
    else Insert(t[..|t| - 1], x, cmp) + [t[|t| - 1]]
  }

  /** The sequence sorted: each element inserted into the sorted elements
      before it. */
  function Sort<T>(s: seq<T>, cmp: (T, T) -> int): (r: seq<T>)
    ensures |r| == |s|
  {
    if |s| == 0 then [] else Insert(Sort(s[..|s| - 1], cmp), s[|s| - 1], cmp)
  }

  /** Every neighbour pair is in comparator order. */
  predicate LocallySorted<T>(t: seq<T>, cmp: (T, T) -> int)
  {
    forall k :: 0 < k < |t| ==> cmp(t[k - 1], t[k]) <= 0
  }

  /** Insert keeps every element and adds x. */
  lemma {:induction false} InsertPermutes<T>(t: seq<T>, x: T, cmp: (T, T) -> int)
    ensures multiset(Insert(t, x, cmp)) == multiset(t) + multiset{x}
    decreases |t|
  {
    if |t| > 0 && cmp(t[|t| - 1], x) > 0 {
      InsertPermutes(t[..|t| - 1], x, cmp);
      assert t == t[..|t| - 1] + [t[|t| - 1]];
    }
  }

  /** The last element after an insertion is x or the previous last one. */
  lemma InsertLast<T>(t: seq<T>, x: T, cmp: (T, T) -> int)
    ensures var r := Insert(t, x, cmp); r[|r| - 1] == x || (|t| > 0 && r[|r| - 1] == t[|t| - 1])
  {
  }

  /** Insert into a locally sorted sequence leaves it locally sorted. */
  lemma {:induction false} InsertSorted<T(!new)>(t: seq<T>, x: T, cmp: (T, T) -> int)
    requires Antisymmetric(cmp) && LocallySorted(t, cmp)
    ensures LocallySorted(Insert(t, x, cmp), cmp)
    decreases |t|
  {
    if |t| > 0 {
      var last := t[|t| - 1];
      if cmp(last, x) <= 0 {
        assert Insert(t, x, cmp) == t + [x];
      } else {
        var u := t[..|t| - 1];
        assert LocallySorted(u, cmp);
        InsertSorted(u, x, cmp);
        var w := Insert(u, x, cmp);
        InsertLast(u, x, cmp);
        assert cmp(x, last) == -cmp(last, x);
        assert cmp(w[|w| - 1], last) <= 0;
        assert Insert(t, x, cmp) == w + [last];
      }
    }
  }

  /** Sorting permutes the elements. */
  lemma {:induction false} SortPermutes<T>(s: seq<T>, cmp: (T, T) -> int)
    ensures multiset(Sort(s, cmp)) == multiset(s)
    decreases |s|
  {
    if |s| > 0 {
      SortPermutes(s[..|s| - 1], cmp);
      InsertPermutes(Sort(s[..|s| - 1], cmp), s[|s| - 1], cmp);
      assert s == s[..|s| - 1] + [s[|s| - 1]];
    }
  }

  /** The sorted elements are in comparator order pairwise. */
  lemma {:induction false} SortSorted<T(!new)>(s: seq<T>, cmp: (T, T) -> int)
    requires Antisymmetric(cmp)
    ensures LocallySorted(Sort(s, cmp), cmp)
    decreases |s|
  {
    if |s| > 0 {
      SortSorted(s[..|s| - 1], cmp);
      InsertSorted(Sort(s[..|s| - 1], cmp), s[|s| - 1], cmp);
    }
  }

  /** Elements already in comparator order are left where they are. */
  lemma {:induction false} SortKeepsOrdered<T>(s: seq<T>, cmp: (T, T) -> int)
    requires LocallySorted(s, cmp)
    ensures Sort(s, cmp) == s
    decreases |s|
  {
    if |s| > 0 {
      var u := s[..|s| - 1];
      var x := s[|s| - 1];
      assert LocallySorted(u, cmp);
      SortKeepsOrdered(u, cmp);
      if |u| > 0 {
        assert u[|u| - 1] == s[|s| - 2];
      }
      assert Insert(u, x, cmp) == u + [x];
      assert s == u + [x];
    }
  }

  /** Sorting twice is sorting once. */
  lemma SortIdempotent<T(!new)>(s: seq<T>, cmp: (T, T) -> int)
    requires Antisymmetric(cmp)
    ensures Sort(Sort(s, cmp), cmp) == Sort(s, cmp)
  {
    SortSorted(s, cmp);
    SortKeepsOrdered(Sort(s, cmp), cmp);
  }

  // ------------------------------------------------------------- channels

  /** The channel list as parseEXR sorts it. */
  function SortedChannels(s: seq<Channel>): (r: seq<Channel>)
    ensures multiset(r) == multiset(s)
    ensures LocallySorted(r, Compare)
  {
    SortPermutes(s, Compare);
    CompareAntisymmetricAll();
    SortSorted(s, Compare);
    Sort(s, Compare)
  }

  /** Ids in code-unit order across the whole sequence. */
  predicate IdsSorted(t: seq<Channel>)
  {
    forall i, j :: 0 <= i < j < |t| ==> !Less(t[j].id, t[i].id)
  }

  /** Neighbouring ids in code-unit order. */
  predicate IdsLocallySorted(t: seq<Channel>)
  {
    forall k :: 0 < k < |t| ==> !Less(t[k].id, t[k - 1].id)
  }

  /** Neighbours in comparator order have their ids in order. */
  lemma LocallySortedIds(t: seq<Channel>)
    requires LocallySorted(t, Compare)
    ensures IdsLocallySorted(t)
  {
    forall k | 0 < k < |t|
      ensures !Less(t[k].id, t[k - 1].id)
    {
      assert Compare(t[k - 1], t[k]) <= 0;
      CompareAntisymmetric(t[k - 1], t[k]);
    }
  }

  /** Ids in order between neighbours are in order across the sequence. */
  lemma {:induction false} IdsChain(t: seq<Channel>)
    requires IdsLocallySorted(t)
    ensures IdsSorted(t)
    decreases |t|
  {
    if |t| > 1 {
      var u := t[..|t| - 1];
      assert IdsLocallySorted(u);
      IdsChain(u);
      forall i | 0 <= i < |t| - 1
        ensures !Less(t[|t| - 1].id, t[i].id)
      {
        var k := |t| - 2;
        assert !Less(t[k + 1].id, t[k].id);
        if i < k {
          assert !Less(t[k].id, t[i].id);
          LessTrichotomy(t[k].id, t[i].id);
          LessTrichotomy(t[k + 1].id, t[k].id);
          if Less(t[k + 1].id, t[i].id) {
            if t[k].id != t[i].id {
              LessTransitive(t[i].id, t[k].id, t[k + 1].id);
              LessTrichotomy(t[k + 1].id, t[i].id);
            }
          }
        }
      }
    }
  }

  /** After the sort the layer ids are in order, whatever the suffixes are. */
  lemma SortOrdersIds(s: seq<Channel>)
    ensures IdsSorted(SortedChannels(s))
  {
    LocallySortedIds(SortedChannels(s));
    IdsChain(SortedChannels(s));
  }

  /** Every channel has a component suffix. */
  predicate AllSuffixed(t: seq<Channel>)
  {
    forall k :: 0 <= k < |t| ==> t[k].idCh.Some?
  }

  /** A permutation of suffixed channels is suffixed. */
  lemma PermutedSuffixed(s: seq<Channel>, t: seq<Channel>)
    requires multiset(s) == multiset(t) && AllSuffixed(s)
    ensures AllSuffixed(t)
  {
    forall k | 0 <= k < |t|
      ensures t[k].idCh.Some?
    {
      assert t[k] in multiset(t);
      var m :| 0 <= m < |s| && s[m] == t[k];
    }
  }

  /** With every suffix present the comparator is a total order on (id,
      suffix), and the sorted channels are in that order. */
  lemma SortOrdersSuffixes(s: seq<Channel>)
    requires AllSuffixed(s)
    ensures AllSuffixed(SortedChannels(s))
    ensures forall k :: 0 < k < |s| ==>
      (SortedChannels(s)[k - 1].id != SortedChannels(s)[k].id
       || !Less(SortedChannels(s)[k].idCh.value, SortedChannels(s)[k - 1].idCh.value))
  {
    var t := SortedChannels(s);
    PermutedSuffixed(s, t);
    forall k | 0 < k < |s|
      ensures t[k - 1].id != t[k].id || !Less(t[k].idCh.value, t[k - 1].idCh.value)
    {
      assert Compare(t[k - 1], t[k]) <= 0;
      LessTrichotomy(t[k].idCh.value, t[k - 1].idCh.value);
    }
  }

  /** Sorting the sorted channels changes nothing. */
  lemma SortedChannelsIdempotent(s: seq<Channel>)
    ensures SortedChannels(SortedChannels(s)) == SortedChannels(s)
  {
    SortKeepsOrdered(SortedChannels(s), Compare);
  }

  // ------------------------------------------------------------- in place

  /** x goes in at j when every element from j on compares above it and
      the one before j does not. */
  lemma {:induction false} InsertAtPlace<T>(t: seq<T>, x: T, j: nat, cmp: (T, T) -> int)
    requires j <= |t| && (j == 0 || cmp(t[j - 1], x) <= 0)
    requires forall k :: j <= k < |t| ==> cmp(t[k], x) > 0
    ensures Insert(t, x, cmp) == t[..j] + [x] + t[j..]
    decreases |t|
  {
    if j < |t| {
      var u := t[..|t| - 1];
      InsertAtPlace(u, x, j, cmp);
      assert u[..j] == t[..j] && u[j..] + [t[|t| - 1]] == t[j..];
    } else {
      assert t[..j] == t;
    }
  }

  /** Shifts up by one the elements before a[i] that compare above x, and
      says where x goes. */
  method ShiftUp<T>(a: array<T>, i: nat, x: T, cmp: (T, T) -> int) returns (j: nat)
    requires i < a.Length
    modifies a
    ensures j <= i
    ensures forall k :: 0 <= k < j ==> a[k] == old(a[k])
    ensures forall k :: j < k <= i ==> a[k] == old(a[k - 1])
    ensures forall k :: i < k < a.Length ==> a[k] == old(a[k])
    ensures Insert(old(a[..i]), x, cmp) == old(a[..j]) + [x] + old(a[j..i])
  {
    ghost var t := a[..i];
    j := i;
    while j > 0 && cmp(a[j - 1], x) > 0
      invariant 0 <= j <= i
      invariant forall k :: 0 <= k < j ==> a[k] == t[k]
      invariant forall k :: j < k <= i ==> a[k] == t[k - 1]
      invariant forall k :: i < k < a.Length ==> a[k] == old(a[k])
      invariant forall k :: j <= k < i ==> cmp(t[k], x) > 0
      decreases j
    {
      a[j] := a[j - 1];
      j := j - 1;
    }
    InsertAtPlace(t, x, j, cmp);
  }

  /** Moves a[i] down past the elements before it that compare above it. */
  method InsertAt<T>(a: array<T>, i: nat, cmp: (T, T) -> int)
    requires i < a.Length
    modifies a
    ensures a[..i + 1] == Insert(old(a[..i]), old(a[i]), cmp)
    ensures a[i + 1..] == old(a[i + 1..])
  {
    var x := a[i];
    var j := ShiftUp(a, i, x, cmp);
    a[j] := x;
    assert a[..i + 1] == old(a[..j]) + [x] + old(a[j..i]);
  }

  /** array.sort(cmp), in place. */
  method SortInPlace<T>(a: array<T>, cmp: (T, T) -> int)
    modifies a
    ensures a[..] == Sort(old(a[..]), cmp)
  {
    ghost var s := a[..];
    var i := 0;
    while i < a.Length
      invariant 0 <= i <= a.Length
      invariant a[..i] == Sort(s[..i], cmp)
      invariant a[i..] == s[i..]
    {
      InsertAt(a, i, cmp);
      assert s[..i + 1][..i] == s[..i];
      i := i + 1;
    }
    assert s[..a.Length] == s;
  }

  /** channels.sort with parseEXR's comparator. */
  method SortChannels(a: array<Channel>)
    modifies a
    ensures a[..] == SortedChannels(old(a[..]))
  {
    SortInPlace(a, Compare);
  }
}
