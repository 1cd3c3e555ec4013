/** The viewer's ImageManager: the cache of loaded images, the image shown
    (active), the image it is compared against (reference), the channel
    group shown, and the cache of statistics computed for them. */
module Images {
  import opened Common

  /** A loaded image, as far as the manager looks at it: its identifier,
      its size and how many channel groups it has. */
  datatype Image = Image(uuid: string, width: int, height: int, groupCount: nat)

  /** Computed statistics, which the manager stores and never inspects. */
  datatype Histogram = Histogram(bins: seq<int>)

  /** The statistics of one image by statistics key, and the buckets of all
      images by uuid. */
  type Bucket = map<string, Histogram>
  type StatisticsCache = map<string, Bucket>

  /** cache_limits: the colour-scale limits last computed and what they were
      computed for; null is None. */
  datatype Limits = Limits(refUuid: Option<string>, channelIndex: Option<int>, metric: Option<int>,
                           minLimit: Option<real>, maxLimit: Option<real>)

  /** The limits the constructor starts with. */
  const StartLimits := Limits(None, None, None, Some(0.0), Some(1.0))

  /** The limits reset_limits leaves: everything null, to be recomputed. */
  const ClearedLimits := Limits(None, None, None, None, None)

  // ------------------------------------------------------- index arithmetic

  /** The single wrap of shift_image and shift_channel_group: a negative
      position counts back from n, one at or past n counts on from 0. A
      position less than one turn outside [0, n) lands in range, at the
      position modulo n. */
  function Wrap(x: int, n: int): (r: int)
    ensures n > 0 && -n <= x < 2 * n ==> 0 <= r < n && r == x % n
  {
    var y := if x < 0 then n + x else x;
    var w := if y >= n then y - n else y;
    if n > 0 && -n <= x < 2 * n then
      ModUnique(x, n, if x < 0 then -1 else if x < n then 0 else 1, w);
      w
    else w
  }

  /** The wrap is applied once: a longer jump back leaves the range. */
  lemma WrapOnce()
    ensures Wrap(0 - 5, 2) == -3
    ensures Wrap(1 + 4, 2) == 3
  {
  }

  /** ref_image after remove_image(i): -1 when the reference is removed,
      one less when it came after i. */
  function RefAfterRemove(reference: int, i: int): (r: int)
    ensures reference == i ==> r == -1
    ensures reference != i ==> (if r >= i then r + 1 else r) == reference
    ensures reference != i ==> (r >= i <==> reference > i)
  {
    if reference == i then -1 else if reference > i then reference - 1 else reference
  }

  /** active_image after remove_image(i), with `left` images remaining. */
  function ActiveAfterRemove(active: int, i: int, left: int): (r: int)
    ensures active != i ==> r == RefAfterRemove(active, i)
    ensures 0 <= active == i <= left && left > 0 ==> 0 <= r < left
    ensures active == i && (i > 0 || left == 0) ==> r == i - 1
  {
    if active == i then (if active - 1 == -1 && left > 0 then 0 else active - 1)
    else if active > i then active - 1
    else active
  }

  /** image_cache.splice(i, 1). */
  function Removed(s: seq<Image>, i: nat): (r: seq<Image>)
    requires i < |s|
    ensures |r| == |s| - 1
  {
    s[..i] + s[i + 1..]
  }

  /** An index other than the removed one follows its image: the reference
      and the active image stay on the images they showed. */
  lemma RemoveFollowsImage(s: seq<Image>, i: nat, k: int)
    requires i < |s| && 0 <= k < |s| && k != i
    ensures 0 <= RefAfterRemove(k, i) < |s| - 1
    ensures Removed(s, i)[RefAfterRemove(k, i)] == s[k]
    ensures ActiveAfterRemove(k, i, |s| - 1) == RefAfterRemove(k, i)
  {
  }

  /** Removing the active image shows the one before it, or the new first
      image when it was the first, or nothing when none remain; a valid
      active index stays valid. */
  lemma RemoveActive(a: int, i: nat, n: nat)
    requires i < n && -1 <= a < n
    ensures -1 <= ActiveAfterRemove(a, i, n - 1) < n - 1
    ensures a == i ==> ActiveAfterRemove(a, i, n - 1) == (if i > 0 then i - 1 else if n > 1 then 0 else -1)
    ensures a != -1 && n > 1 ==> ActiveAfterRemove(a, i, n - 1) != -1
  {
  }

  // ------------------------------------------------------- find_uuid

  /** The first cache index holding an image with this uuid, or -1. */
  function IndexOf(images: seq<Image>, uuid: string): (i: int)
    ensures -1 <= i < |images|
    ensures i == -1 <==> forall j :: 0 <= j < |images| ==> images[j].uuid != uuid
    ensures i >= 0 ==> images[i].uuid == uuid && forall j :: 0 <= j < i ==> images[j].uuid != uuid
  {
    if |images| == 0 then -1
    else if images[0].uuid == uuid then 0
    else
      var k := IndexOf(images[1..], uuid);
      if k == -1 then -1 else k + 1
  }

  // ------------------------------------------------------- get_image_data

  /** get_image_data(index, channel_index) over the cache and the active
      channel group: no image for a null or out-of-range index, an exception
      for an image without channel groups, else the image and the channel
      group asked for (the active one by default), falling back to group 0
      when that is past the image's groups. A negative group stays as it
      is: the source then returns undefined for the group. */
  function Lookup(images: seq<Image>, activeGroup: int, index: Option<int>, channel: Option<int>): (r: Result<Option<(Image, int)>>)
    ensures r.Err? <==> index.Some? && 0 <= index.value < |images| && images[index.value].groupCount == 0
    ensures r.Err? ==> r.error == NoChannelGroups
    ensures r == Ok(None) <==> index.None? || !(0 <= index.value < |images|)
    ensures r.Ok? && r.value.Some? ==> r.value.value.0 == images[index.value]
    ensures r.Ok? && r.value.Some? ==> r.value.value.1 < r.value.value.0.groupCount
    ensures r.Ok? && r.value.Some? ==>
      var wanted := if channel.Some? then channel.value else activeGroup;
      r.value.value.1 == wanted || (r.value.value.1 == 0 && wanted >= r.value.value.0.groupCount)
  {
    if index.None? || index.value < 0 || index.value >= |images| then Ok(None)
    else
      var image := images[index.value];
      if image.groupCount == 0 then Err(NoChannelGroups)
      else
        var id := if channel.Some? then channel.value else activeGroup;
        Ok(Some((image, if id >= image.groupCount then 0 else id)))
  }

  /** What a method that looked the current image up returns: the lookup's
      exception, if any. */
  function Thrown(look: Result<Option<(Image, int)>>): Result<()>
  {
    if look.Err? then Err(look.error) else Ok(())
  }

  /** The active channel group after an image is selected: reset to 0 when
      it is past the groups of the image now shown. */
  function ResetGroup(look: Result<Option<(Image, int)>>, group: int): int
  {
    if look.Ok? && look.value.Some? && group >= look.value.value.0.groupCount then 0 else group
  }

  /** After the reset a non-negative group is one of the shown image's. */
  lemma ResetGroupValid(images: seq<Image>, group: int, index: int)
    requires Lookup(images, group, Some(index), None).Ok?
    requires Lookup(images, group, Some(index), None).value.Some?
    requires group >= 0
    ensures 0 <= ResetGroup(Lookup(images, group, Some(index), None), group) < images[index].groupCount
  {
  }

  // ------------------------------------------------------- get_max_dims

  function Max(a: int, b: int): int
  {
    if a >= b then a else b
  }

  /** The largest width or height in the cache, and 0 at least. */
  function Largest(images: seq<Image>): (m: int)
    ensures m >= 0
  {
    if |images| == 0 then 0
    else Max(Largest(images[..|images| - 1]), Max(images[|images| - 1].width, images[|images| - 1].height))
  }

  /** e is a non-negative even number no image is wider or taller than. */
  predicate EvenBound(images: seq<Image>, e: int)
  {
    e >= 0 && e % 2 == 0 && forall k :: 0 <= k < |images| ==> images[k].width <= e && images[k].height <= e
  }

  /** No image exceeds Largest, and Largest is 0 or the size of one. */
  lemma {:induction false} LargestBounds(images: seq<Image>)
    ensures forall k :: 0 <= k < |images| ==> images[k].width <= Largest(images) && images[k].height <= Largest(images)
    ensures Largest(images) == 0 || exists k :: 0 <= k < |images| && (images[k].width == Largest(images) || images[k].height == Largest(images))
  {
    if |images| > 0 {
      var init := images[..|images| - 1];
      LargestBounds(init);
      assert forall k :: 0 <= k < |init| ==> init[k] == images[k];
      if Largest(images) != 0 && Largest(images) == Largest(init) {
        var k :| 0 <= k < |init| && (init[k].width == Largest(init) || init[k].height == Largest(init));
        assert images[k] == init[k];
      }
    }
  }

  /** get_max_dims returns the least non-negative even bound of all widths
      and heights. */
  lemma MaxDimsLeast(images: seq<Image>)
    ensures EvenBound(images, Largest(images) + Largest(images) % 2)
    ensures forall e :: EvenBound(images, e) ==> Largest(images) + Largest(images) % 2 <= e
  {
    LargestBounds(images);
    forall e | EvenBound(images, e)
      ensures Largest(images) + Largest(images) % 2 <= e
    {
      if Largest(images) != 0 {
        var k :| 0 <= k < |images| && (images[k].width == Largest(images) || images[k].height == Largest(images));
        assert Largest(images) <= e;
      }
    }
  }

  // ------------------------------------------------------- statistics keys

  /** The character of decimal digit d. */
  function DigitChar(d: nat): (c: char)
    requires d < 10
    ensures c as int - '0' as int == d
  {
    (d + '0' as int) as char
  }

  /** The decimal digits of n, as a template literal prints a number. */
  function Digits(n: nat): (s: string)
    ensures |s| >= 1 && forall i :: 0 <= i < |s| ==> '0' <= s[i] <= '9'
  {
    if n < 10 then [DigitChar(n)] else Digits(n / 10) + [DigitChar(n % 10)]
  }

  /** The number a string of decimal digits spells. */
  function DigitsValue(s: string): int
  {
    if |s| == 0 then 0 else 10 * DigitsValue(s[..|s| - 1]) + (s[|s| - 1] as int - '0' as int)
  }

  /** Printing a number and reading it back gives the number. */
  lemma {:induction false} DigitsRoundTrip(n: nat)
    ensures DigitsValue(Digits(n)) == n
  {
    if n >= 10 {
      var q, d := n / 10, n % 10;
      DigitsRoundTrip(q);
      var s := Digits(q) + [DigitChar(d)];
      assert s[..|s| - 1] == Digits(q);
      assert s[|s| - 1] == DigitChar(d);
      assert DigitsValue(s) == 10 * q + d;
    }
  }

  /** `${n}` for an integer n. */
  function Decimal(n: int): string
  {
    if n < 0 then "-" + Digits(-n) else Digits(n)
  }

  /** The tag a statistics key opens with when computed against a
      reference image. */
  function RefTag(uuid: string): string
  {
    "{" + uuid + "}"
  }

  /** What follows the reference tag in a statistics key: "|metric|" and
      "[img]", each left out when null, then "(channel)". */
  function KeyTail(img: Option<string>, metric: Option<string>, channel: int): (t: string)
    ensures |t| >= 1 && t[0] != '{'
  {
    (if metric.Some? then "|" + metric.value + "|" else "")
    + (if img.Some? then "[" + img.value + "]" else "")
    + "(" + Decimal(channel) + ")"
  }

  /** statistics_key: "{ref}" when there is a reference, then the tail. */
  function StatisticsKey(img: Option<string>, reference: Option<string>, metric: Option<string>, channel: int): (r: string)
    ensures |r| > 0 && (r[0] == '{' <==> reference.Some?)
    ensures reference.Some? ==> RefTag(reference.value) <= r
  {
    (if reference.Some? then RefTag(reference.value) else "") + KeyTail(img, metric, channel)
  }

  /** Two tags without '}' inside are prefixes of one another's strings
      only when they are the same. */
  lemma TagPrefix(u: string, r: string, tail: string)
    requires '}' !in u && '}' !in r
    requires RefTag(u) <= RefTag(r) + tail
    ensures u == r
  {
    var key := RefTag(r) + tail;
    assert key[|r| + 1] == '}';
    assert forall i :: 0 <= i < |r| ==> key[i + 1] == r[i];
    assert RefTag(u)[|u| + 1] == '}';
    assert forall i :: 0 <= i < |u| ==> RefTag(u)[i + 1] == u[i];
    assert |u| == |r|;
    assert forall i :: 0 <= i < |u| ==> u[i] == r[i];
  }

  /** A key opens with a reference tag exactly when it was computed against
      that reference: identifiers without '}' cannot be confused. */
  lemma KeyTagged(img: Option<string>, reference: Option<string>, metric: Option<string>, channel: int, uuid: string)
    requires '}' !in uuid
    requires reference.Some? ==> '}' !in reference.value
    ensures RefTag(uuid) <= StatisticsKey(img, reference, metric, channel) <==> reference == Some(uuid)
  {
    var tail := KeyTail(img, metric, channel);
    if reference.None? {
      assert StatisticsKey(img, reference, metric, channel)[0] == tail[0];
    } else if RefTag(uuid) <= StatisticsKey(img, reference, metric, channel) {
      TagPrefix(uuid, reference.value, tail);
    }
  }

  // ------------------------------------------------------- clean_statistics

  /** A bucket without the keys computed against reference uuid. */
  function WithoutRef(bucket: Bucket, uuid: string): (r: Bucket)
    ensures r.Keys <= bucket.Keys && forall k :: k in r ==> r[k] == bucket[k]
    ensures forall k :: k in bucket && k !in r ==> RefTag(uuid) <= k
    ensures forall k :: k in r ==> !(RefTag(uuid) <= k)
  {
    map k | k in bucket && !(RefTag(uuid) <= k) :: bucket[k]
  }

  /** The statistics cache after clean_statistics(uuid). */
  function Cleaned(cache: StatisticsCache, uuid: string): (r: StatisticsCache)
    ensures uuid !in r && r.Keys == cache.Keys - {uuid}
    ensures forall b :: b in r ==> r[b].Keys <= cache[b].Keys
  {
    map b | b in cache && b != uuid :: WithoutRef(cache[b], uuid)
  }

  /** clean_statistics(uuid) drops the image's own bucket, and in every
      other bucket exactly the statistics computed against it as reference. */
  lemma CleanedKeys(cache: StatisticsCache, uuid: string, b: string, img: Option<string>, reference: Option<string>,
                    metric: Option<string>, channel: int)
    requires '}' !in uuid
    requires reference.Some? ==> '}' !in reference.value
    ensures uuid !in Cleaned(cache, uuid)
    ensures b in Cleaned(cache, uuid) <==> b in cache && b != uuid
    ensures b in Cleaned(cache, uuid) ==>
      var key := StatisticsKey(img, reference, metric, channel);
      (key in Cleaned(cache, uuid)[b] <==> key in cache[b] && reference != Some(uuid))
      && (key in Cleaned(cache, uuid)[b] ==> Cleaned(cache, uuid)[b][key] == cache[b][key])
  {
    KeyTagged(img, reference, metric, channel, uuid);
  }

  /** The inner loop of clean_statistics: delete the bucket's keys that
      open with the reference tag. */
  method FilterBucket(bucket: Bucket, uuid: string) returns (r: Bucket)
    ensures r == WithoutRef(bucket, uuid)
  {
    r := bucket;
    var keys := bucket.Keys;
    while keys != {}
      invariant keys <= bucket.Keys
      invariant forall k :: k in r <==> k in bucket && (k in keys || !(RefTag(uuid) <= k))
      invariant forall k :: k in r ==> r[k] == bucket[k]
      decreases keys
    {
      var k :| k in keys;
      if RefTag(uuid) <= k {
        r := r - {k};
      }
      keys := keys - {k};
    }
  }

  // ------------------------------------------------------- the manager

  class ImageManager {
    var images: seq<Image>
    var nImages: int
    var active: int
    var reference: int
    var activeGroup: int
    var statistics: StatisticsCache
    var limits: Limits

    /** n_images counts the cached images. */
    ghost predicate Valid()
      reads this
    {
      nImages == |images|
    }

    constructor ()
      ensures Valid()
      ensures images == [] && statistics == map[] && limits == StartLimits
      ensures active == -1 && reference == -1 && activeGroup == 0
    {
      images := [];
      nImages := 0;
      active := -1;
      reference := -1;
      activeGroup := 0;
      statistics := map[];
      limits := StartLimits;
    }

    /** set_active_image: an index outside the cache throws. */
    method SetActiveImage(index: int) returns (r: Result<()>)
      requires Valid()
      modifies this
      ensures Valid()
      ensures r.Err? <==> !(0 <= index < |images|)
      ensures r.Err? ==> r.error == InvalidImageIndex
      ensures active == (if r.Ok? then index else old(active))
      ensures images == old(images) && reference == old(reference) && activeGroup == old(activeGroup)
      ensures statistics == old(statistics) && limits == old(limits)
    {
      if index < 0 || index >= |images| {
        return Err(InvalidImageIndex);
      }
      active := index;
      r := Ok(());
    }

    /** set_ref_image: an index outside the cache throws. */
    method SetRefImage(index: int) returns (r: Result<()>)
      requires Valid()
      modifies this
      ensures Valid()
      ensures r.Err? <==> !(0 <= index < |images|)
      ensures r.Err? ==> r.error == InvalidImageIndex
      ensures reference == (if r.Ok? then index else old(reference))
      ensures images == old(images) && active == old(active) && activeGroup == old(activeGroup)
      ensures statistics == old(statistics) && limits == old(limits)
    {
      if index < 0 || index >= |images| {
        return Err(InvalidImageIndex);
      }
      reference := index;
      r := Ok(());
    }

    /** find_uuid: the first index holding the uuid, or -1 (the image
        itself is images[i]). */
    method FindUuid(uuid: string) returns (i: int)
      ensures i == IndexOf(images, uuid)
      ensures i == -1 <==> forall j :: 0 <= j < |images| ==> images[j].uuid != uuid
      ensures i >= 0 ==> images[i].uuid == uuid
    {
      i := 0;
      while i < |images|
        invariant 0 <= i <= |images|
        invariant forall j :: 0 <= j < i ==> images[j].uuid != uuid
        decreases |images| - i
      {
        if images[i].uuid == uuid {
          return;
        }
        i := i + 1;
      }
      i := -1;
    }

    /** A reloaded image replaces the cached image with the same uuid and
        drops the statistics involving it; when that image is gone by the
        time it arrives, nothing changes. */
    method ReloadImage(uuid: string, image: Image)
      requires Valid()
      modifies this
      ensures Valid()
      ensures var i := IndexOf(old(images), uuid);
        if i == -1 then images == old(images) && statistics == old(statistics) && limits == old(limits)
        else images == old(images)[i := image] && statistics == Cleaned(old(statistics), uuid) && limits == ClearedLimits
      ensures active == old(active) && reference == old(reference) && activeGroup == old(activeGroup)
    {
      var i := FindUuid(uuid);
      if i == -1 {
        return;
      }
      images := images[i := image];
      CleanStatistics(uuid);
    }

    /** A newly loaded image: appended, given an empty bucket of
        statistics, and made the active image. */
    method AddImage(image: Image)
      requires Valid()
      modifies this
      ensures Valid()
      ensures images == old(images) + [image] && active == old(nImages) && active == |images| - 1
      ensures statistics == old(statistics)[image.uuid := map[]]
      ensures reference == old(reference) && activeGroup == old(activeGroup) && limits == old(limits)
    {
      images := images + [image];
      statistics := statistics[image.uuid := map[]];
      active := nImages;
      nImages := nImages + 1;
    }

    /** clean_statistics: the bucket loop, then reset_limits. */
    method CleanStatistics(uuid: string)
      modifies this
      ensures statistics == Cleaned(old(statistics), uuid) && limits == ClearedLimits
      ensures images == old(images) && nImages == old(nImages)
      ensures active == old(active) && reference == old(reference) && activeGroup == old(activeGroup)
    {
      if uuid in statistics {
        statistics := statistics - {uuid};
      }
      ghost var start := statistics;
      var keys := statistics.Keys;
      while keys != {}
        invariant keys <= statistics.Keys && statistics.Keys == start.Keys
        invariant forall b :: b in statistics ==> statistics[b] == (if b in keys then start[b] else WithoutRef(start[b], uuid))
        invariant images == old(images) && nImages == old(nImages)
        invariant active == old(active) && reference == old(reference) && activeGroup == old(activeGroup)
        decreases keys
      {
        var b :| b in keys;
        var bucket := FilterBucket(statistics[b], uuid);
        statistics := statistics[b := bucket];
        keys := keys - {b};
      }
      limits := ClearedLimits;
    }

    /** remove_image(index): -1 stands for the active image; an index
        outside the cache throws before anything changes. */
    method RemoveImage(index: int) returns (r: Result<()>)
      requires Valid()
      modifies this
      ensures Valid()
      ensures var i := if index == -1 then old(active) else index;
        r.Err? <==> !(0 <= i < old(|images|))
      ensures r.Err? ==> r.error == InvalidImageIndex
      ensures r.Err? ==> images == old(images) && statistics == old(statistics) && limits == old(limits)
      ensures r.Err? ==> active == old(active) && reference == old(reference) && activeGroup == old(activeGroup)
      ensures r.Ok? ==> var i := if index == -1 then old(active) else index;
        0 <= i < old(|images|)
        && images == Removed(old(images), i)
        && reference == RefAfterRemove(old(reference), i)
        && active == ActiveAfterRemove(old(active), i, |images|)
        && activeGroup == old(activeGroup)
        && statistics == Cleaned(old(statistics), old(images)[i].uuid)
        && limits == ClearedLimits
    {
      var i := if index == -1 then active else index;
      if i < 0 || i >= |images| {
        return Err(InvalidImageIndex);
      }
      if reference == i {
        reference := -1;
      } else if reference > i {
        reference := reference - 1;
      }
      nImages := nImages - 1;
      if active == i {
        active := active - 1;
        active := if active == -1 && nImages > 0 then 0 else active;
      } else if active > i {
        active := active - 1;
      }
      CleanStatistics(images[i].uuid);
      images := images[..i] + images[i + 1..];
      r := Ok(());
    }

    /** shift_image(offset): move the active index by offset with one
        wrap, then reset the channel group if the image shown has fewer. */
    method ShiftImage(offset: int) returns (r: Result<()>)
      requires Valid()
      modifies this
      ensures Valid()
      ensures active == Wrap(old(active) + offset, old(nImages))
      ensures var look := Lookup(images, old(activeGroup), Some(active), None);
        r == Thrown(look) && activeGroup == (if look.Err? then old(activeGroup) else ResetGroup(look, old(activeGroup)))
      ensures images == old(images) && reference == old(reference) && statistics == old(statistics) && limits == old(limits)
    {
      active := active + offset;
      if active < 0 {
        active := nImages + active;
      }
      if active >= nImages {
        active := active - nImages;
      }
      var look := Lookup(images, activeGroup, Some(active), None);
      if look.Err? {
        return Err(look.error);
      }
      if look.value.None? {
        return Ok(());
      }
      if activeGroup >= look.value.value.0.groupCount {
        activeGroup := 0;
      }
      r := Ok(());
    }

    /** shift_channel_group(offset): with an image shown, move the group
        by offset with one wrap within its groups. */
    method ShiftChannelGroup(offset: int) returns (r: Result<()>)
      requires Valid()
      modifies this
      ensures Valid()
      ensures var look := Lookup(old(images), old(activeGroup), Some(old(active)), None);
        r == Thrown(look)
        && activeGroup == (if look.Ok? && look.value.Some? then Wrap(old(activeGroup) + offset, look.value.value.0.groupCount) else old(activeGroup))
      ensures images == old(images) && active == old(active) && reference == old(reference)
      ensures statistics == old(statistics) && limits == old(limits)
    {
      var look := Lookup(images, activeGroup, Some(active), None);
      if look.Err? {
        return Err(look.error);
      }
      if look.value.None? {
        return Ok(());
      }
      var count := look.value.value.0.groupCount;
      activeGroup := activeGroup + offset;
      if activeGroup < 0 {
        activeGroup := count + activeGroup;
      }
      if activeGroup >= count {
        activeGroup := activeGroup - count;
      }
      r := Ok(());
    }

    /** select_image(index, is_ref): an index at or past n_images is
        ignored; a reference selection toggles, an active one resets the
        channel group if the image now shown has fewer. */
    method SelectImage(index: int, isRef: bool) returns (r: Result<()>)
      requires Valid()
      modifies this
      ensures Valid()
      ensures index >= old(nImages) ==> r == Ok(()) && active == old(active) && reference == old(reference) && activeGroup == old(activeGroup)
      ensures index < old(nImages) && isRef ==>
        r == Ok(()) && reference == (if index == old(reference) then -1 else index)
        && active == old(active) && activeGroup == old(activeGroup)
      ensures index < old(nImages) && !isRef ==>
        var look := Lookup(images, old(activeGroup), Some(index), None);
        active == index && reference == old(reference) && r == Thrown(look)
        && activeGroup == (if look.Err? then old(activeGroup) else ResetGroup(look, old(activeGroup)))
      ensures images == old(images) && statistics == old(statistics) && limits == old(limits)
    {
      r := Ok(());
      if index < nImages {
        if isRef {
          reference := if index == reference then -1 else index;
        } else {
          active := index;
        }
        if !isRef {
          var look := Lookup(images, activeGroup, Some(active), None);
          if look.Err? {
            return Err(look.error);
          }
          if look.value.None? {
            return;
          }
          if activeGroup >= look.value.value.0.groupCount {
            activeGroup := 0;
          }
        }
      }
    }

    /** select_channel_group(index): with an image shown, that group, or 0
        when the image has no such group. */
    method SelectChannelGroup(index: int) returns (r: Result<()>)
      requires Valid()
      modifies this
      ensures Valid()
      ensures var look := Lookup(old(images), old(activeGroup), Some(old(active)), None);
        r == Thrown(look)
        && activeGroup == (if look.Ok? && look.value.Some? then (if index < look.value.value.0.groupCount then index else 0) else old(activeGroup))
      ensures images == old(images) && active == old(active) && reference == old(reference)
      ensures statistics == old(statistics) && limits == old(limits)
    {
      var look := Lookup(images, activeGroup, Some(active), None);
      if look.Err? {
        return Err(look.error);
      }
      if look.value.None? {
        return Ok(());
      }
      if index < look.value.value.0.groupCount {
        activeGroup := index;
      } else {
        activeGroup := 0;
      }
      r := Ok(());
    }

    /** clean_cache: no images, no statistics, nothing selected. */
    method CleanCache()
      modifies this
      ensures Valid()
      ensures images == [] && statistics == map[] && active == -1 && reference == -1 && limits == ClearedLimits
      ensures activeGroup == old(activeGroup)
    {
      images := [];
      statistics := map[];
      active := -1;
      reference := -1;
      nImages := 0;
      limits := ClearedLimits;
    }

    /** get_max_dims: the largest width or height, rounded up to even. */
    method MaxDims() returns (m: int)
      ensures m == Largest(images) + Largest(images) % 2
      ensures EvenBound(images, m) && forall e :: EvenBound(images, e) ==> m <= e
    {
      var maxDim := 0;
      var i := 0;
      while i < |images|
        invariant 0 <= i <= |images|
        invariant maxDim == Largest(images[..i])
        decreases |images| - i
      {
        var img := images[i];
        var localMax := Max(img.width, img.height);
        assert images[..i + 1][..i] == images[..i];
        maxDim := Max(maxDim, localMax);
        i := i + 1;
      }
      assert images[..i] == images;
      if maxDim % 2 > 0 {
        maxDim := maxDim + 1;
      }
      m := maxDim;
      MaxDimsLeast(images);
    }
  }
}
