/** The channel grouping of parseEXR: after the sort, runs of channels that
    spell one of the patterns RGBA, RGB, XYZ or UV (tried in that order) form
    one group; every other channel is a group of its own. Each group gets a
    name, a length (3 is widened to 4), a Float32Array for its pixels, and
    each channel a slot: its group and its place within a pixel. */
module Grouping {
  import opened Common
  import JsString
  import opened Header
  import opened Buffers

  // ------------------------------------------------------------ patterns

  predicate LowerLetters(g: string)
  {
    forall k :: 0 <= k < |g| ==> 'a' <= g[k] <= 'z'
  }

  const PatternCount: nat := 4

  /** GROUPS, in priority order. */
  function Pattern(i: nat): (g: string)
    requires i < PatternCount
    ensures LowerLetters(g) && 2 <= |g| <= 4
  {
    if i == 0 then "abgr" else if i == 1 then "bgr" else if i == 2 then "xyz" else "uv"
  }

  /** GROUPS_INFO: the label of each pattern. */
  function Label(i: nat): string
    requires i < PatternCount
  {
    if i == 0 then "(RGBA)" else if i == 1 then "(RGB)" else if i == 2 then "(XYZ)" else "(UV)"
  }

  /** GROUPS_INFO: whether each pattern's channels are placed in reverse. */
  predicate Reversed(i: nat)
    requires i < PatternCount
  {
    i == 0 || i == 1
  }

  /** A channel stands for letter c: its suffix or its id lower-cases to c. */
  predicate ChannelIs(ch: Channel, c: char)
    requires 'a' <= c <= 'z'
  {
    (ch.idCh.Some? && JsString.LowerCaseIs(ch.idCh.value, c)) || JsString.LowerCaseIs(ch.id, c)
  }

  // ---------------------------------------------------------- test_group

  /** The inner loop of test_group from j on. Its guard `j > channels.length`
      never fires: the first index it lets through past the end is
      channels.length itself, where `channels[j].id` reads a property of
      undefined. */
  function MatchFrom(tail: seq<Channel>, g: string, j: nat): (r: Result<bool>)
    requires LowerLetters(g)
    ensures r.Err? ==> r.error == TypeError
    decreases |g| - j
  {
    if j >= |g| then Ok(true)
    else if j > |tail| then Ok(false)
    else if j == |tail| then Err(TypeError)
    else if ChannelIs(tail[j], g[j]) then MatchFrom(tail, g, j + 1)
    else Ok(false)
  }

  /** The outer loop of test_group from pattern i on. */
  function TryGroups(tail: seq<Channel>, i: nat): (r: Result<Option<nat>>)
    requires i <= PatternCount
    ensures r.Err? ==> r.error == TypeError
    ensures r.Ok? && r.value.Some? ==> i <= r.value.value < PatternCount && |Pattern(r.value.value)| <= |tail|
    decreases PatternCount - i
  {
    if i == PatternCount then Ok(None)
    else
      var m :- MatchFrom(tail, Pattern(i), 0);
      if m then
        MatchFromBounded(tail, Pattern(i), 0);
        Ok(Some(i))
      else TryGroups(tail, i + 1)
  }

  /** test_group(channels): the first pattern the channels start with. */
  function TestGroup(tail: seq<Channel>): (r: Result<Option<nat>>)
    ensures r.Err? ==> r.error == TypeError
    ensures r.Ok? && r.value.Some? ==> r.value.value < PatternCount && |Pattern(r.value.value)| <= |tail|
  {
    TryGroups(tail, 0)
  }

  /** The channels spell pattern g from their start. */
  predicate Matches(tail: seq<Channel>, g: string)
    requires LowerLetters(g)
  {
    |g| <= |tail| && forall j :: 0 <= j < |g| ==> ChannelIs(tail[j], g[j])
  }

  /** The channels are all of them a proper prefix of pattern g. */
  predicate Truncates(tail: seq<Channel>, g: string)
    requires LowerLetters(g)
  {
    |tail| < |g| && forall j :: 0 <= j < |tail| ==> ChannelIs(tail[j], g[j])
  }

  lemma {:induction false} MatchFromBounded(tail: seq<Channel>, g: string, j: nat)
    requires LowerLetters(g)
    requires MatchFrom(tail, g, j) == Ok(true)
    ensures |g| <= |tail| || j > |tail|
    decreases |g| - j
  {
    if j < |g| && j < |tail| {
      MatchFromBounded(tail, g, j + 1);
    }
  }

  /** The inner loop accepts exactly a full match and crashes exactly on a
      tail that is a proper prefix of the pattern. */
  lemma {:induction false} MatchFromCases(tail: seq<Channel>, g: string, j: nat)
    requires LowerLetters(g) && j <= |tail| && j <= |g|
    requires forall k :: 0 <= k < j ==> ChannelIs(tail[k], g[k])
    ensures MatchFrom(tail, g, j) == if Matches(tail, g) then Ok(true)
                                     else if Truncates(tail, g) then Err(TypeError) else Ok(false)
    decreases |g| - j
  {
    if j < |g| && j < |tail| && ChannelIs(tail[j], g[j]) {
      MatchFromCases(tail, g, j + 1);
    }
  }

  /** The first pattern the channels match, from pattern i on. */
  function FirstMatch(tail: seq<Channel>, i: nat): (r: Option<nat>)
    requires i <= PatternCount
    ensures r.Some? ==> i <= r.value < PatternCount
    decreases PatternCount - i
  {
    if i == PatternCount then None
    else if Matches(tail, Pattern(i)) then Some(i)
    else FirstMatch(tail, i + 1)
  }

  /** No pattern in [i, k) is matched in full. */
  predicate NoMatchBelow(tail: seq<Channel>, i: nat, k: nat)
    requires k <= PatternCount
  {
    forall m :: i <= m < k ==> !Matches(tail, Pattern(m))
  }

  /** One turn of test_group's outer loop: a full match answers, a channel
      list that runs out inside the pattern crashes, anything else goes on
      to the next pattern. */
  lemma TryGroupsStep(tail: seq<Channel>, i: nat)
    requires i < PatternCount
    ensures TryGroups(tail, i) ==
      if Matches(tail, Pattern(i)) then Ok(Some(i))
      else if Truncates(tail, Pattern(i)) then Err(TypeError)
      else TryGroups(tail, i + 1)
  {
    MatchFromCases(tail, Pattern(i), 0);
  }

  /** test_group's answer, when it gives one, is the first full match. */
  lemma {:induction false} TryGroupsFirst(tail: seq<Channel>, i: nat)
    requires i <= PatternCount
    ensures TryGroups(tail, i).Ok? ==> TryGroups(tail, i).value == FirstMatch(tail, i)
    decreases PatternCount - i
  {
    if i < PatternCount {
      TryGroupsStep(tail, i);
      TryGroupsFirst(tail, i + 1);
    }
  }

  /** A crash of test_group is a channel list that runs out in the middle
      of a pattern before any full match. */
  lemma {:induction false} TryGroupsCrashWhy(tail: seq<Channel>, i: nat)
    requires i <= PatternCount && TryGroups(tail, i).Err?
    ensures exists k :: i <= k < PatternCount && Truncates(tail, Pattern(k)) && NoMatchBelow(tail, i, k)
    decreases PatternCount - i
  {
    TryGroupsStep(tail, i);
    if Truncates(tail, Pattern(i)) {
      assert NoMatchBelow(tail, i, i);
    } else {
      TryGroupsCrashWhy(tail, i + 1);
      var k :| i + 1 <= k < PatternCount && Truncates(tail, Pattern(k)) && NoMatchBelow(tail, i + 1, k);
      assert NoMatchBelow(tail, i, k);
    }
  }

  /** Such a channel list does crash test_group. */
  lemma {:induction false} TryGroupsCrashes(tail: seq<Channel>, i: nat, k: nat)
    requires i <= k < PatternCount && Truncates(tail, Pattern(k)) && NoMatchBelow(tail, i, k)
    ensures TryGroups(tail, i).Err?
    decreases k - i
  {
    TryGroupsStep(tail, i);
    if i < k {
      assert !Matches(tail, Pattern(i));
      assert NoMatchBelow(tail, i + 1, k);
      TryGroupsCrashes(tail, i + 1, k);
    } else {
      MatchesNotTruncates(tail, Pattern(k));
    }
  }

  lemma MatchesNotTruncates(tail: seq<Channel>, g: string)
    requires LowerLetters(g)
    ensures !(Matches(tail, g) && Truncates(tail, g))
  {
  }

  /** test_group crashes exactly when, before any full match, the channels
      run out in the middle of a pattern (B, G tried against b, g, r). */
  lemma TryGroupsCrash(tail: seq<Channel>, i: nat)
    requires i <= PatternCount
    ensures TryGroups(tail, i).Err? <==>
      exists k :: i <= k < PatternCount && Truncates(tail, Pattern(k)) && NoMatchBelow(tail, i, k)
  {
    if TryGroups(tail, i).Err? {
      TryGroupsCrashWhy(tail, i);
    }
    forall k | i <= k < PatternCount && Truncates(tail, Pattern(k)) && NoMatchBelow(tail, i, k)
      ensures TryGroups(tail, i).Err?
    {
      TryGroupsCrashes(tail, i, k);
    }
  }

  /** The same for the whole list of patterns. */
  lemma TestGroupSpec(tail: seq<Channel>)
    ensures TestGroup(tail).Ok? ==> TestGroup(tail).value == FirstMatch(tail, 0)
    ensures TestGroup(tail).Err? <==>
      exists k :: 0 <= k < PatternCount && Truncates(tail, Pattern(k)) && NoMatchBelow(tail, 0, k)
  {
    TryGroupsFirst(tail, 0);
    TryGroupsCrash(tail, 0);
  }

  /** The first full match wins: a channel run that spells a pattern is
      grouped by it unless an earlier pattern also matches. */
  lemma {:induction false} FirstMatchPriority(tail: seq<Channel>, i: nat)
    requires i <= PatternCount
    ensures FirstMatch(tail, i).Some? ==>
      (Matches(tail, Pattern(FirstMatch(tail, i).value))
       && i <= FirstMatch(tail, i).value && NoMatchBelow(tail, i, FirstMatch(tail, i).value))
    ensures FirstMatch(tail, i).None? ==> NoMatchBelow(tail, i, PatternCount)
    decreases PatternCount - i
  {
    if i < PatternCount {
      FirstMatchPriority(tail, i + 1);
    }
  }

  /** A plain channel: id and name alike, no suffix. */
  function Plain(index: nat, name: string): Channel
  {
    Channel(index, name, name, None, 1, 0, 1, 1)
  }

  /** B, G, R, sorted, form an RGB group. */
  lemma GroupExampleRgb()
    ensures TestGroup([Plain(0, "B"), Plain(1, "G"), Plain(2, "R")]) == Ok(Some(1))
  {
    var b, g, r := Plain(0, "B"), Plain(1, "G"), Plain(2, "R");
    assert !ChannelIs(b, 'a');
    assert ChannelIs(b, 'b') && ChannelIs(g, 'g') && ChannelIs(r, 'r');
    assert MatchFrom([b, g, r], "abgr", 0) == Ok(false);
    assert MatchFrom([b, g, r], "bgr", 3) == Ok(true);
  }

  /** The two-channel tail B, G crashes test_group. */
  lemma GroupExampleShortTail()
    ensures TestGroup([Plain(0, "B"), Plain(1, "G")]) == Err(TypeError)
  {
    var b, g := Plain(0, "B"), Plain(1, "G");
    assert !ChannelIs(b, 'a');
    assert ChannelIs(b, 'b') && ChannelIs(g, 'g');
    assert MatchFrom([b, g], "abgr", 0) == Ok(false);
    assert MatchFrom([b, g], "bgr", 2) == Err(TypeError);
  }

  /** A lone alpha channel A crashes it as well. */
  lemma GroupExampleAlpha()
    ensures TestGroup([Plain(0, "A")]) == Err(TypeError)
  {
    var a := Plain(0, "A");
    assert ChannelIs(a, 'a');
    assert MatchFrom([a], "abgr", 1) == Err(TypeError);
  }

  /** A lone luminance channel Y is a group of its own. */
  lemma GroupExampleLuminance()
    ensures TestGroup([Plain(0, "Y")]) == Ok(None)
  {
    var y := Plain(0, "Y");
    assert !ChannelIs(y, 'a') && !ChannelIs(y, 'b') && !ChannelIs(y, 'x') && !ChannelIs(y, 'u');
    assert MatchFrom([y], "abgr", 0) == Ok(false);
    assert MatchFrom([y], "bgr", 0) == Ok(false);
    assert MatchFrom([y], "xyz", 0) == Ok(false);
    assert MatchFrom([y], "uv", 0) == Ok(false);
  }

  // ------------------------------------------------------------- groups

  /** One entry of image_channels, without its data. */
  datatype ImageChannel = ImageChannel(name: string, length: nat)

  /** One entry of offset_information: the channel's group, its place in a
      pixel of that group, and whether the group was widened from 3 to 4. */
  datatype Slot = Slot(group: nat, offset: nat, expanded: bool)

  datatype Groups = Groups(channels: seq<ImageChannel>, slots: seq<Slot>)

  /** length_group. */
  function GroupLength(t: Option<nat>): (n: nat)
    requires t.Some? ==> t.value < PatternCount
    ensures 1 <= n <= 4
  {
    if t.Some? then |Pattern(t.value)| else 1
  }

  /** The image_channels entry a group starting at channel c gets. */
  function Entry(c: Channel, t: Option<nat>): (e: ImageChannel)
    requires t.Some? ==> t.value < PatternCount
  {
    var n := GroupLength(t);
    ImageChannel(if t.Some? then c.id + "." + Label(t.value) else c.name, if n == 3 then 4 else n)
  }

  /** The slots of the channels of group `count`: sequenceArray, reversed for
      RGBA and RGB. */
  function Slots(count: nat, t: Option<nat>): (s: seq<Slot>)
    requires t.Some? ==> t.value < PatternCount
    ensures |s| == GroupLength(t)
  {
    var n := GroupLength(t);
    var reversed := t.Some? && Reversed(t.value);
    seq(n, j requires 0 <= j < n => Slot(count, if reversed then n - 1 - j else j, n == 3))
  }

  /** A group made in front of the groups after it. */
  function Cons(e: ImageChannel, s: seq<Slot>, rest: Result<Groups>): (r: Result<Groups>)
    ensures rest.Err? ==> r == rest
  {
    match rest
    case Err(err) => Err(err)
    case Ok(gs) => Ok(Groups([e] + gs.channels, s + gs.slots))
  }

  /** What test_group says of the channels from each index on. */
  function Tests(cs: seq<Channel>): (r: seq<Result<Option<nat>>>)
    ensures Sound(cs, r)
  {
    seq(|cs|, i requires 0 <= i < |cs| => TestGroup(cs[i..]))
  }

  /** Test results of the shape test_group gives: a pattern that fits in
      what is left of the channels. */
  predicate Sound(cs: seq<Channel>, tests: seq<Result<Option<nat>>>)
  {
    |tests| == |cs|
    && forall i :: 0 <= i < |cs| && tests[i].Ok? && tests[i].value.Some? ==>
         tests[i].value.value < PatternCount && |Pattern(tests[i].value.value)| <= |cs| - i
  }

  /** The grouping loop from channel i on, with `count` groups made so far;
      tests[i] is test_group(channels.slice(i)). */
  function GroupFrom(cs: seq<Channel>, tests: seq<Result<Option<nat>>>, i: nat, count: nat): (r: Result<Groups>)
    requires Sound(cs, tests) && i <= |cs|
    decreases |cs| - i
  {
    if i == |cs| then Ok(Groups([], []))
    else
      match tests[i]
      case Err(err) => Err(err)
      case Ok(t) => Cons(Entry(cs[i], t), Slots(count, t), GroupFrom(cs, tests, i + GroupLength(t), count + 1))
  }

  /** image_channels and offset_information for the sorted channels. There
      is one slot per channel, and every channel has a cell of each pixel of
      its group to itself: the slots fit the groups and no two coincide.
      Grouping fails only where test_group crashes. */
  function Grouped(cs: seq<Channel>): (r: Result<Groups>)
    ensures r.Err? ==> r == Err(TypeError)
    ensures r.Ok? ==> |r.value.slots| == |cs| && SlotsFit(r.value, 0) && SlotsDistinct(r.value.slots)
  {
    var r := GroupFrom(cs, Tests(cs), 0, 0);
    GroupFromCovers(cs, Tests(cs), 0, 0);
    if r.Ok? then
      GroupFromFits(cs, Tests(cs), 0, 0);
      r
    else r
  }

  /** One slot per channel; the only failure is test_group's. */
  lemma {:induction false} GroupFromCovers(cs: seq<Channel>, tests: seq<Result<Option<nat>>>, i: nat, count: nat)
    requires Sound(cs, tests) && i <= |cs|
    ensures GroupFrom(cs, tests, i, count).Ok? ==> |GroupFrom(cs, tests, i, count).value.slots| == |cs| - i
    ensures GroupFrom(cs, tests, i, count).Err? ==>
      exists k :: i <= k < |cs| && tests[k].Err? && tests[k].error == GroupFrom(cs, tests, i, count).error
    decreases |cs| - i
  {
    if i < |cs| && tests[i].Ok? {
      GroupFromCovers(cs, tests, i + GroupLength(tests[i].value), count + 1);
    }
  }

  /** The place in a pixel each pattern letter is given: red, green, blue,
      alpha; x, y, z; u, v. */
  function LetterSlot(c: char): nat
  {
    if c in "rxu" then 0 else if c in "gyv" then 1 else if c in "bz" then 2 else 3
  }

  /** The slots of a matched run put each letter at its place. */
  lemma SlotsLetters(count: nat, t: nat)
    requires t < PatternCount
    ensures forall j :: 0 <= j < |Pattern(t)| ==>
      Slots(count, Some(t))[j] == Slot(count, LetterSlot(Pattern(t)[j]), |Pattern(t)| == 3)
  {
  }

  /** The image channel of a group: a channel matching no pattern is a
      group of one named after it, at offset 0; a matched run is named
      id + "." + label, and a group of three is widened to four. */
  lemma EntryNames(c: Channel, t: Option<nat>, count: nat)
    requires t.Some? ==> t.value < PatternCount
    ensures t.None? ==> Entry(c, t) == ImageChannel(c.name, 1) && Slots(count, t) == [Slot(count, 0, false)]
    ensures t.Some? ==> Entry(c, t).name == c.id + "." + Label(t.value)
    ensures t.Some? ==> Entry(c, t).length == (if t.value == 3 then 2 else 4)
  {
  }

  /** The first group made from channel i is the entry and slots of
      test_group's answer there, and the grouping goes on after its run. */
  lemma GroupHead(cs: seq<Channel>, tests: seq<Result<Option<nat>>>, i: nat, count: nat)
    requires Sound(cs, tests) && i < |cs| && GroupFrom(cs, tests, i, count).Ok?
    ensures tests[i].Ok?
    ensures var t := tests[i].value; var gs := GroupFrom(cs, tests, i, count).value;
      |gs.channels| > 0 && |gs.slots| >= GroupLength(t)
      && gs.channels[0] == Entry(cs[i], t) && gs.slots[..GroupLength(t)] == Slots(count, t)
      && GroupFrom(cs, tests, i + GroupLength(t), count + 1).Ok?
  {
    var t := tests[i].value;
    var s := Slots(count, t);
    var rest := GroupFrom(cs, tests, i + GroupLength(t), count + 1).value;
    assert (s + rest.slots)[..|s|] == s;
  }

  /** A group of the first full match wins, and its channels spell the
      pattern at their letters' places in a pixel: r at 0, then g, b, a; x, y,
      z; u, v. */
  lemma GroupMatch(cs: seq<Channel>, i: nat, count: nat)
    requires i < |cs| && TestGroup(cs[i..]).Ok? && TestGroup(cs[i..]).value.Some?
    ensures var t := TestGroup(cs[i..]).value.value; var P := Pattern(t);
      TestGroup(cs[i..]).value == FirstMatch(cs[i..], 0) && NoMatchBelow(cs[i..], 0, t)
      && forall j :: 0 <= j < |P| ==>
           ChannelIs(cs[i + j], P[j]) && Slots(count, Some(t))[j] == Slot(count, LetterSlot(P[j]), |P| == 3)
  {
    var tail := cs[i..];
    TestGroupSpec(tail);
    FirstMatchPriority(tail, 0);
    var t := TestGroup(tail).value.value;
    SlotsLetters(count, t);
    assert Matches(tail, Pattern(t));
    forall j | 0 <= j < |Pattern(t)|
      ensures ChannelIs(cs[i + j], Pattern(t)[j])
    {
      assert tail[j] == cs[i + j];
    }
  }

  /** The slots of one group: all in that group, within its length, and at
      distinct places. */
  lemma SlotsShape(count: nat, t: Option<nat>, c: Channel)
    requires t.Some? ==> t.value < PatternCount
    ensures var s := Slots(count, t); var e := Entry(c, t);
      e.length in {1, 2, 4}
      && (forall k :: 0 <= k < |s| ==> s[k].group == count && s[k].offset < e.length)
      && (forall k, m :: 0 <= k < m < |s| ==> s[k].offset != s[m].offset)
  {
  }

  /** Every channel's slot names a group made after `count`, and lies within
      that group's pixel; group lengths are 1, 2 or 4. */
  predicate SlotsFit(gs: Groups, count: nat)
  {
    (forall g :: 0 <= g < |gs.channels| ==> gs.channels[g].length in {1, 2, 4})
    && forall k :: 0 <= k < |gs.slots| ==>
         count <= gs.slots[k].group < count + |gs.channels|
         && gs.slots[k].offset < gs.channels[gs.slots[k].group - count].length
  }

  /** No two channels share a cell of a pixel. */
  predicate SlotsDistinct(slots: seq<Slot>)
  {
    forall k, m :: 0 <= k < m < |slots| && slots[k].group == slots[m].group ==> slots[k].offset != slots[m].offset
  }

  lemma ConsFits(e: ImageChannel, s: seq<Slot>, rest: Groups, count: nat)
    requires e.length in {1, 2, 4}
    requires forall k :: 0 <= k < |s| ==> s[k].group == count && s[k].offset < e.length
    requires forall k, m :: 0 <= k < m < |s| ==> s[k].offset != s[m].offset
    requires SlotsFit(rest, count + 1) && SlotsDistinct(rest.slots)
    ensures SlotsFit(Groups([e] + rest.channels, s + rest.slots), count)
    ensures SlotsDistinct(s + rest.slots)
  {
    var gs := Groups([e] + rest.channels, s + rest.slots);
    forall k | 0 <= k < |gs.slots|
      ensures count <= gs.slots[k].group < count + |gs.channels|
      ensures gs.slots[k].offset < gs.channels[gs.slots[k].group - count].length
    {
      if k >= |s| {
        assert gs.slots[k] == rest.slots[k - |s|];
        assert gs.channels[gs.slots[k].group - count] == rest.channels[gs.slots[k].group - count - 1];
      }
    }
    forall k, m | 0 <= k < m < |gs.slots| && gs.slots[k].group == gs.slots[m].group
      ensures gs.slots[k].offset != gs.slots[m].offset
    {
      if m >= |s| {
        assert gs.slots[m] == rest.slots[m - |s|];
        if k >= |s| {
          assert gs.slots[k] == rest.slots[k - |s|];
        }
      }
    }
  }

  lemma {:induction false} GroupFromFits(cs: seq<Channel>, tests: seq<Result<Option<nat>>>, i: nat, count: nat)
    requires Sound(cs, tests) && i <= |cs| && GroupFrom(cs, tests, i, count).Ok?
    ensures SlotsFit(GroupFrom(cs, tests, i, count).value, count)
    ensures SlotsDistinct(GroupFrom(cs, tests, i, count).value.slots)
    decreases |cs| - i
  {
    if i < |cs| {
      var t := tests[i].value;
      GroupFromFits(cs, tests, i + GroupLength(t), count + 1);
      SlotsShape(count, t, cs[i]);
      ConsFits(Entry(cs[i], t), Slots(count, t), GroupFrom(cs, tests, i + GroupLength(t), count + 1).value, count);
    }
  }

  // ------------------------------------------------------------- methods

  /** The result of the grouping loop with `acc` made before it. */
  function After(acc: Groups, r: Result<Groups>): Result<Groups>
  {
    match r
    case Err(e) => Err(e)
    case Ok(gs) => Ok(Groups(acc.channels + gs.channels, acc.slots + gs.slots))
  }

  lemma AfterCons(acc: Groups, e: ImageChannel, s: seq<Slot>, rest: Result<Groups>)
    ensures After(acc, Cons(e, s, rest)) == After(Groups(acc.channels + [e], acc.slots + s), rest)
  {
    if rest.Ok? {
      assert acc.channels + ([e] + rest.value.channels) == (acc.channels + [e]) + rest.value.channels;
      assert acc.slots + (s + rest.value.slots) == (acc.slots + s) + rest.value.slots;
    }
  }

  /** One turn of the grouping loop. */
  lemma AfterStep(cs: seq<Channel>, tests: seq<Result<Option<nat>>>, i: nat, acc: Groups)
    requires Sound(cs, tests) && i < |cs| && tests[i].Ok?
    ensures var t := tests[i].value; var count := |acc.channels|;
      After(acc, GroupFrom(cs, tests, i, count))
      == After(Groups(acc.channels + [Entry(cs[i], t)], acc.slots + Slots(count, t)), GroupFrom(cs, tests, i + GroupLength(t), count + 1))
  {
    var t := tests[i].value;
    var count := |acc.channels|;
    AfterCons(acc, Entry(cs[i], t), Slots(count, t), GroupFrom(cs, tests, i + GroupLength(t), count + 1));
  }

  lemma AfterNothing(r: Result<Groups>)
    ensures After(Groups([], []), r) == r
  {
    if r.Ok? {
      assert [] + r.value.channels == r.value.channels && [] + r.value.slots == r.value.slots;
    }
  }

  lemma AfterDone(acc: Groups)
    ensures After(acc, Ok(Groups([], []))) == Ok(acc)
  {
    assert acc.channels + [] == acc.channels && acc.slots + [] == acc.slots;
  }

  /** The sequenceArray loops and the pushes into offset_information. */
  method PushSlots(slots: seq<Slot>, count: nat, t: Option<nat>) returns (r: seq<Slot>)
    requires t.Some? ==> t.value < PatternCount
    ensures r == slots + Slots(count, t)
  {
    var n := GroupLength(t);
    var reversed := t.Some? && Reversed(t.value);
    r := slots;
    var j := 0;
    while j < n
      invariant 0 <= j <= n && r == slots + Slots(count, t)[..j]
    {
      r := r + [Slot(count, if reversed then n - 1 - j else j, n == 3)];
      j := j + 1;
    }
  }

  /** The initial contents of a group's Float32Array: filled with 1 when the
      group has four channels. */
  function Fill(length: nat, pixels: nat): (r: seq<Texel>)
    ensures |r| == pixels * length
  {
    Filled(pixels * length, if length == 4 then One else Zero)
  }

  /** A fresh Float32Array for a group. */
  method NewBuffer(length: nat, pixels: nat) returns (buffer: array<Texel>)
    ensures fresh(buffer) && buffer[..] == Fill(length, pixels)
  {
    buffer := new Texel[pixels * length](_ => if length == 4 then One else Zero);
    assert buffer[..] == Fill(length, pixels);
  }

  /** The grouping loop as it runs: from channel i on, with `acc` made so far. */
  function GroupAcc(cs: seq<Channel>, tests: seq<Result<Option<nat>>>, i: nat, acc: Groups): (r: Result<Groups>)
    requires Sound(cs, tests) && i <= |cs|
    decreases |cs| - i
  {
    if i == |cs| then Ok(acc)
    else
      match tests[i]
      case Err(err) => Err(err)
      case Ok(t) =>
        GroupAcc(cs, tests, i + GroupLength(t), Groups(acc.channels + [Entry(cs[i], t)], acc.slots + Slots(|acc.channels|, t)))
  }

  /** The running loop ends where the grouping from i on, put after `acc`, does. */
  lemma {:induction false} GroupAccFrom(cs: seq<Channel>, tests: seq<Result<Option<nat>>>, i: nat, acc: Groups)
    requires Sound(cs, tests) && i <= |cs|
    ensures GroupAcc(cs, tests, i, acc) == After(acc, GroupFrom(cs, tests, i, |acc.channels|))
    decreases |cs| - i
  {
    if i == |cs| {
      AfterDone(acc);
    } else if tests[i].Ok? {
      var t := tests[i].value;
      var acc' := Groups(acc.channels + [Entry(cs[i], t)], acc.slots + Slots(|acc.channels|, t));
      GroupAccFrom(cs, tests, i + GroupLength(t), acc');
      AfterCons(acc, Entry(cs[i], t), Slots(|acc.channels|, t), GroupFrom(cs, tests, i + GroupLength(t), |acc.channels| + 1));
    }
  }

  /** tests[k] is test_group's result from channel k on, for every k from i. */
  predicate TestsFrom(cs: seq<Channel>, tests: seq<Result<Option<nat>>>, i: nat)
    requires |tests| == |cs|
    decreases |cs| - i
  {
    i >= |cs| || (tests[i] == TestGroup(cs[i..]) && TestsFrom(cs, tests, i + 1))
  }

  lemma {:induction false} TestIs(cs: seq<Channel>, tests: seq<Result<Option<nat>>>, k: nat, i: nat)
    requires |tests| == |cs| && TestsFrom(cs, tests, k) && k <= i < |cs|
    ensures tests[i] == TestGroup(cs[i..])
    decreases i - k
  {
    if k < i {
      TestIs(cs, tests, k + 1, i);
    }
  }

  lemma {:induction false} TestsAll(cs: seq<Channel>, i: nat)
    ensures TestsFrom(cs, Tests(cs), i)
    decreases |cs| - i
  {
    if i < |cs| {
      TestsAll(cs, i + 1);
    }
  }

  /** test_group on the channels from i on. */
  method TestAt(cs: seq<Channel>, ghost tests: seq<Result<Option<nat>>>, i: nat) returns (t: Result<Option<nat>>)
    requires |tests| == |cs| && TestsFrom(cs, tests, 0) && i < |cs|
    ensures t == tests[i]
  {
    t := TestGroup(cs[i..]);
    TestIs(cs, tests, 0, i);
  }

  /** The grouping loop of parseEXR over the sorted channels; with `makeData`
      (a Float output) each group gets a fresh Float32Array of `pixels` times
      its length cells. */
  method GroupChannels(cs: seq<Channel>, pixels: nat, makeData: bool) returns (r: Result<Groups>, data: seq<array<Texel>>)
    ensures r == Grouped(cs)
    ensures r.Ok? ==> |data| == (if makeData then |r.value.channels| else 0)
    ensures r.Ok? ==> forall g :: 0 <= g < |data| ==>
      fresh(data[g]) && data[g][..] == Fill(r.value.channels[g].length, pixels)
    ensures forall g, h :: 0 <= g < h < |data| ==> data[g] != data[h]
  {
    TestsAll(cs, 0);
    r, data := GroupLoop(cs, Tests(cs), pixels, makeData);
    GroupAccFrom(cs, Tests(cs), 0, Groups([], []));
    AfterNothing(Grouped(cs));
  }

  /** One turn of the grouping loop short of the buffer: the test, the
      image channel and the channels' slots. */
  method GroupTurn(cs: seq<Channel>, ghost tests: seq<Result<Option<nat>>>, i: nat, channels: seq<ImageChannel>, slots: seq<Slot>)
    returns (t: Result<Option<nat>>, e: ImageChannel, channels': seq<ImageChannel>, slots': seq<Slot>, i': nat)
    requires Sound(cs, tests) && TestsFrom(cs, tests, 0) && i < |cs|
    ensures t == tests[i]
    ensures t.Ok? ==> channels' == channels + [e] && i < i' <= |cs|
    ensures t.Ok? ==> GroupAcc(cs, tests, i', Groups(channels', slots')) == GroupAcc(cs, tests, i, Groups(channels, slots))
  {
    t := TestAt(cs, tests, i);
    if t.Err? {
      return t, Entry(cs[i], None), channels, slots, i;
    }
    e := Entry(cs[i], t.value);
    slots' := PushSlots(slots, |channels|, t.value);
    channels' := channels + [e];
    i' := i + GroupLength(t.value);
  }

  /** The buffer of a new group, made when the output is Float. */
  method AddBuffer(data: seq<array<Texel>>, ghost channels: seq<ImageChannel>, e: ImageChannel, pixels: nat, makeData: bool)
    returns (data': seq<array<Texel>>)
    requires |data| == (if makeData then |channels| else 0)
    requires forall g :: 0 <= g < |data| ==> data[g][..] == Fill(channels[g].length, pixels)
    requires forall g, h :: 0 <= g < h < |data| ==> data[g] != data[h]
    ensures |data'| == (if makeData then |channels| + 1 else 0)
    ensures forall g :: 0 <= g < |data'| ==> (data'[g] in data || fresh(data'[g]))
    ensures forall g :: 0 <= g < |data'| ==> data'[g][..] == Fill((channels + [e])[g].length, pixels)
    ensures forall g, h :: 0 <= g < h < |data'| ==> data'[g] != data'[h]
  {
    data' := data;
    if makeData {
      var buffer := NewBuffer(e.length, pixels);
      data' := data + [buffer];
    }
  }

  /** The loop itself, over test results that are test_group's. */
  method GroupLoop(cs: seq<Channel>, ghost tests: seq<Result<Option<nat>>>, pixels: nat, makeData: bool)
    returns (r: Result<Groups>, data: seq<array<Texel>>)
    requires Sound(cs, tests) && TestsFrom(cs, tests, 0)
    ensures r == GroupAcc(cs, tests, 0, Groups([], []))
    ensures r.Ok? ==> |data| == (if makeData then |r.value.channels| else 0)
    ensures r.Ok? ==> forall g :: 0 <= g < |data| ==>
      fresh(data[g]) && data[g][..] == Fill(r.value.channels[g].length, pixels)
    ensures forall g, h :: 0 <= g < h < |data| ==> data[g] != data[h]
  {
    var channels: seq<ImageChannel> := [];
    var slots: seq<Slot> := [];
    data := [];
    var i := 0;
    while i < |cs|
      invariant i <= |cs|
      invariant GroupAcc(cs, tests, i, Groups(channels, slots)) == GroupAcc(cs, tests, 0, Groups([], []))
      invariant |data| == (if makeData then |channels| else 0)
      invariant forall g :: 0 <= g < |data| ==> fresh(data[g]) && data[g][..] == Fill(channels[g].length, pixels)
      invariant forall g, h :: 0 <= g < h < |data| ==> data[g] != data[h]
      decreases |cs| - i
    {
      var t, e, channels', slots', i' := GroupTurn(cs, tests, i, channels, slots);
      if t.Err? {
        return Err(t.error), data;
      }
      data := AddBuffer(data, channels, e, pixels, makeData);
      channels, slots, i := channels', slots', i';
    }
    r := Ok(Groups(channels, slots));
  }
}
