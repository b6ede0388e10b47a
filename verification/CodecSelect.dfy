// The functions of CodecSelectHelper.cpp with their loops, in-place sorting and
// erasing, proved to give what Codecs says of their results.
module CodecSelect {
  import opened Prelude
  import opened Bytes
  import opened Messages
  import opened Codecs

  // --- Sorting

  /** What std::sort asks of a comparison: no pair comes before each other, and not coming before is transitive. */
  ghost predicate Comparison(before: (VideoFormat, VideoFormat) -> bool) {
    && (forall a, b :: !before(a, b) || !before(b, a))
    && (forall a, b, c :: !before(b, a) && !before(c, b) ==> !before(c, a))
  }

  ghost predicate SortedBy(before: (VideoFormat, VideoFormat) -> bool, list: seq<VideoFormat>) {
    forall i, j | 0 <= i < j < |list| :: !before(list[j], list[i])
  }

  /** std::sort; callers know no more than that the result is a sorted permutation. */
  method Sort(list: seq<VideoFormat>, before: (VideoFormat, VideoFormat) -> bool) returns (sorted: seq<VideoFormat>)
    requires Comparison(before)
    ensures multiset(sorted) == multiset(list) && SortedBy(before, sorted)
  {
    hide Comparison, SortedBy;
    sorted := [];
    NothingIsSorted(before);
    var i := 0;
    while i < |list|
      invariant 0 <= i <= |list|
      invariant multiset(sorted) == multiset(list[..i]) && SortedBy(before, sorted)
    {
      var k := 0;
      while k < |sorted| && !before(list[i], sorted[k])
        invariant 0 <= k <= |sorted|
        invariant forall j | 0 <= j < k :: !before(list[i], sorted[j])
      {
        k := k + 1;
      }
      InsertKeepsSorted(before, sorted, k, list[i]);
      assert sorted == sorted[..k] + sorted[k..];
      sorted := sorted[..k] + [list[i]] + sorted[k..];
      assert list[..i + 1] == list[..i] + [list[i]];
      i := i + 1;
    }
    assert list[..i] == list;
  }

  lemma NothingIsSorted(before: (VideoFormat, VideoFormat) -> bool)
    ensures SortedBy(before, [])
  {
  }

  lemma InsertKeepsSorted(before: (VideoFormat, VideoFormat) -> bool, list: seq<VideoFormat>, k: nat, f: VideoFormat)
    requires Comparison(before) && SortedBy(before, list) && k <= |list|
    requires forall j | 0 <= j < k :: !before(f, list[j])
    requires k < |list| ==> before(f, list[k])
    ensures SortedBy(before, list[..k] + [f] + list[k..])
  {
    assert forall j | k < j < |list| :: !before(list[j], list[k]);
    assert forall j | k <= j < |list| :: !before(list[j], f);
  }

  lemma BeforeIsComparison()
    ensures Comparison(Before)
  {
    forall a, b
      ensures !Before(a, b) || !Before(b, a)
    {
      BeforeIsAsymmetric(a, b);
    }
    forall a, b, c | !Before(b, a) && !Before(c, b)
      ensures !Before(c, a)
    {
      NotBeforeIsTransitive(a, b, c);
    }
  }

  lemma NotBeforeIsTransitive(a: VideoFormat, b: VideoFormat, c: VideoFormat)
    requires !Before(b, a) && !Before(c, b)
    ensures !Before(c, a)
  {
    hide Before;
    SameUpToModes(a);
    SameUpToModes(b);
    SameUpToModes(c);
    var a', b', c' := WithoutModes(a), WithoutModes(b), WithoutModes(c);
    BeforeLooksAt(a, b);
    BeforeLooksAt(b, c);
    BeforeLooksAt(a, c);
    BeforeIsTotal(a', b');
    BeforeIsTotal(b', c');
    if Before(a', b') && Before(b', c') {
      BeforeIsTransitive(a', b', c');
    }
    BeforeIsAsymmetric(a', c');
    BeforeIsIrreflexive(a');
    BeforeIsAsymmetric(a', b');
    BeforeIsAsymmetric(b', c');
  }

  lemma SameUpToModes(a: VideoFormat)
    ensures NoModes(WithoutModes(a))
  {
  }

  lemma BeforeLooksAt(a: VideoFormat, b: VideoFormat)
    ensures Before(a, b) == Before(WithoutModes(a), WithoutModes(b))
    ensures Before(b, a) == Before(WithoutModes(b), WithoutModes(a))
  {
  }

  // --- Priorities

  method FormatPriority(format: VideoFormat, preferred: seq<seq<byte>>, supported: seq<seq<byte>>) returns (r: int)
    ensures r == Priority(format, preferred, supported)
  {
    hide EqualsIgnoreCase;
    var i := 0;
    while i < |preferred|
      invariant 0 <= i <= |preferred|
      invariant forall k | 0 <= k < i ::
                  !(EqualsIgnoreCase(format.name, preferred[k]) && exists s | 0 <= s < |supported| :: EqualsIgnoreCase(format.name, supported[s]))
    {
      var s := 0;
      while s < |supported|
        invariant 0 <= s <= |supported|
        invariant forall k | 0 <= k < s ::
                    !(EqualsIgnoreCase(format.name, preferred[i]) && EqualsIgnoreCase(format.name, supported[k]))
      {
        if EqualsIgnoreCase(format.name, preferred[i]) && EqualsIgnoreCase(format.name, supported[s]) {
          return i;
        }
        s := s + 1;
      }
      i := i + 1;
    }
    r := |preferred|;
    var s := 0;
    while s < |supported|
      invariant 0 <= s <= |supported| && r == |preferred| + s
      invariant forall k | 0 <= k < s :: !EqualsIgnoreCase(format.name, supported[k])
    {
      if EqualsIgnoreCase(format.name, supported[s]) {
        return r;
      }
      r := r + 1;
      s := s + 1;
    }
    r := -1;
  }

  lemma PriorityIsComparison(preferred: seq<seq<byte>>, supported: seq<seq<byte>>)
    ensures Comparison((a, b) => Priority(a, preferred, supported) < Priority(b, preferred, supported))
  {
  }

  lemma {:induction false} SupportedCounts(
      list: seq<VideoFormat>, preferred: seq<seq<byte>>, supported: seq<seq<byte>>, f: VideoFormat)
    ensures multiset(Supported(list, preferred, supported))[f]
         == if Priority(f, preferred, supported) != -1 then multiset(list)[f] else 0
    decreases |list|
  {
    hide Priority;
    if list != [] {
      assert list == [list[0]] + list[1..];
      SupportedCounts(list[1..], preferred, supported, f);
    }
  }

  lemma {:induction false} SupportedSuffix(
      list: seq<VideoFormat>, k: nat, preferred: seq<seq<byte>>, supported: seq<seq<byte>>)
    requires k <= |list|
    requires forall i | 0 <= i < |list| :: Priority(list[i], preferred, supported) == -1 <==> i < k
    ensures Supported(list, preferred, supported) == list[k..]
    decreases |list|
  {
    hide Priority;
    if list != [] {
      assert forall i | 0 <= i < |list| - 1 :: list[1..][i] == list[i + 1];
      SupportedSuffix(list[1..], if k == 0 then 0 else k - 1, preferred, supported);
    }
  }

  method FilterAndSortEncoders(list: seq<VideoFormat>, preferred: seq<seq<byte>>, supported: seq<seq<byte>>)
    returns (r: seq<VideoFormat>)
    ensures IsFiltered(r, list, preferred, supported)
  {
    PriorityIsComparison(preferred, supported);
    var sorted := Sort(list, (a, b) => Priority(a, preferred, supported) < Priority(b, preferred, supported));
    hide Priority, Supported;
    var till := 0;
    var priority := 0;
    if |sorted| > 0 {
      priority := FormatPriority(sorted[0], preferred, supported);
    }
    while till != |sorted| && priority == -1
      invariant 0 <= till <= |sorted|
      invariant till < |sorted| ==> priority == Priority(sorted[till], preferred, supported)
      invariant forall i | 0 <= i < till :: Priority(sorted[i], preferred, supported) == -1
      decreases |sorted| - till
    {
      till := till + 1;
      if till < |sorted| {
        priority := FormatPriority(sorted[till], preferred, supported);
      }
    }
    forall i | till <= i < |sorted|
      ensures Priority(sorted[i], preferred, supported) != -1
    {
      PriorityFloor(sorted[till], preferred, supported);
      assert i > till ==> !(Priority(sorted[i], preferred, supported) < Priority(sorted[till], preferred, supported));
    }
    r := sorted[till..];
    SupportedSuffix(sorted, till, preferred, supported);
    forall f
      ensures multiset(Supported(sorted, preferred, supported))[f] == multiset(Supported(list, preferred, supported))[f]
    {
      SupportedCounts(sorted, preferred, supported, f);
      SupportedCounts(list, preferred, supported, f);
    }
    assert multiset(Supported(sorted, preferred, supported)) == multiset(Supported(list, preferred, supported));
  }

  lemma PriorityFloor(f: VideoFormat, preferred: seq<seq<byte>>, supported: seq<seq<byte>>)
    ensures Priority(f, preferred, supported) >= -1
  {
  }

  // --- Lists without repetitions

  method AppendUniqueFormats(list: seq<VideoFormat>, other: seq<VideoFormat>) returns (r: seq<VideoFormat>)
    ensures r == AppendUnique(list, other)
  {
    if list == [] {
      return other;
    }
    r := list;
    var i := 0;
    assert other[0..] == other;
    while i < |other|
      invariant 0 <= i <= |other|
      invariant r + Missing(list, other[i..]) == list + Missing(list, other)
    {
      assert other[i..][1..] == other[i + 1..];
      ghost var rest := Missing(list, other[i + 1..]);
      if other[i] !in list {
        assert r + ([other[i]] + rest) == r + [other[i]] + rest;
        r := r + [other[i]];
      } else {
        assert [] + rest == rest;
      }
      i := i + 1;
    }
    assert r + [] == r;
  }

  method RemoveScalabilityModes(from: seq<VideoFormat>) returns (list: seq<VideoFormat>)
    ensures list == ModesRemoved(from)
  {
    hide Deduplicated;
    list := from;
    var changed := false;
    var k := 0;
    while k < |list|
      invariant 0 <= k <= |list| == |from|
      invariant forall i | 0 <= i < k :: list[i] == WithoutModes(from[i])
      invariant forall i | k <= i < |list| :: list[i] == from[i]
      invariant changed <==> exists i | 0 <= i < k :: !NoModes(from[i])
    {
      if list[k].scalabilityModes != [] {
        list := list[k := list[k].(scalabilityModes := [])];
        changed := true;
      }
      k := k + 1;
    }
    ghost var plain := AllWithoutModes(from);
    assert list == plain;
    if !changed {
      assert forall i | 0 <= i < |from| :: NoModes(from[i]);
      assert plain == from;
      return;
    }
    if |list| > 1 {
      list := RemoveRepeated(list);
    } else {
      SingleIsDeduplicated(list);
    }
  }

  lemma {:induction false} SingleIsDeduplicated(list: seq<VideoFormat>)
    requires |list| <= 1
    ensures Deduplicated(list) == list
  {
    if |list| == 1 {
      assert list[..0] == [] && Deduplicated([]) == [];
      assert Deduplicated(list) == Deduplicated(list[..0]) + [list[0]];
    }
  }

  lemma DeduplicatedStep(list: seq<VideoFormat>, i: nat)
    requires i < |list|
    ensures Deduplicated(list[..i + 1]) == if list[i] in list[..i] then Deduplicated(list[..i]) else Deduplicated(list[..i]) + [list[i]]
  {
    var init := list[..i + 1];
    assert init[..|init| - 1] == list[..i];
  }

  /** The loop of RemoveScalabilityModes from the back, erasing what is there before. */
  method RemoveRepeated(from: seq<VideoFormat>) returns (list: seq<VideoFormat>)
    requires |from| > 1
    ensures list == Deduplicated(from)
  {
    hide Deduplicated;
    list := from;
    var i := |list| - 1;
    ghost var tail: seq<VideoFormat> := [];
    assert from[..i + 1] == from;
    while i != 0
      invariant 0 <= i < |from| && list == from[..i + 1] + tail
      invariant Deduplicated(from) == Deduplicated(from[..i + 1]) + tail
      decreases i
    {
      DeduplicatedStep(from, i);
      assert list[i] == from[i] && list[..i] == from[..i];
      if list[i] in list[..i] {
        list := list[..i] + list[i + 1..];
      } else {
        assert Deduplicated(from[..i]) + [from[i]] + tail == Deduplicated(from[..i]) + ([from[i]] + tail);
        tail := [from[i]] + tail;
      }
      i := i - 1;
    }
    SingleIsDeduplicated(from[..1]);
  }

  method ComposeSupportedFormats(
      encoders: seq<VideoFormat>, decoders: seq<VideoFormat>,
      preferredCodecs: seq<seq<byte>>, supported: seq<seq<byte>>) returns (r: Message)
    ensures IsComposed(r, encoders, decoders, preferredCodecs, supported)
  {
    hide ModesRemoved, IsFiltered;
    var own := RemoveScalabilityModes(encoders);
    var other := RemoveScalabilityModes(decoders);
    own := FilterAndSortEncoders(own, preferredCodecs, supported);
    var formats := AppendUniqueFormats(own, other);
    assert formats[..|own|] == own;
    r := VideoFormats(formats, |own|);
  }

  // --- Formats in common

  method FindEqualFormat(same: SameCodec, list: seq<VideoFormat>, format: VideoFormat) returns (i: nat)
    ensures i == FindEqual(same, list, format)
  {
    i := 0;
    assert list[0..] == list;
    while i < |list| && !same(format, list[i])
      invariant i <= |list|
      invariant FindEqual(same, list, format) == i + FindEqual(same, list[i..], format)
    {
      assert list[i..][1..] == list[i + 1..];
      i := i + 1;
    }
  }

  method AddCommonAndFindFirst(
      same: SameCodec, list: seq<VideoFormat>, encoders: seq<VideoFormat>, decoders: seq<VideoFormat>)
    returns (r: seq<VideoFormat>, first: VideoFormat)
    ensures r == AddCommon(same, list, encoders, decoders)
    ensures first == FirstCommon(same, NO_FORMAT, encoders, decoders)
  {
    hide FindEqual;
    r := list;
    first := NO_FORMAT;
    var i := 0;
    assert encoders[0..] == encoders;
    while i < |encoders|
      invariant 0 <= i <= |encoders|
      invariant AddCommon(same, r, encoders[i..], decoders) == AddCommon(same, list, encoders, decoders)
      invariant FirstCommon(same, first, encoders[i..], decoders) == FirstCommon(same, NO_FORMAT, encoders, decoders)
    {
      assert encoders[i..][1..] == encoders[i + 1..];
      var format := encoders[i];
      var j := FindEqualFormat(same, decoders, format);
      if j < |decoders| {
        if first.name == [] {
          first := format;
        }
        r := AddUnique(AddUnique(r, format), decoders[j]);
      }
      i := i + 1;
    }
  }

  method ComputeCommonFormats(same: SameCodec, my: Message, their: Message) returns (r: CommonFormats)
    requires ValidFormats(my) && ValidFormats(their)
    ensures IsCommon(same, my, their, r)
  {
    hide AddCommon, FirstCommon, Before;
    var list, myFirst := AddCommonAndFindFirst(same, [], my.formats[..my.encodersCount], their.formats);
    var theirFirst;
    list, theirFirst := AddCommonAndFindFirst(same, list, their.formats[..their.encodersCount], my.formats);
    BeforeIsComparison();
    var sorted := Sort(list, Before);
    var index := -1;
    if myFirst.name != [] {
      FirstIsListed(same, my, their);
      DistinctCounts(list, myFirst);
      DistinctCounts(sorted, myFirst);
      index := 0;
      while sorted[index] != myFirst
        invariant 0 <= index < |sorted|
        invariant myFirst in sorted[index..]
        decreases |sorted| - index
      {
        assert sorted[index..] == [sorted[index]] + sorted[index + 1..];
        index := index + 1;
      }
    }
    r := CommonFormats(sorted, index);
  }

  // --- Payload numbers

  /** The codecs so far, and the loop going on with the rest of the formats, or over. */
  lemma {:induction false} NumberedStep(formats: seq<VideoFormat>, i: nat, payload: int)
    requires i < |formats|
    ensures var rest := formats[i + 1..];
            NumberedFrom(formats[i..], payload)
            == if payload == LAST_DYNAMIC_PAYLOAD_TYPE then [Main(payload, formats[i])]
               else if IsFec(formats[i]) then [Main(payload, formats[i])] + NumberedFrom(rest, payload + 1)
               else if payload + 1 == LAST_DYNAMIC_PAYLOAD_TYPE then [Main(payload, formats[i]), Rtx(payload + 1, payload)]
               else [Main(payload, formats[i]), Rtx(payload + 1, payload)] + NumberedFrom(rest, payload + 2)
  {
    hide IsFec;
    assert formats[i..][1..] == formats[i + 1..];
  }

  lemma {:induction false} IndexStep(formats: seq<VideoFormat>, i: nat, payload: int, index: int)
    requires i < |formats|
    ensures var next := if payload == LAST_DYNAMIC_PAYLOAD_TYPE || IsFec(formats[i]) then payload + 1 else payload + 2;
            CodecIndex(formats[i..], payload, index)
            == if index < 0 then -1
               else if index == 0 then payload - FIRST_DYNAMIC_PAYLOAD_TYPE
               else if next > LAST_DYNAMIC_PAYLOAD_TYPE then -1
               else CodecIndex(formats[i + 1..], next, index - 1)
  {
    hide IsFec;
    assert formats[i..][1..] == formats[i + 1..];
  }

  /** Where the loop stands when the codec at index has been met already, or not yet. */
  function IndexSoFar(formats: seq<VideoFormat>, i: nat, payload: int, myIndex: int, found: int): int
    requires i <= |formats|
  {
    if i <= myIndex then CodecIndex(formats[i..], payload, myIndex - i) else found
  }

  method AssignPayloadTypesAndDefaultCodecs(formats: CommonFormats) returns (r: CommonCodecs)
    ensures r == Assigned(formats)
  {
    hide NumberedFrom, CodecIndex, IsFec;
    if formats.list == [] {
      return CommonCodecs([], -1);
    }
    var payload := FIRST_DYNAMIC_PAYLOAD_TYPE;
    var list := WithDefaults(formats.list);
    var codecs, encoderIndex := [], -1;
    var inputIndex := 0;
    assert list[0..] == list;
    NumberedEnds(list, formats.myEncoderIndex);
    while inputIndex < |list|
      invariant 0 <= inputIndex <= |list|
      invariant payload == FIRST_DYNAMIC_PAYLOAD_TYPE + |codecs| <= LAST_DYNAMIC_PAYLOAD_TYPE
      invariant codecs + NumberedFrom(list[inputIndex..], payload) == NumberedFrom(list, FIRST_DYNAMIC_PAYLOAD_TYPE)
      invariant inputIndex <= formats.myEncoderIndex ==> encoderIndex == -1
      invariant IndexSoFar(list, inputIndex, payload, formats.myEncoderIndex, encoderIndex)
             == CodecIndex(list, FIRST_DYNAMIC_PAYLOAD_TYPE, formats.myEncoderIndex)
    {
      NumberedStep(list, inputIndex, payload);
      IndexStep(list, inputIndex, payload, formats.myEncoderIndex - inputIndex);
      ghost var before := codecs;
      var format := list[inputIndex];
      var id := payload;
      if inputIndex == formats.myEncoderIndex {
        encoderIndex := |codecs|;
      }
      inputIndex := inputIndex + 1;
      codecs := codecs + [Main(id, format)];
      payload := payload + 1;
      if payload > LAST_DYNAMIC_PAYLOAD_TYPE {
        return CommonCodecs(codecs, encoderIndex);
      }
      if !IsFec(format) {
        codecs := codecs + [Rtx(payload, id)];
        assert before + [Main(id, format), Rtx(payload, id)] == codecs;
        payload := payload + 1;
        if payload > LAST_DYNAMIC_PAYLOAD_TYPE {
          return CommonCodecs(codecs, encoderIndex);
        }
        Regroup(before, [Main(id, format), Rtx(payload - 1, id)], NumberedFrom(list[inputIndex..], payload));
      } else {
        Regroup(before, [Main(id, format)], NumberedFrom(list[inputIndex..], payload));
      }
    }
    NothingLeft(payload, formats.myEncoderIndex - inputIndex);
    assert list[inputIndex..] == [];
    r := CommonCodecs(codecs, encoderIndex);
  }

  lemma {:induction false} NumberedEnds(list: seq<VideoFormat>, index: int)
    ensures [] + NumberedFrom(list, FIRST_DYNAMIC_PAYLOAD_TYPE) == NumberedFrom(list, FIRST_DYNAMIC_PAYLOAD_TYPE)
    ensures index < 0 ==> CodecIndex(list, FIRST_DYNAMIC_PAYLOAD_TYPE, index) == -1
  {
  }

  lemma {:induction false} NothingLeft(payload: int, index: int)
    ensures NumberedFrom([], payload) == [] && CodecIndex([], payload, index) == -1
  {
  }
}
