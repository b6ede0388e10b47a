// Choosing the video codecs of a call (CodecSelectHelper.cpp): what both peers offer,
// what they have in common, and the payload numbers, which each side assigns alone.
module Codecs {
  import opened Prelude
  import opened Bytes
  import opened ByteOrder
  import opened Messages

  // --- The order of formats

  predicate EntryLess(a: (seq<byte>, seq<byte>), b: (seq<byte>, seq<byte>)) {
    Less(a.0, b.0) || (a.0 == b.0 && Less(a.1, b.1))
  }

  /** How std::map compares: entry by entry. */
  predicate ParametersLess(a: Dict<seq<byte>>, b: Dict<seq<byte>>) {
    if b == [] then false
    else if a == [] then true
    else if a[0] != b[0] then EntryLess(a[0], b[0])
    else ParametersLess(a[1..], b[1..])
  }

  /** CompareFormats */
  predicate Before(a: VideoFormat, b: VideoFormat) {
    if Less(a.name, b.name) then true
    else if Less(b.name, a.name) then false
    else ParametersLess(a.parameters, b.parameters)
  }

  lemma EntryOrder(a: (seq<byte>, seq<byte>), b: (seq<byte>, seq<byte>), c: (seq<byte>, seq<byte>))
    ensures !EntryLess(a, a)
    ensures EntryLess(a, b) && EntryLess(b, c) ==> EntryLess(a, c)
    ensures a == b || EntryLess(a, b) || EntryLess(b, a)
  {
    LessIsIrreflexive(a.0);
    LessIsIrreflexive(a.1);
    LessIsTotal(a.0, b.0);
    LessIsTotal(a.1, b.1);
    if Less(a.0, b.0) && Less(b.0, c.0) {
      LessIsTransitive(a.0, b.0, c.0);
    }
    if Less(a.1, b.1) && Less(b.1, c.1) {
      LessIsTransitive(a.1, b.1, c.1);
    }
  }

  lemma {:induction false} ParametersIrreflexive(a: Dict<seq<byte>>)
    ensures !ParametersLess(a, a)
  {
    if a != [] {
      ParametersIrreflexive(a[1..]);
    }
  }

  lemma {:induction false} ParametersTransitive(a: Dict<seq<byte>>, b: Dict<seq<byte>>, c: Dict<seq<byte>>)
    requires ParametersLess(a, b) && ParametersLess(b, c)
    ensures ParametersLess(a, c)
    decreases |a|
  {
    hide EntryLess;
    if a != [] {
      EntryOrder(a[0], b[0], c[0]);
      EntryOrder(a[0], b[0], a[0]);
      if a[0] == b[0] == c[0] {
        ParametersTransitive(a[1..], b[1..], c[1..]);
      }
    }
  }

  lemma {:induction false} ParametersTotal(a: Dict<seq<byte>>, b: Dict<seq<byte>>)
    ensures a == b || ParametersLess(a, b) || ParametersLess(b, a)
    decreases |a|
  {
    hide EntryLess;
    if a != [] && b != [] {
      EntryOrder(a[0], b[0], a[0]);
      if a[0] == b[0] {
        ParametersTotal(a[1..], b[1..]);
        assert a == [a[0]] + a[1..] && b == [b[0]] + b[1..];
      }
    }
  }

  predicate NoModes(f: VideoFormat) {
    f.scalabilityModes == []
  }

  lemma BeforeIsIrreflexive(a: VideoFormat)
    ensures !Before(a, a)
  {
    LessIsIrreflexive(a.name);
    ParametersIrreflexive(a.parameters);
  }

  lemma BeforeIsTransitive(a: VideoFormat, b: VideoFormat, c: VideoFormat)
    requires Before(a, b) && Before(b, c)
    ensures Before(a, c)
  {
    hide Less, ParametersLess;
    LessIsTotal(a.name, b.name);
    LessIsTotal(b.name, c.name);
    LessIsIrreflexive(a.name);
    if Less(a.name, b.name) && Less(b.name, c.name) {
      LessIsTransitive(a.name, b.name, c.name);
    } else if a.name == b.name == c.name {
      LessIsIrreflexive(b.name);
      ParametersTransitive(a.parameters, b.parameters, c.parameters);
    }
  }

  lemma BeforeIsTotal(a: VideoFormat, b: VideoFormat)
    requires NoModes(a) && NoModes(b)
    ensures a == b || Before(a, b) || Before(b, a)
  {
    hide Less, ParametersLess;
    LessIsTotal(a.name, b.name);
    LessIsIrreflexive(a.name);
    if a.name == b.name {
      ParametersTotal(a.parameters, b.parameters);
    }
  }

  // --- Sorting, as std::sort promises it

  ghost predicate Sorted(list: seq<VideoFormat>) {
    forall i, j | 0 <= i < j < |list| :: !Before(list[j], list[i])
  }

  ghost predicate IsSorted(sorted: seq<VideoFormat>, list: seq<VideoFormat>) {
    multiset(sorted) == multiset(list) && Sorted(sorted)
  }

  ghost predicate AllPlain(list: seq<VideoFormat>) {
    forall i | 0 <= i < |list| :: NoModes(list[i])
  }

  ghost predicate StrictlySorted(list: seq<VideoFormat>) {
    forall i, j | 0 <= i < j < |list| :: Before(list[i], list[j])
  }

  lemma BeforeIsAsymmetric(a: VideoFormat, b: VideoFormat)
    ensures !(Before(a, b) && Before(b, a))
  {
    hide Before;
    BeforeIsIrreflexive(a);
    if Before(a, b) && Before(b, a) {
      BeforeIsTransitive(a, b, a);
    }
  }

  lemma FirstIsLeast(a: seq<VideoFormat>, f: VideoFormat)
    requires StrictlySorted(a) && f in a
    ensures f == a[0] || Before(a[0], f)
  {
  }

  lemma FirstIsMember(list: seq<VideoFormat>)
    ensures list == [] || list[0] in list
  {
  }

  lemma {:induction false} StrictlySortedIsUnique(a: seq<VideoFormat>, b: seq<VideoFormat>)
    requires StrictlySorted(a) && StrictlySorted(b)
    requires forall f :: f in a <==> f in b
    ensures a == b
    decreases |a|
  {
    hide Before;
    if a == [] {
      FirstIsMember(b);
    } else {
      assert a[0] in a && a[0] in b && b[0] in b && b[0] in a;
      FirstIsLeast(a, b[0]);
      FirstIsLeast(b, a[0]);
      BeforeIsAsymmetric(a[0], b[0]);
      assert a[0] == b[0];
      forall f
        ensures f in a[1..] <==> f in b[1..]
      {
        BeforeIsIrreflexive(a[0]);
        TailMembers(a, f);
        TailMembers(b, f);
      }
      StrictlySortedIsUnique(a[1..], b[1..]);
      assert a == [a[0]] + a[1..] && b == [b[0]] + b[1..];
    }
  }

  lemma TailMembers(a: seq<VideoFormat>, f: VideoFormat)
    requires a != [] && StrictlySorted(a)
    ensures f in a[1..] <==> f in a && f != a[0]
  {
    BeforeIsIrreflexive(a[0]);
    if f in a[1..] {
      var k :| 0 <= k < |a[1..]| && a[1..][k] == f;
      assert Before(a[0], a[k + 1]);
    }
    if f in a && f != a[0] {
      var k :| 0 <= k < |a| && a[k] == f;
      assert a[1..][k - 1] == f;
    }
  }

  lemma {:induction false} DistinctCounts(list: seq<VideoFormat>, f: VideoFormat)
    ensures NoRepeats(list) ==> multiset(list)[f] <= 1
    ensures f in list <==> multiset(list)[f] > 0
  {
    if list != [] {
      assert list == [list[0]] + list[1..];
      DistinctCounts(list[1..], f);
      assert NoRepeats(list) ==> list[0] !in list[1..];
    }
  }

  lemma SortedIsDistinct(sorted: seq<VideoFormat>, list: seq<VideoFormat>)
    requires multiset(sorted) == multiset(list) && NoRepeats(list)
    ensures NoRepeats(sorted)
  {
    forall i, j | 0 <= i < j < |sorted|
      ensures sorted[i] != sorted[j]
    {
      DistinctCounts(list, sorted[i]);
      if sorted[i] == sorted[j] {
        TwiceCounts(sorted, i, j);
      }
    }
  }

  lemma TwiceCounts(list: seq<VideoFormat>, i: nat, j: nat)
    requires i < j < |list| && list[i] == list[j]
    ensures multiset(list)[list[i]] >= 2
  {
    assert list == list[..j] + [list[j]] + list[j + 1..];
    assert list[..j][i] == list[i];
    DistinctCounts(list[..j], list[i]);
  }

  lemma SortedIsStrict(sorted: seq<VideoFormat>, list: seq<VideoFormat>)
    requires IsSorted(sorted, list) && NoRepeats(list) && AllPlain(list)
    ensures StrictlySorted(sorted)
    ensures forall f :: f in sorted <==> f in list
  {
    hide Before;
    SortedIsDistinct(sorted, list);
    forall f
      ensures f in sorted <==> f in list
    {
      DistinctCounts(list, f);
      DistinctCounts(sorted, f);
    }
    forall i, j | 0 <= i < j < |sorted|
      ensures Before(sorted[i], sorted[j])
    {
      assert sorted[i] in list && sorted[j] in list;
      BeforeIsTotal(sorted[i], sorted[j]);
    }
  }

  // --- Formats in common

  /** VideoFormat::IsSameCodec, which both peers are built with; nothing is supposed of it. */
  type SameCodec = (VideoFormat, VideoFormat) -> bool

  /** FindEqualFormat */
  function FindEqual(same: SameCodec, list: seq<VideoFormat>, format: VideoFormat): (i: nat)
    ensures i <= |list|
    ensures i < |list| ==> same(format, list[i])
    ensures forall k | 0 <= k < i :: !same(format, list[k])
  {
    if list == [] || same(format, list[0]) then 0 else 1 + FindEqual(same, list[1..], format)
  }

  function AddUnique(list: seq<VideoFormat>, format: VideoFormat): seq<VideoFormat> {
    if format in list then list else list + [format]
  }

  /** Every encoder that some decoder matches, and the first that matches it. */
  function AddCommon(
      same: SameCodec, list: seq<VideoFormat>, encoders: seq<VideoFormat>, decoders: seq<VideoFormat>): seq<VideoFormat>
    decreases |encoders|
  {
    if encoders == [] then list
    else
      var j := FindEqual(same, decoders, encoders[0]);
      AddCommon(
        same,
        if j < |decoders| then AddUnique(AddUnique(list, encoders[0]), decoders[j]) else list,
        encoders[1..], decoders)
  }

  /** The first of these encoders, held in first as long as its name is not empty. */
  function FirstCommon(
      same: SameCodec, first: VideoFormat, encoders: seq<VideoFormat>, decoders: seq<VideoFormat>): VideoFormat
    decreases |encoders|
  {
    if encoders == [] then first
    else
      var common := FindEqual(same, decoders, encoders[0]) < |decoders|;
      FirstCommon(same, if common && first.name == [] then encoders[0] else first, encoders[1..], decoders)
  }

  const NO_FORMAT: VideoFormat := VideoFormat([], [], [])

  ghost predicate ValidFormats(m: Message) {
    m.VideoFormats? && 0 <= m.encodersCount <= |m.formats|
  }

  function Encoders(m: Message): seq<VideoFormat>
    requires ValidFormats(m)
  {
    m.formats[..m.encodersCount]
  }

  /** The list of ComputeCommonFormats before it is sorted. */
  function Common(same: SameCodec, my: Message, their: Message): seq<VideoFormat>
    requires ValidFormats(my) && ValidFormats(their)
  {
    AddCommon(same, AddCommon(same, [], Encoders(my), their.formats), Encoders(their), my.formats)
  }

  /** What ComputeCommonFormats returns. */
  datatype CommonFormats = CommonFormats(list: seq<VideoFormat>, myEncoderIndex: int)

  ghost predicate IsCommon(same: SameCodec, my: Message, their: Message, common: CommonFormats)
    requires ValidFormats(my) && ValidFormats(their)
  {
    var first := FirstCommon(same, NO_FORMAT, Encoders(my), their.formats);
    && IsSorted(common.list, Common(same, my, their))
    && (first.name == [] ==> common.myEncoderIndex == -1)
    && (first.name != [] ==> 0 <= common.myEncoderIndex < |common.list| && common.list[common.myEncoderIndex] == first)
  }

  /** Whether f gets into the list because of one of the encoders. */
  ghost predicate Contributed(same: SameCodec, encoders: seq<VideoFormat>, decoders: seq<VideoFormat>, f: VideoFormat) {
    exists i | 0 <= i < |encoders| :: ContributedBy(same, encoders[i], decoders, f)
  }

  predicate ContributedBy(same: SameCodec, encoder: VideoFormat, decoders: seq<VideoFormat>, f: VideoFormat) {
    var j := FindEqual(same, decoders, encoder);
    j < |decoders| && (f == encoder || f == decoders[j])
  }

  lemma ContributedStep(same: SameCodec, encoders: seq<VideoFormat>, decoders: seq<VideoFormat>, f: VideoFormat)
    requires encoders != []
    ensures Contributed(same, encoders, decoders, f)
       <==> ContributedBy(same, encoders[0], decoders, f) || Contributed(same, encoders[1..], decoders, f)
  {
    hide ContributedBy;
    if Contributed(same, encoders[1..], decoders, f) {
      var i :| 0 <= i < |encoders[1..]| && ContributedBy(same, encoders[1..][i], decoders, f);
      assert encoders[i + 1] == encoders[1..][i];
    }
    assert forall i | 0 < i < |encoders| :: encoders[i] == encoders[1..][i - 1];
  }

  lemma {:induction false} AddCommonContents(
      same: SameCodec, list: seq<VideoFormat>, encoders: seq<VideoFormat>, decoders: seq<VideoFormat>, f: VideoFormat)
    ensures f in AddCommon(same, list, encoders, decoders) <==> f in list || Contributed(same, encoders, decoders, f)
    decreases |encoders|
  {
    hide Contributed;
    if encoders == [] {
      NothingContributed(same, decoders, f);
    } else {
      var j := FindEqual(same, decoders, encoders[0]);
      var next := if j < |decoders| then AddUnique(AddUnique(list, encoders[0]), decoders[j]) else list;
      ContributedStep(same, encoders, decoders, f);
      AddCommonContents(same, next, encoders[1..], decoders, f);
    }
  }

  lemma NothingContributed(same: SameCodec, decoders: seq<VideoFormat>, f: VideoFormat)
    ensures !Contributed(same, [], decoders, f)
  {
  }

  lemma {:induction false} AddCommonDistinct(
      same: SameCodec, list: seq<VideoFormat>, encoders: seq<VideoFormat>, decoders: seq<VideoFormat>)
    requires NoRepeats(list) && AllPlain(list) && AllPlain(encoders) && AllPlain(decoders)
    ensures NoRepeats(AddCommon(same, list, encoders, decoders))
    ensures AllPlain(AddCommon(same, list, encoders, decoders))
    decreases |encoders|
  {
    if encoders != [] {
      var j := FindEqual(same, decoders, encoders[0]);
      AddCommonDistinct(
        same, if j < |decoders| then AddUnique(AddUnique(list, encoders[0]), decoders[j]) else list, encoders[1..], decoders);
    }
  }

  ghost predicate PlainFormats(m: Message) {
    ValidFormats(m) && AllPlain(m.formats)
  }

  lemma CommonIsSymmetric(same: SameCodec, a: Message, b: Message, f: VideoFormat)
    requires PlainFormats(a) && PlainFormats(b)
    ensures f in Common(same, a, b) <==> f in Common(same, b, a)
  {
    hide AddCommon, Contributed;
    AddCommonContents(same, [], Encoders(a), b.formats, f);
    AddCommonContents(same, AddCommon(same, [], Encoders(a), b.formats), Encoders(b), a.formats, f);
    AddCommonContents(same, [], Encoders(b), a.formats, f);
    AddCommonContents(same, AddCommon(same, [], Encoders(b), a.formats), Encoders(a), b.formats, f);
  }

  lemma CommonIsDistinct(same: SameCodec, a: Message, b: Message)
    requires PlainFormats(a) && PlainFormats(b)
    ensures NoRepeats(Common(same, a, b)) && AllPlain(Common(same, a, b))
  {
    AddCommonDistinct(same, [], Encoders(a), b.formats);
    AddCommonDistinct(same, AddCommon(same, [], Encoders(a), b.formats), Encoders(b), a.formats);
  }

  /** Two peers that have each other's formats compute the same list, whatever sort they use. */
  lemma BothComputeTheSame(same: SameCodec, a: Message, b: Message, atA: CommonFormats, atB: CommonFormats)
    requires PlainFormats(a) && PlainFormats(b)
    requires IsCommon(same, a, b, atA) && IsCommon(same, b, a, atB)
    ensures atA.list == atB.list
  {
    hide AddCommon, NoRepeats, AllPlain;
    CommonIsDistinct(same, a, b);
    CommonIsDistinct(same, b, a);
    SortedIsStrict(atA.list, Common(same, a, b));
    SortedIsStrict(atB.list, Common(same, b, a));
    forall f
      ensures f in atA.list <==> f in atB.list
    {
      CommonIsSymmetric(same, a, b, f);
    }
    StrictlySortedIsUnique(atA.list, atB.list);
  }

  /** The encoder a peer chooses is one of its own, and the other side has a format for it. */
  lemma {:induction false} FirstIsCommon(
      same: SameCodec, first: VideoFormat, encoders: seq<VideoFormat>, decoders: seq<VideoFormat>)
    requires first.name == [] || (exists i | 0 <= i < |decoders| :: same(first, decoders[i]))
    ensures var r := FirstCommon(same, first, encoders, decoders);
            r.name == [] || (exists i | 0 <= i < |decoders| :: same(r, decoders[i]))
    decreases |encoders|
  {
    if encoders != [] {
      var j := FindEqual(same, decoders, encoders[0]);
      FirstIsCommon(same, if j < |decoders| && first.name == [] then encoders[0] else first, encoders[1..], decoders);
    }
  }

  lemma ChosenEncoderIsUnderstood(same: SameCodec, my: Message, their: Message, common: CommonFormats)
    requires ValidFormats(my) && ValidFormats(their) && IsCommon(same, my, their, common)
    requires common.myEncoderIndex >= 0
    ensures common.myEncoderIndex < |common.list|
    ensures exists i | 0 <= i < |their.formats| :: same(common.list[common.myEncoderIndex], their.formats[i])
  {
    FirstIsCommon(same, NO_FORMAT, Encoders(my), their.formats);
  }

  lemma {:induction false} FirstIsEncoder(
      same: SameCodec, first: VideoFormat, encoders: seq<VideoFormat>, decoders: seq<VideoFormat>)
    ensures var r := FirstCommon(same, first, encoders, decoders);
            r == first || Contributed(same, encoders, decoders, r)
    decreases |encoders|
  {
    hide Contributed;
    if encoders != [] {
      var j := FindEqual(same, decoders, encoders[0]);
      var next := if j < |decoders| && first.name == [] then encoders[0] else first;
      FirstIsEncoder(same, next, encoders[1..], decoders);
      ContributedStep(same, encoders, decoders, FirstCommon(same, first, encoders, decoders));
    }
  }

  /** A chosen encoder is in the list. */
  lemma FirstIsListed(same: SameCodec, my: Message, their: Message)
    requires ValidFormats(my) && ValidFormats(their)
    ensures var first := FirstCommon(same, NO_FORMAT, Encoders(my), their.formats);
            first.name != [] ==> first in Common(same, my, their)
  {
    hide AddCommon, Contributed;
    var first := FirstCommon(same, NO_FORMAT, Encoders(my), their.formats);
    FirstIsEncoder(same, NO_FORMAT, Encoders(my), their.formats);
    AddCommonContents(same, [], Encoders(my), their.formats, first);
    AddCommonContents(same, AddCommon(same, [], Encoders(my), their.formats), Encoders(their), my.formats, first);
  }

  /** The other side has a format for it. */
  ghost predicate Understood(same: SameCodec, f: VideoFormat, formats: seq<VideoFormat>) {
    exists i :: 0 <= i < |formats| && same(f, formats[i])
  }

  /** Encoder number k is the first with a name that the other side understands. */
  ghost predicate IsFirstUnderstood(
      same: SameCodec, encoders: seq<VideoFormat>, decoders: seq<VideoFormat>, k: nat)
  {
    && k < |encoders| && encoders[k].name != [] && Understood(same, encoders[k], decoders)
    && forall j | 0 <= j < k && encoders[j].name != [] :: !Understood(same, encoders[j], decoders)
  }

  lemma {:induction false} FindEqualUnderstands(same: SameCodec, list: seq<VideoFormat>, f: VideoFormat)
    ensures FindEqual(same, list, f) < |list| <==> Understood(same, f, list)
  {
  }

  lemma {:induction false} HeldBack(
      same: SameCodec, first: VideoFormat, encoders: seq<VideoFormat>, decoders: seq<VideoFormat>)
    requires first.name != []
    ensures FirstCommon(same, first, encoders, decoders) == first
    decreases |encoders|
  {
    if encoders != [] {
      HeldBack(same, first, encoders[1..], decoders);
    }
  }

  /** From a format without a name: the first understood encoder is held, or none has a name. */
  lemma {:induction false} FirstIsFirst(
      same: SameCodec, first: VideoFormat, encoders: seq<VideoFormat>, decoders: seq<VideoFormat>)
    requires first.name == []
    ensures var r := FirstCommon(same, first, encoders, decoders);
            && (r.name != [] ==> exists k: nat :: IsFirstUnderstood(same, encoders, decoders, k) && r == encoders[k])
            && (r.name == [] ==>
                  forall k | 0 <= k < |encoders| && encoders[k].name != [] :: !Understood(same, encoders[k], decoders))
    decreases |encoders|
  {
    hide FindEqual, Understood;
    if encoders != [] {
      var e, rest := encoders[0], encoders[1..];
      FindEqualUnderstands(same, decoders, e);
      if Understood(same, e, decoders) && e.name != [] {
        HeldBack(same, e, rest, decoders);
        assert IsFirstUnderstood(same, encoders, decoders, 0);
      } else {
        var next := if Understood(same, e, decoders) then e else first;
        FirstIsFirst(same, next, rest, decoders);
        var r := FirstCommon(same, first, encoders, decoders);
        assert r == FirstCommon(same, next, rest, decoders);
        assert forall k | 0 < k < |encoders| :: encoders[k] == rest[k - 1];
        if r.name != [] {
          var k: nat :| IsFirstUnderstood(same, rest, decoders, k) && r == rest[k];
          assert IsFirstUnderstood(same, encoders, decoders, k + 1);
        }
      }
    }
  }

  /** A peer chooses the first of its encoders, among those with a name, that the other side understands; it
      chooses none exactly if there is none. */
  lemma ChosenIsFirst(same: SameCodec, my: Message, their: Message, common: CommonFormats)
    requires ValidFormats(my) && ValidFormats(their) && IsCommon(same, my, their, common)
    ensures common.myEncoderIndex == -1
       <==> forall k | 0 <= k < |Encoders(my)| && Encoders(my)[k].name != [] ::
              !Understood(same, Encoders(my)[k], their.formats)
    ensures common.myEncoderIndex != -1 ==>
              && 0 <= common.myEncoderIndex < |common.list|
              && exists k: nat :: IsFirstUnderstood(same, Encoders(my), their.formats, k)
                             && common.list[common.myEncoderIndex] == Encoders(my)[k]
  {
    hide FirstCommon, Understood, IsSorted;
    FirstIsFirst(same, NO_FORMAT, Encoders(my), their.formats);
  }

  /** What the formats in common are: each encoder of either side for which the other has a format, and the first
      such format, nothing else. */
  lemma CommonListContains(same: SameCodec, my: Message, their: Message, common: CommonFormats, f: VideoFormat)
    requires ValidFormats(my) && ValidFormats(their) && IsCommon(same, my, their, common)
    ensures f in common.list
       <==> Contributed(same, Encoders(my), their.formats, f) || Contributed(same, Encoders(their), my.formats, f)
  {
    hide AddCommon, Contributed, FirstCommon;
    var list := Common(same, my, their);
    DistinctCounts(list, f);
    DistinctCounts(common.list, f);
    AddCommonContents(same, [], Encoders(my), their.formats, f);
    AddCommonContents(same, AddCommon(same, [], Encoders(my), their.formats), Encoders(their), my.formats, f);
  }

  lemma DistinctCommon(same: SameCodec, my: Message, their: Message, common: CommonFormats)
    requires PlainFormats(my) && PlainFormats(their) && IsCommon(same, my, their, common)
    ensures NoRepeats(common.list)
  {
    hide AddCommon, FirstCommon;
    CommonIsDistinct(same, my, their);
    SortedIsDistinct(common.list, Common(same, my, their));
  }

  /** At k the parameters part: there a ends, or has the smaller entry. */
  ghost predicate ParametersLessAt(a: Dict<seq<byte>>, b: Dict<seq<byte>>, k: nat) {
    && k <= |a| && k < |b| && a[..k] == b[..k]
    && (k < |a| ==> a[k] != b[k] && (Less(a[k].0, b[k].0) || (a[k].0 == b[k].0 && Less(a[k].1, b[k].1))))
  }

  lemma PartInFront(a: Dict<seq<byte>>, b: Dict<seq<byte>>, k: nat)
    ensures ParametersLessAt(a, b, k) && k > 0 ==>
              a != [] && b != [] && a[0] == b[0] && ParametersLessAt(a[1..], b[1..], k - 1)
    ensures a != [] && b != [] && a[0] == b[0] && ParametersLessAt(a[1..], b[1..], k) ==> ParametersLessAt(a, b, k + 1)
  {
    hide Less;
    if ParametersLessAt(a, b, k) && k > 0 {
      assert a[0] == a[..k][0] == b[..k][0] == b[0];
      assert a[1..][..k - 1] == a[..k][1..] && b[1..][..k - 1] == b[..k][1..];
    }
    if a != [] && b != [] && a[0] == b[0] && ParametersLessAt(a[1..], b[1..], k) {
      assert a[..k + 1] == [a[0]] + a[1..][..k] && b[..k + 1] == [b[0]] + b[1..][..k];
    }
  }

  lemma {:induction false} ParametersLessIff(a: Dict<seq<byte>>, b: Dict<seq<byte>>)
    ensures ParametersLess(a, b) <==> exists k: nat :: ParametersLessAt(a, b, k)
    decreases |a|
  {
    hide Less;
    forall k: nat
      ensures ParametersLessAt(a, b, k) && k > 0 ==>
                a != [] && b != [] && a[0] == b[0] && ParametersLessAt(a[1..], b[1..], k - 1)
      ensures a != [] && b != [] && a[0] == b[0] && ParametersLessAt(a[1..], b[1..], k) ==> ParametersLessAt(a, b, k + 1)
    {
      PartInFront(a, b, k);
    }
    if a != [] && b != [] && a[0] == b[0] {
      ParametersLessIff(a[1..], b[1..]);
      if k: nat :| ParametersLessAt(a, b, k) {
        NotAtFront(a, b);
        assert ParametersLessAt(a[1..], b[1..], k - 1);
      }
      if k: nat :| ParametersLessAt(a[1..], b[1..], k) {
        assert ParametersLessAt(a, b, k + 1);
      }
    } else if ParametersLess(a, b) {
      assert ParametersLessAt(a, b, 0);
    }
  }

  lemma NotAtFront(a: Dict<seq<byte>>, b: Dict<seq<byte>>)
    requires a != [] && b != [] && a[0] == b[0]
    ensures !ParametersLessAt(a, b, 0)
  {
  }

  /** The common list ascends by name, and among equal names by parameters. */
  lemma CommonAscends(same: SameCodec, my: Message, their: Message, common: CommonFormats)
    requires ValidFormats(my) && ValidFormats(their) && IsCommon(same, my, their, common)
    ensures forall i, j | 0 <= i < j < |common.list| ::
              var a, b := common.list[i], common.list[j];
              Less(a.name, b.name) || (a.name == b.name && !ParametersLess(b.parameters, a.parameters))
  {
    hide FirstCommon, Common, Less, ParametersLess, Encoders;
    forall i, j | 0 <= i < j < |common.list|
      ensures var a, b := common.list[i], common.list[j];
              Less(a.name, b.name) || (a.name == b.name && !ParametersLess(b.parameters, a.parameters))
    {
      LessIsTotal(common.list[i].name, common.list[j].name);
      LessIsIrreflexive(common.list[i].name);
    }
  }

  // --- What a peer offers

  function Lower(c: byte): byte {
    if 65 <= c <= 90 then c + 32 else c
  }

  /** absl::EqualsIgnoreCase */
  predicate EqualsIgnoreCase(a: seq<byte>, b: seq<byte>) {
    |a| == |b| && forall i | 0 <= i < |a| :: Lower(a[i]) == Lower(b[i])
  }

  /** One is the capital of the other. */
  predicate CapitalOf(x: byte, y: byte) {
    65 <= x <= 90 && 97 <= y <= 122 && y - x == 32
  }

  /** Names are equal up to capitals. */
  lemma EqualsIgnoreCaseIff(a: seq<byte>, b: seq<byte>)
    ensures EqualsIgnoreCase(a, b)
       <==> && |a| == |b|
            && forall i | 0 <= i < |a| :: a[i] == b[i] || CapitalOf(a[i], b[i]) || CapitalOf(b[i], a[i])
  {
    assert forall x: byte, y: byte :: Lower(x) == Lower(y) <==> x == y || CapitalOf(x, y) || CapitalOf(y, x);
  }

  /** Where a name is in a list, regardless of case. */
  function FindName(list: seq<seq<byte>>, name: seq<byte>): (i: nat)
    ensures i <= |list|
    ensures i < |list| ==> EqualsIgnoreCase(name, list[i])
    ensures forall k | 0 <= k < i :: !EqualsIgnoreCase(name, list[k])
  {
    if list == [] || EqualsIgnoreCase(name, list[0]) then 0 else 1 + FindName(list[1..], name)
  }

  /** FormatPriority: preferred codecs first, the others as they are supported, -1 for the rest. */
  function Priority(f: VideoFormat, preferred: seq<seq<byte>>, supported: seq<seq<byte>>): int {
    var s, p := FindName(supported, f.name), FindName(preferred, f.name);
    if s == |supported| then -1
    else if p < |preferred| then p
    else |preferred| + s
  }

  ghost predicate NamedIn(list: seq<seq<byte>>, name: seq<byte>) {
    exists i :: 0 <= i < |list| && EqualsIgnoreCase(name, list[i])
  }

  /** a is named in the list in front of b, or b is not named in it at all. */
  ghost predicate NamedEarlier(list: seq<seq<byte>>, a: seq<byte>, b: seq<byte>) {
    exists i :: 0 <= i < |list| && EqualsIgnoreCase(a, list[i]) && forall j | 0 <= j <= i :: !EqualsIgnoreCase(b, list[j])
  }

  lemma {:induction false} FindNameOrders(list: seq<seq<byte>>, a: seq<byte>, b: seq<byte>)
    ensures FindName(list, a) < |list| <==> NamedIn(list, a)
    ensures FindName(list, a) < FindName(list, b) <==> NamedEarlier(list, a, b)
  {
    hide EqualsIgnoreCase;
    var i := FindName(list, a);
    if i < FindName(list, b) {
      assert EqualsIgnoreCase(a, list[i]) && forall j | 0 <= j <= i :: !EqualsIgnoreCase(b, list[j]);
    }
  }

  /** A format is out exactly if no supported codec has its name; of two that are not, one has priority exactly if
      its name is earlier among the preferred ones, or neither is and it is earlier among the supported ones. */
  lemma PriorityOrders(a: VideoFormat, b: VideoFormat, preferred: seq<seq<byte>>, supported: seq<seq<byte>>)
    ensures Priority(a, preferred, supported) == -1 <==> !NamedIn(supported, a.name)
    ensures NamedIn(supported, a.name) && NamedIn(supported, b.name) ==>
              (Priority(a, preferred, supported) < Priority(b, preferred, supported)
               <==> || NamedEarlier(preferred, a.name, b.name)
                    || (&& !NamedIn(preferred, a.name) && !NamedIn(preferred, b.name)
                        && NamedEarlier(supported, a.name, b.name)))
  {
    hide FindName, NamedIn, NamedEarlier;
    FindNameOrders(preferred, a.name, b.name);
    FindNameOrders(supported, a.name, b.name);
    FindNameOrders(preferred, b.name, a.name);
    FindNameOrders(supported, b.name, a.name);
  }

  ghost predicate SortedByPriority(list: seq<VideoFormat>, preferred: seq<seq<byte>>, supported: seq<seq<byte>>) {
    forall i, j | 0 <= i < j < |list| ::
      Priority(list[i], preferred, supported) <= Priority(list[j], preferred, supported)
  }

  function Supported(list: seq<VideoFormat>, preferred: seq<seq<byte>>, supported: seq<seq<byte>>): seq<VideoFormat>
    decreases |list|
  {
    if list == [] then []
    else
      (if Priority(list[0], preferred, supported) != -1 then [list[0]] else [])
      + Supported(list[1..], preferred, supported)
  }

  /** FilterAndSortEncoders: exactly the supported ones, by priority; equal priorities in any order. */
  ghost predicate IsFiltered(
      filtered: seq<VideoFormat>, list: seq<VideoFormat>, preferred: seq<seq<byte>>, supported: seq<seq<byte>>)
  {
    && multiset(filtered) == multiset(Supported(list, preferred, supported))
    && SortedByPriority(filtered, preferred, supported)
  }

  function WithoutModes(f: VideoFormat): VideoFormat {
    f.(scalabilityModes := [])
  }

  function AllWithoutModes(list: seq<VideoFormat>): (r: seq<VideoFormat>)
    ensures |r| == |list|
    ensures forall i | 0 <= i < |list| :: r[i] == WithoutModes(list[i])
  {
    seq(|list|, i requires 0 <= i < |list| => WithoutModes(list[i]))
  }

  /** The first of each kind. */
  function Deduplicated(list: seq<VideoFormat>): seq<VideoFormat>
    decreases |list|
  {
    if list == [] then []
    else
      var rest := Deduplicated(list[..|list| - 1]);
      if list[|list| - 1] in list[..|list| - 1] then rest else rest + [list[|list| - 1]]
  }

  /** RemoveScalabilityModes: repeated formats are removed only if there were modes to remove. */
  function ModesRemoved(list: seq<VideoFormat>): seq<VideoFormat> {
    if forall i | 0 <= i < |list| :: NoModes(list[i]) then list else Deduplicated(AllWithoutModes(list))
  }

  /** Those of other that are not in list, in order; all of other for an empty list. */
  function Missing(list: seq<VideoFormat>, other: seq<VideoFormat>): seq<VideoFormat>
    decreases |other|
  {
    if other == [] then []
    else (if other[0] in list then [] else [other[0]]) + Missing(list, other[1..])
  }

  function AppendUnique(list: seq<VideoFormat>, other: seq<VideoFormat>): seq<VideoFormat> {
    if list == [] then other else list + Missing(list, other)
  }

  /** ComposeSupportedFormats */
  ghost predicate IsComposed(
      m: Message, encoders: seq<VideoFormat>, decoders: seq<VideoFormat>,
      preferred: seq<seq<byte>>, supported: seq<seq<byte>>)
  {
    && ValidFormats(m)
    && IsFiltered(Encoders(m), ModesRemoved(encoders), preferred, supported)
    && m.formats == AppendUnique(Encoders(m), ModesRemoved(decoders))
  }

  lemma {:induction false} DeduplicatedKeeps(list: seq<VideoFormat>)
    ensures NoRepeats(Deduplicated(list))
    ensures forall f :: f in Deduplicated(list) <==> f in list
    decreases |list|
  {
    if list != [] {
      var init, last := list[..|list| - 1], list[|list| - 1];
      DeduplicatedKeeps(init);
      assert list == init + [last];
    }
  }

  lemma ModesRemovedIsPlain(list: seq<VideoFormat>)
    ensures AllPlain(ModesRemoved(list))
  {
    var plain := AllWithoutModes(list);
    DeduplicatedKeeps(plain);
    forall i | 0 <= i < |Deduplicated(plain)|
      ensures NoModes(Deduplicated(plain)[i])
    {
      assert Deduplicated(plain)[i] in plain;
    }
  }

  lemma {:induction false} SupportedAreThere(
      list: seq<VideoFormat>, preferred: seq<seq<byte>>, supported: seq<seq<byte>>, f: VideoFormat)
    ensures f in Supported(list, preferred, supported) <==> f in list && Priority(f, preferred, supported) != -1
    decreases |list|
  {
    hide Priority;
    if list != [] {
      SupportedAreThere(list[1..], preferred, supported, f);
      assert list == [list[0]] + list[1..];
    }
  }

  lemma {:induction false} MissingAreThere(list: seq<VideoFormat>, other: seq<VideoFormat>, f: VideoFormat)
    ensures f in Missing(list, other) <==> f in other && f !in list
    decreases |other|
  {
    if other != [] {
      MissingAreThere(list, other[1..], f);
      assert other == [other[0]] + other[1..];
    }
  }

  /** The list, and behind it what of the other is not in it, in the order of the other. */
  lemma UniqueIsAppended(list: seq<VideoFormat>, other: seq<VideoFormat>)
    ensures var r := AppendUnique(list, other);
            && list <= r
            && (forall f :: f in r[|list|..] <==> f in other && f !in list)
            && forall i, j | |list| <= i < j < |r| :: InThisOrder(other, r[i], r[j])
  {
    hide InThisOrder, Missing;
    NoneOfNothing(other);
    var r := AppendUnique(list, other);
    assert r[|list|..] == Missing(list, other);
    forall f
      ensures f in r[|list|..] <==> f in other && f !in list
    {
      MissingAreThere(list, other, f);
    }
    forall i, j | |list| <= i < j < |r|
      ensures InThisOrder(other, r[i], r[j])
    {
      MissingInOrder(list, other, i - |list|, j - |list|);
      assert r[i] == r[|list|..][i - |list|] && r[j] == r[|list|..][j - |list|];
    }
  }

  lemma {:induction false} NoneOfNothing(other: seq<VideoFormat>)
    ensures Missing([], other) == other
    decreases |other|
  {
    if other != [] {
      NoneOfNothing(other[1..]);
    }
  }

  ghost predicate InThisOrder(list: seq<VideoFormat>, a: VideoFormat, b: VideoFormat) {
    exists p, q :: 0 <= p < q < |list| && list[p] == a && list[q] == b
  }

  lemma AreInThisOrder(list: seq<VideoFormat>, p: nat, q: nat)
    requires p < q < |list|
    ensures InThisOrder(list, list[p], list[q])
  {
  }

  lemma BehindFirst(list: seq<VideoFormat>, b: VideoFormat)
    requires list != [] && b in list[1..]
    ensures InThisOrder(list, list[0], b)
  {
    var q :| 0 <= q < |list[1..]| && list[1..][q] == b;
    assert list[q + 1] == b;
  }

  lemma AlsoBehind(list: seq<VideoFormat>, a: VideoFormat, b: VideoFormat)
    requires list != [] && InThisOrder(list[1..], a, b)
    ensures InThisOrder(list, a, b)
  {
    var p, q :| 0 <= p < q < |list[1..]| && list[1..][p] == a && list[1..][q] == b;
    AreInThisOrder(list, p + 1, q + 1);
  }

  lemma {:induction false} MissingInOrder(list: seq<VideoFormat>, other: seq<VideoFormat>, i: nat, j: nat)
    requires i < j < |Missing(list, other)|
    ensures InThisOrder(other, Missing(list, other)[i], Missing(list, other)[j])
    decreases |other|
  {
    hide InThisOrder;
    var rest := Missing(list, other[1..]);
    if other[0] in list {
      MissingInOrder(list, other[1..], i, j);
      AlsoBehind(other, rest[i], rest[j]);
    } else if i > 0 {
      MissingInOrder(list, other[1..], i - 1, j - 1);
      AlsoBehind(other, rest[i - 1], rest[j - 1]);
    } else {
      MissingAreThere(list, other[1..], rest[j - 1]);
      BehindFirst(other, rest[j - 1]);
    }
  }

  /** What a composed message says: its encoders are exactly the supported ones, and its formats are
      these and all decoders, none with scalability modes. */
  lemma ComposedFormats(
      m: Message, encoders: seq<VideoFormat>, decoders: seq<VideoFormat>,
      preferred: seq<seq<byte>>, supported: seq<seq<byte>>)
    requires IsComposed(m, encoders, decoders, preferred, supported)
    ensures forall f :: f in Encoders(m) <==> f in ModesRemoved(encoders) && Priority(f, preferred, supported) != -1
    ensures forall f :: f in m.formats <==> f in Encoders(m) || f in ModesRemoved(decoders)
    ensures PlainFormats(m)
  {
    hide Priority, ModesRemoved;
    var own := Encoders(m);
    forall f
      ensures f in own <==> f in ModesRemoved(encoders) && Priority(f, preferred, supported) != -1
    {
      SupportedAreThere(ModesRemoved(encoders), preferred, supported, f);
      DistinctCounts(own, f);
      DistinctCounts(Supported(ModesRemoved(encoders), preferred, supported), f);
    }
    forall f
      ensures f in m.formats <==> f in own || f in ModesRemoved(decoders)
    {
      MissingAreThere(own, ModesRemoved(decoders), f);
    }
    ModesRemovedIsPlain(encoders);
    ModesRemovedIsPlain(decoders);
    forall i | 0 <= i < |m.formats|
      ensures NoModes(m.formats[i])
    {
      assert m.formats[i] in m.formats;
    }
  }

  /** Of composed formats the encoder chosen has the least priority number of those understood. */
  lemma ChosenIsPreferred(
      same: SameCodec, my: Message, their: Message, common: CommonFormats,
      encoders: seq<VideoFormat>, decoders: seq<VideoFormat>, preferred: seq<seq<byte>>, supported: seq<seq<byte>>)
    requires IsComposed(my, encoders, decoders, preferred, supported) && ValidFormats(their)
    requires IsCommon(same, my, their, common) && common.myEncoderIndex != -1
    ensures 0 <= common.myEncoderIndex < |common.list|
    ensures forall f | f in Encoders(my) && f.name != [] && Understood(same, f, their.formats) ::
              Priority(common.list[common.myEncoderIndex], preferred, supported) <= Priority(f, preferred, supported)
  {
    hide IsCommon, Understood, Priority, Supported, ModesRemoved;
    ChosenIsFirst(same, my, their, common);
    var own := Encoders(my);
    var k: nat :| IsFirstUnderstood(same, own, their.formats, k) && common.list[common.myEncoderIndex] == own[k];
    forall f | f in own && f.name != [] && Understood(same, f, their.formats)
      ensures Priority(own[k], preferred, supported) <= Priority(f, preferred, supported)
    {
      var j :| 0 <= j < |own| && own[j] == f;
      assert k <= j;
    }
  }

  // --- Payload numbers

  const FIRST_DYNAMIC_PAYLOAD_TYPE: int := 96
  const LAST_DYNAMIC_PAYLOAD_TYPE: int := 127

  const RED: seq<byte> := [114, 101, 100]
  const ULPFEC: seq<byte> := [117, 108, 112, 102, 101, 99]
  const FLEXFEC: seq<byte> := [102, 108, 101, 120, 102, 101, 99, 45, 48, 51]
  const REPAIR_WINDOW: seq<byte> := [114, 101, 112, 97, 105, 114, 45, 119, 105, 110, 100, 111, 119]
  const TEN_SECONDS: seq<byte> := [49, 48, 48, 48, 48, 48, 48, 48]

  datatype Codec =
    | Main(id: int, format: VideoFormat)
    | Rtx(id: int, associated: int)

  datatype CommonCodecs = CommonCodecs(list: seq<Codec>, myEncoderIndex: int)

  function WithDefaults(list: seq<VideoFormat>): seq<VideoFormat> {
    list + [VideoFormat(RED, [], []), VideoFormat(ULPFEC, [], []), VideoFormat(FLEXFEC, [(REPAIR_WINDOW, TEN_SECONDS)], [])]
  }

  /** Forward error correction is not retransmitted. */
  predicate IsFec(f: VideoFormat) {
    EqualsIgnoreCase(f.name, ULPFEC) || EqualsIgnoreCase(f.name, FLEXFEC)
  }

  /** The codecs for the formats that are left, from a payload number on. */
  function NumberedFrom(formats: seq<VideoFormat>, payload: int): seq<Codec>
    decreases |formats|
  {
    if formats == [] then []
    else if payload == LAST_DYNAMIC_PAYLOAD_TYPE then [Main(payload, formats[0])]
    else if IsFec(formats[0]) then [Main(payload, formats[0])] + NumberedFrom(formats[1..], payload + 1)
    else if payload + 1 == LAST_DYNAMIC_PAYLOAD_TYPE then [Main(payload, formats[0]), Rtx(payload + 1, payload)]
    else [Main(payload, formats[0]), Rtx(payload + 1, payload)] + NumberedFrom(formats[1..], payload + 2)
  }

  /** Where the codec of a format is, -1 when the numbers did not reach so far. */
  function CodecIndex(formats: seq<VideoFormat>, payload: int, index: int): int
    decreases |formats|
  {
    if formats == [] || index < 0 then -1
    else if index == 0 then payload - FIRST_DYNAMIC_PAYLOAD_TYPE
    else
      var next := if payload == LAST_DYNAMIC_PAYLOAD_TYPE || IsFec(formats[0]) then payload + 1 else payload + 2;
      if next > LAST_DYNAMIC_PAYLOAD_TYPE then -1 else CodecIndex(formats[1..], next, index - 1)
  }

  /** AssignPayloadTypesAndDefaultCodecs */
  function Assigned(common: CommonFormats): CommonCodecs {
    if common.list == [] then CommonCodecs([], -1)
    else
      var formats := WithDefaults(common.list);
      CommonCodecs(NumberedFrom(formats, FIRST_DYNAMIC_PAYLOAD_TYPE),
                   CodecIndex(formats, FIRST_DYNAMIC_PAYLOAD_TYPE, common.myEncoderIndex))
  }

  /** A retransmission codec comes right behind the codec it names. */
  ghost predicate WellNumbered(list: seq<Codec>, first: int) {
    && first + |list| - 1 <= LAST_DYNAMIC_PAYLOAD_TYPE
    && (forall k | 0 <= k < |list| :: list[k].id == first + k)
    && (forall k | 0 <= k < |list| && list[k].Rtx? ::
          k > 0 && list[k - 1].Main? && list[k].associated == list[k - 1].id)
  }

  lemma {:induction false} NumberingIsGood(formats: seq<VideoFormat>, payload: int)
    requires payload <= LAST_DYNAMIC_PAYLOAD_TYPE
    ensures WellNumbered(NumberedFrom(formats, payload), payload)
    decreases |formats|
  {
    hide IsFec;
    if formats != [] && payload < LAST_DYNAMIC_PAYLOAD_TYPE {
      if IsFec(formats[0]) {
        NumberingIsGood(formats[1..], payload + 1);
      } else if payload + 1 < LAST_DYNAMIC_PAYLOAD_TYPE {
        NumberingIsGood(formats[1..], payload + 2);
      }
    }
  }

  lemma {:induction false} CodecIndexPoints(formats: seq<VideoFormat>, payload: int, index: int)
    requires FIRST_DYNAMIC_PAYLOAD_TYPE <= payload <= LAST_DYNAMIC_PAYLOAD_TYPE
    ensures var list := NumberedFrom(formats, payload);
            var k := CodecIndex(formats, payload, index) - (payload - FIRST_DYNAMIC_PAYLOAD_TYPE);
            CodecIndex(formats, payload, index) >= 0 ==>
              && 0 <= index < |formats| && 0 <= k < |list|
              && list[k] == Main(payload + k, formats[index])
    decreases |formats|
  {
    hide IsFec;
    if formats != [] && index > 0 {
      var next := if payload == LAST_DYNAMIC_PAYLOAD_TYPE || IsFec(formats[0]) then payload + 1 else payload + 2;
      if next <= LAST_DYNAMIC_PAYLOAD_TYPE {
        CodecIndexPoints(formats[1..], next, index - 1);
        var list, rest := NumberedFrom(formats, payload), NumberedFrom(formats[1..], next);
        assert list[next - payload..] == rest;
      }
    }
  }

  /** Entry k has payload number 96 + k, so numbers are distinct and at most 127; a retransmission
      codec follows the codec it names; a chosen encoder's index points at the codec of its format. */
  lemma AssignedNumbers(common: CommonFormats)
    ensures WellNumbered(Assigned(common).list, FIRST_DYNAMIC_PAYLOAD_TYPE)
    ensures common.list == [] ==> Assigned(common).list == []
    ensures common.list == [] || common.myEncoderIndex < 0 ==> Assigned(common).myEncoderIndex == -1
    ensures var r := Assigned(common);
            r.myEncoderIndex >= 0 && common.myEncoderIndex < |common.list| ==>
              && 0 <= common.myEncoderIndex && r.myEncoderIndex < |r.list|
              && r.list[r.myEncoderIndex] == Main(FIRST_DYNAMIC_PAYLOAD_TYPE + r.myEncoderIndex, common.list[common.myEncoderIndex])
  {
    var formats := WithDefaults(common.list);
    NumberingIsGood(formats, FIRST_DYNAMIC_PAYLOAD_TYPE);
    CodecIndexPoints(formats, FIRST_DYNAMIC_PAYLOAD_TYPE, common.myEncoderIndex);
  }

  /** How many payload numbers the formats take: two each, but one for an error correction. */
  function Slots(formats: seq<VideoFormat>): nat {
    if formats == [] then 0 else (if IsFec(formats[0]) then 1 else 2) + Slots(formats[1..])
  }

  lemma {:induction false} CodecIndexIs(formats: seq<VideoFormat>, payload: int, index: nat)
    requires index < |formats| && FIRST_DYNAMIC_PAYLOAD_TYPE <= payload <= LAST_DYNAMIC_PAYLOAD_TYPE
    ensures CodecIndex(formats, payload, index)
         == if payload + Slots(formats[..index]) <= LAST_DYNAMIC_PAYLOAD_TYPE
            then payload - FIRST_DYNAMIC_PAYLOAD_TYPE + Slots(formats[..index]) else -1
    decreases |formats|
  {
    hide IsFec;
    if index > 0 {
      var next := if IsFec(formats[0]) then payload + 1 else payload + 2;
      assert formats[..index][0] == formats[0] && formats[..index][1..] == formats[1..][..index - 1];
      if next <= LAST_DYNAMIC_PAYLOAD_TYPE {
        CodecIndexIs(formats[1..], next, index - 1);
      }
    }
  }

  lemma {:induction false} SlotsDouble(formats: seq<VideoFormat>)
    requires forall i | 0 <= i < |formats| :: !IsFec(formats[i])
    ensures Slots(formats) == 2 * |formats|
  {
    hide IsFec;
    if formats != [] {
      SlotsDouble(formats[1..]);
    }
  }

  lemma NumberedFirst(formats: seq<VideoFormat>, payload: int)
    requires formats != [] && payload <= LAST_DYNAMIC_PAYLOAD_TYPE
    ensures var list := NumberedFrom(formats, payload);
            && list != [] && list[0] == Main(payload, formats[0])
            && (!IsFec(formats[0]) ==>
                  (|list| > 1 <==> payload < LAST_DYNAMIC_PAYLOAD_TYPE)
                  && (|list| > 1 ==> list[1] == Rtx(payload + 1, payload)))
            && (var next := if IsFec(formats[0]) then payload + 1 else payload + 2;
                if next <= LAST_DYNAMIC_PAYLOAD_TYPE then list[next - payload..] == NumberedFrom(formats[1..], next)
                else |list| == LAST_DYNAMIC_PAYLOAD_TYPE + 1 - payload)
  {
    hide IsFec;
  }

  /** Where the codec of a format is, if it has one, and that its retransmission follows. */
  lemma {:induction false} NumberedAt(formats: seq<VideoFormat>, payload: int, index: nat)
    requires payload <= LAST_DYNAMIC_PAYLOAD_TYPE && index < |formats|
    ensures var list, at := NumberedFrom(formats, payload), Slots(formats[..index]);
            && (payload + at <= LAST_DYNAMIC_PAYLOAD_TYPE ==>
                  at < |list| && list[at] == Main(payload + at, formats[index]))
            && (payload + at < LAST_DYNAMIC_PAYLOAD_TYPE && !IsFec(formats[index]) ==>
                  at + 1 < |list| && list[at + 1] == Rtx(payload + at + 1, payload + at))
    decreases |formats|
  {
    hide IsFec, NumberedFrom;
    NumberedFirst(formats, payload);
    if index > 0 {
      var next := if IsFec(formats[0]) then payload + 1 else payload + 2;
      assert formats[..index][0] == formats[0] && formats[..index][1..] == formats[1..][..index - 1];
      if next <= LAST_DYNAMIC_PAYLOAD_TYPE {
        NumberedAt(formats[1..], next, index - 1);
        var list := NumberedFrom(formats, payload);
        assert forall k | next - payload <= k < |list| :: list[k] == list[next - payload..][k - (next - payload)];
      }
    }
  }

  /** Every format in common, and red, ulpfec and flexfec behind them, has a codec exactly when the formats in
      front leave one of the 32 numbers, with its retransmission behind it unless it is an error correction
      or the last number is taken. */
  lemma EveryFormatHasCodecIff(common: CommonFormats, index: nat)
    requires common.list != [] && index < |common.list| + 3
    ensures var formats, list := WithDefaults(common.list), Assigned(common).list;
            var at := Slots(formats[..index]);
            && (index < |common.list| ==> formats[index] == common.list[index])
            && (index == |common.list| ==> formats[index].name == RED && !IsFec(formats[index]))
            && (index == |common.list| + 1 ==> formats[index].name == ULPFEC && IsFec(formats[index]))
            && (index == |common.list| + 2 ==> formats[index].name == FLEXFEC && IsFec(formats[index])
                                               && formats[index].parameters == [(REPAIR_WINDOW, TEN_SECONDS)])
            && |formats| == |common.list| + 3
            && (at < 32 <==> at < |list| && list[at] == Main(96 + at, formats[index]))
            && (at < 31 && !IsFec(formats[index]) ==> at + 1 < |list| && list[at + 1] == Rtx(97 + at, 96 + at))
  {
    var formats := WithDefaults(common.list);
    NumberedAt(formats, FIRST_DYNAMIC_PAYLOAD_TYPE, index);
    NumberingIsGood(formats, FIRST_DYNAMIC_PAYLOAD_TYPE);
  }

  /** The chosen encoder gets a codec exactly when the formats in front of it leave one of the 32 payload
      numbers for it; when none of those is an error correction, when it is one of the first 16. */
  lemma EncoderHasCodecIff(common: CommonFormats)
    requires 0 <= common.myEncoderIndex < |common.list|
    ensures var taken := Slots(common.list[..common.myEncoderIndex]);
            && Assigned(common).myEncoderIndex == (if taken < 32 then taken else -1)
            && ((forall i | 0 <= i < common.myEncoderIndex :: !IsFec(common.list[i])) ==> taken == 2 * common.myEncoderIndex)
  {
    var formats, index := WithDefaults(common.list), common.myEncoderIndex;
    assert formats[..index] == common.list[..index];
    CodecIndexIs(formats, FIRST_DYNAMIC_PAYLOAD_TYPE, index);
    if forall i | 0 <= i < index :: !IsFec(common.list[i]) {
      SlotsDouble(common.list[..index]);
    }
  }

  // --- Both peers

  /** The message as the other peer reads it from the bytes. */
  function AsReceived(m: Message): Message
    requires ReadMessage(MessageBytes(m, false), false).Parsed?
  {
    ReadMessage(MessageBytes(m, false), false).value
  }

  lemma PlainMessageTravels(m: Message)
    requires PlainFormats(m) && Sendable(m, false)
    ensures ReadMessage(MessageBytes(m, false), false).Parsed? && AsReceived(m) == m
  {
    hide ReadMessage, MessageBytes, Sendable;
    MessageRoundTrip(m, []);
    assert MessageBytes(m, false) + [] == MessageBytes(m, false);
    OnWireIsLosslessIff(m);
  }

  /** Two peers that each composed its formats, swapped them as bytes and computed on its own, with
      whatever order std::sort leaves among equals: identical codec lists, identical payload numbers. */
  lemma PeersAgreeOnCodecs(
      same: SameCodec, a: Message, b: Message,
      encodersA: seq<VideoFormat>, decodersA: seq<VideoFormat>, preferredA: seq<seq<byte>>, supportedA: seq<seq<byte>>,
      encodersB: seq<VideoFormat>, decodersB: seq<VideoFormat>, preferredB: seq<seq<byte>>, supportedB: seq<seq<byte>>,
      atA: CommonFormats, atB: CommonFormats)
    requires IsComposed(a, encodersA, decodersA, preferredA, supportedA) && Sendable(a, false)
    requires IsComposed(b, encodersB, decodersB, preferredB, supportedB) && Sendable(b, false)
    requires ReadMessage(MessageBytes(a, false), false).Parsed? && ReadMessage(MessageBytes(b, false), false).Parsed?
    requires ValidFormats(AsReceived(b)) && IsCommon(same, a, AsReceived(b), atA)
    requires ValidFormats(AsReceived(a)) && IsCommon(same, b, AsReceived(a), atB)
    ensures atA.list == atB.list
    ensures Assigned(atA).list == Assigned(atB).list
  {
    ComposedFormats(a, encodersA, decodersA, preferredA, supportedA);
    ComposedFormats(b, encodersB, decodersB, preferredB, supportedB);
    hide IsComposed, IsCommon, NumberedFrom, ReadMessage, MessageBytes, Sendable;
    PlainMessageTravels(a);
    PlainMessageTravels(b);
    BothComputeTheSame(same, a, b, atA, atB);
  }
}
