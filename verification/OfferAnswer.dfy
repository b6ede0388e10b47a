// What an offer lists and what an answer to it settles, for one peer: one media
// section for each id ever seen, in the order they were first seen (sections 6 and 8
// of RFC 3264).
module OfferAnswer {
  import opened Prelude
  import opened Bytes
  import opened Decimal
  import opened Negotiation

  // --- Ids of different kinds never meet

  lemma SsrcIdsDiffer(a: uint32, b: uint32)
    ensures SsrcId(a) == SsrcId(b) <==> a == b
  {
    if SsrcId(a) == SsrcId(b) {
      NumeralIsInjective(a, b);
    }
  }

  lemma ChannelIdsDiffer(a: nat, b: nat)
    ensures ChannelId(a) == ChannelId(b) <==> a == b
  {
    if ChannelId(a) == ChannelId(b) {
      assert ChannelId(a)[1..] == Numeral(a) && ChannelId(b)[1..] == Numeral(b);
      NumeralIsInjective(a, b);
    }
  }

  lemma IdKindsDiffer(ssrc: uint32, n: nat, id: Id)
    ensures SsrcId(ssrc) != ChannelId(n)
    ensures SsrcId(ssrc) != InactiveId(id)
    ensures ChannelId(n) != InactiveId(id)
  {
    assert IsDigit(SsrcId(ssrc)[0]) && ChannelId(n)[0] == 109 && InactiveId(id)[0] == 95;
  }

  // --- What every operation keeps of a peer

  ghost predicate Named(descriptions: seq<PendingChannel>) {
    forall k | 0 <= k < |descriptions| ::
      descriptions[k].description.mid == ChannelId(k) && descriptions[k].description.direction == SendOnly
  }

  /** An id that is no placeholder. */
  predicate ProperId(id: Id) {
    id != [] && id[0] != 95
  }

  ghost predicate Tidy(p: Peer) {
    && p.nextChannelId == |p.descriptions|
    && Named(p.descriptions)
    && NoRepeats(p.order)
    && (forall k | 0 <= k < |p.order| :: ProperId(p.order[k]))
    && (forall k | 0 <= k < |p.outgoing| :: IsChannelId(p.outgoing[k].id))
    && (forall k | 0 <= k < |p.incoming| :: SsrcId(p.incoming[k].ssrc) in p.order)
  }

  predicate IsChannelId(id: Id) {
    id != [] && id[0] == 109
  }

  // --- Offers: one option for each id, in order

  /** Option k is for id k: it has that id, or stands in for it. */
  ghost predicate OnePerId(options: seq<MediaOption>, order: seq<Id>) {
    && |options| == |order|
    && forall k | 0 <= k < |order| :: options[k].mid == order[k] || options[k].mid == InactiveId(order[k])
  }

  lemma OptionMidsDiffer(options: seq<MediaOption>, order: seq<Id>)
    requires OnePerId(options, order) && NoRepeats(order)
    requires forall k | 0 <= k < |order| :: ProperId(order[k])
    ensures forall i, j | 0 <= i < j < |options| :: options[i].mid != options[j].mid
  {
    forall i, j | 0 <= i < j < |options|
      ensures options[i].mid != options[j].mid
    {
      assert InactiveId(order[i])[1..] == order[i] && InactiveId(order[j])[1..] == order[j];
      assert order[i] != order[j];
    }
  }

  lemma {:induction false} SsrcIsNoChannel(descriptions: seq<PendingChannel>, ssrc: uint32)
    requires Named(descriptions)
    ensures FindDescription(descriptions, SsrcId(ssrc)) == |descriptions|
  {
    var d := FindDescription(descriptions, SsrcId(ssrc));
    IdKindsDiffer(ssrc, d, []);
  }

  lemma {:induction false} OneKnownOption(p: Peer, id: Id)
    requires Tidy(p) && ProperId(id)
    ensures |KnownOptions(p, id)| == 1
    ensures KnownOptions(p, id)[0].mid == id || KnownOptions(p, id)[0].mid == InactiveId(id)
    ensures FindDescription(p.descriptions, id) < |p.descriptions| ==>
              KnownOptions(p, id) == [p.descriptions[FindDescription(p.descriptions, id)].description]
    ensures KnownOptions(p, id)[0].direction == SendOnly ==> FindDescription(p.descriptions, id) < |p.descriptions|
  {
    var d, i := FindDescription(p.descriptions, id), FindContent(p.incoming, id);
    if i < |p.incoming| {
      SsrcIsNoChannel(p.descriptions, p.incoming[i].ssrc);
    }
  }

  /** The option for a channel's id is the one it was added with, and nothing else sends. */
  ghost predicate OffersChannels(e: Extended, descriptions: seq<PendingChannel>) {
    forall k | 0 <= k < |e.options| ::
      && (e.options[k].direction == SendOnly ==>
            exists d | 0 <= d < |descriptions| :: e.options[k] == descriptions[d].description)
      && (forall d | 0 <= d < |descriptions| && k < |e.order| && e.order[k] == descriptions[d].description.mid ::
            e.options[k] == descriptions[d].description)
  }

  /** What holds while the options of an offer are collected. */
  ghost predicate Listed(p: Peer, e: Extended) {
    && OnePerId(e.options, e.order)
    && NoRepeats(e.order)
    && (forall k | 0 <= k < |e.order| :: ProperId(e.order[k]))
    && OffersChannels(e, p.descriptions)
    && p.order <= e.order
  }

  lemma {:induction false} DescriptionIsFound(descriptions: seq<PendingChannel>, d: nat)
    requires Named(descriptions) && d < |descriptions|
    ensures FindDescription(descriptions, descriptions[d].description.mid) == d
  {
    var i := FindDescription(descriptions, descriptions[d].description.mid);
    ChannelIdsDiffer(i, d);
    assert i <= d;
  }

  lemma OptionForChannel(p: Peer, id: Id, d: nat)
    requires Tidy(p) && ProperId(id) && d < |p.descriptions| && id == p.descriptions[d].description.mid
    ensures KnownOptions(p, id) == [p.descriptions[d].description]
  {
    OneKnownOption(p, id);
    DescriptionIsFound(p.descriptions, d);
  }

  lemma {:induction false} KnownOptionsListed(p: Peer, k: nat)
    requires Tidy(p) && k <= |p.order|
    ensures OnePerId(AllKnownOptions(p, p.order[k..]), p.order[k..])
    ensures OffersChannels(Extended(p.order[k..], AllKnownOptions(p, p.order[k..])), p.descriptions)
    decreases |p.order| - k
  {
    hide KnownOptions;
    if k < |p.order| {
      var id, rest := p.order[k], p.order[k + 1..];
      assert p.order[k..][1..] == rest;
      KnownOptionsListed(p, k + 1);
      OneKnownOption(p, id);
      var options := AllKnownOptions(p, p.order[k..]);
      assert options == [KnownOptions(p, id)[0]] + AllKnownOptions(p, rest);
      forall j, d | 0 <= j < |options| && 0 <= d < |p.descriptions| && p.order[k..][j] == p.descriptions[d].description.mid
        ensures options[j] == p.descriptions[d].description
      {
        if j == 0 {
          OptionForChannel(p, id, d);
        } else {
          assert rest[j - 1] == p.descriptions[d].description.mid;
        }
      }
      forall j | 0 <= j < |options| && options[j].direction == SendOnly
        ensures exists d | 0 <= d < |p.descriptions| :: options[j] == p.descriptions[d].description
      {
        if j > 0 {
          assert options[j] == AllKnownOptions(p, rest)[j - 1];
        }
      }
    }
  }

  lemma AddOptionListed(p: Peer, e: Extended, option: MediaOption)
    requires Listed(p, e) && ProperId(option.mid)
    requires option.direction == SendOnly ==> exists d | 0 <= d < |p.descriptions| :: option == p.descriptions[d].description
    requires forall d | 0 <= d < |p.descriptions| && p.descriptions[d].description.mid == option.mid ::
               option == p.descriptions[d].description
    ensures Listed(p, AddOption(e, option)) && e.order <= AddOption(e, option).order
    ensures option.mid in AddOption(e, option).order
  {
    var next := AddOption(e, option);
    if option.mid !in e.order {
      assert next.order[|e.order|] == option.mid;
      assert forall k | 0 <= k < |e.order| :: next.order[k] == e.order[k] && next.options[k] == e.options[k];
    }
  }

  lemma {:induction false} AddIncomingListed(p: Peer, e: Extended, incoming: seq<MediaContent>)
    requires Listed(p, e) && Named(p.descriptions)
    ensures Listed(p, AddIncoming(e, incoming)) && e.order <= AddIncoming(e, incoming).order
    decreases |incoming|
  {
    hide Listed, AddOption;
    if incoming != [] {
      var option := IncomingOption(incoming[0]);
      assert IsDigit(option.mid[0]);
      forall d | 0 <= d < |p.descriptions|
        ensures p.descriptions[d].description.mid != option.mid
      {
        IdKindsDiffer(incoming[0].ssrc, d, []);
      }
      AddOptionListed(p, e, option);
      AddIncomingListed(p, AddOption(e, option), incoming[1..]);
    }
  }

  lemma {:induction false} AddChannelsListed(p: Peer, e: Extended, k: nat)
    requires Listed(p, e) && Named(p.descriptions) && k <= |p.descriptions|
    requires forall d | 0 <= d < k :: p.descriptions[d].description.mid in e.order
    ensures var r := AddChannels(e, p.descriptions[k..], p.incoming);
            && Listed(p, r)
            && forall d | 0 <= d < |p.descriptions| :: p.descriptions[d].description.mid in r.order
    decreases |p.descriptions| - k
  {
    hide Listed, AddOption, AddIncoming;
    if k < |p.descriptions| {
      var option := p.descriptions[k].description;
      assert p.descriptions[k..][1..] == p.descriptions[k + 1..];
      forall d | 0 <= d < |p.descriptions| && p.descriptions[d].description.mid == option.mid
        ensures option == p.descriptions[d].description
      {
        ChannelIdsDiffer(d, k);
      }
      AddOptionListed(p, e, option);
      var added := AddOption(e, option);
      AddIncomingListed(p, added, p.incoming);
      var next := AddIncoming(added, p.incoming);
      PrefixKeeps(e.order, added.order, next.order);
      AddChannelsListed(p, next, k + 1);
    }
  }

  lemma PrefixKeeps(a: seq<Id>, b: seq<Id>, c: seq<Id>)
    requires a <= b <= c
    ensures a <= c
    ensures forall id | id in a :: id in b
    ensures forall id | id in b :: id in c
  {
  }

  /** The options of an offer: one for each id ever seen, in the order they were first seen; each
      channel is there with the options it was added with, and only channels send. */
  lemma OfferListsEveryId(p: Peer)
    requires Tidy(p)
    ensures Listed(p, OfferOptions(p))
    ensures forall d | 0 <= d < |p.descriptions| :: p.descriptions[d].description.mid in OfferOptions(p).order
    ensures var options := OfferOptions(p).options;
            forall i, j | 0 <= i < j < |options| :: options[i].mid != options[j].mid
  {
    hide AddChannels;
    KnownOptionsListed(p, 0);
    assert p.order[0..] == p.order && p.descriptions[0..] == p.descriptions;
    AddChannelsListed(p, Extended(p.order, AllKnownOptions(p, p.order)), 0);
    OptionMidsDiffer(OfferOptions(p).options, OfferOptions(p).order);
  }

  // --- Answers: the rebuilt offer and the options go together

  lemma {:induction false} KnownLinesMatch(p: Peer, contents: seq<MediaContent>, order: seq<Id>)
    ensures SameMids(KnownLines(p, contents, order).offer, KnownLines(p, contents, order).options)
    decreases |order|
  {
    hide FindContent, FindOutgoing;
    if order != [] {
      KnownLinesMatch(p, contents, order[1..]);
    }
  }

  lemma {:induction false} AddOfferedMatch(g: Grown, contents: seq<MediaContent>)
    requires SameMids(g.lines.offer, g.lines.options)
    ensures SameMids(AddOffered(g, contents).lines.offer, AddOffered(g, contents).lines.options)
    ensures g.order <= AddOffered(g, contents).order
    decreases |contents|
  {
    if contents != [] {
      var id := SsrcId(contents[0].ssrc);
      AddOfferedMatch(if id in g.order then g else Grown(g.order + [id], Join(g.lines, OfferedLine(contents[0]))), contents[1..]);
    }
  }

  /** The rebuilt offer and the options of the answer list the same mids position by position. */
  lemma AnswerFollowsOffer(p: Peer, contents: seq<MediaContent>)
    ensures var lines := RebuildOffer(p, contents).lines; SameMids(lines.offer, lines.options)
    ensures p.order <= RebuildOffer(p, contents).order
  {
    KnownLinesMatch(p, contents, p.order);
    AddOfferedMatch(Grown(p.order, KnownLines(p, contents, p.order)), contents);
  }

  /** The ids that sections are to be received for. */
  ghost predicate ReceivesOffered(options: seq<MediaOption>, order: seq<Id>, contents: seq<MediaContent>) {
    && OnePerId(options, order)
    && forall k | 0 <= k < |options| ::
         && (options[k].direction == RecvOnly <==> Offered(contents, order[k]))
         && (options[k].direction == RecvOnly ==> options[k].mid == order[k])
  }

  ghost predicate Offered(contents: seq<MediaContent>, id: Id) {
    exists c | 0 <= c < |contents| :: SsrcId(contents[c].ssrc) == id
  }

  lemma OneKnownLine(p: Peer, contents: seq<MediaContent>, id: Id)
    requires Tidy(p)
    ensures var options := KnownLine(p, contents, id).options;
            && |options| == 1
            && (options[0].mid == id || options[0].mid == InactiveId(id))
            && (options[0].direction == RecvOnly <==> Offered(contents, id))
            && (options[0].direction == RecvOnly ==> options[0].mid == id)
  {
    var o, i := FindOutgoing(p.outgoing, id), FindContent(contents, id);
    assert i == |contents| ==> !Offered(contents, id);
    if o < |p.outgoing| {
      assert IsChannelId(id);
      assert forall c | 0 <= c < |contents| :: IsDigit(SsrcId(contents[c].ssrc)[0]);
      assert !Offered(contents, id);
    }
  }

  lemma {:induction false} KnownLinesReceive(p: Peer, contents: seq<MediaContent>, order: seq<Id>)
    requires Tidy(p)
    ensures ReceivesOffered(KnownLines(p, contents, order).options, order, contents)
    decreases |order|
  {
    hide KnownLine, Tidy;
    if order != [] {
      KnownLinesReceive(p, contents, order[1..]);
      OneKnownLine(p, contents, order[0]);
    }
  }

  lemma {:induction false} AddOfferedReceives(g: Grown, contents: seq<MediaContent>, k: nat)
    requires k <= |contents|
    requires ReceivesOffered(g.lines.options, g.order, contents) && NoRepeats(g.order)
    requires forall i | 0 <= i < |g.order| :: ProperId(g.order[i])
    requires forall c | 0 <= c < k :: SsrcId(contents[c].ssrc) in g.order
    ensures var r := AddOffered(g, contents[k..]);
            && ReceivesOffered(r.lines.options, r.order, contents) && NoRepeats(r.order)
            && (forall i | 0 <= i < |r.order| :: ProperId(r.order[i]))
            && (forall c | 0 <= c < |contents| :: SsrcId(contents[c].ssrc) in r.order)
    decreases |contents| - k
  {
    if k < |contents| {
      var id := SsrcId(contents[k].ssrc);
      assert contents[k..][1..] == contents[k + 1..];
      if id in g.order {
        AddOfferedReceives(g, contents, k + 1);
      } else {
        var next := Grown(g.order + [id], Join(g.lines, OfferedLine(contents[k])));
        assert IsDigit(id[0]) && next.order[|g.order|] == id;
        assert Offered(contents, id);
        AddOfferedReceives(next, contents, k + 1);
      }
    }
  }

  /** The answer's options: one for each id, and those to receive are exactly the offered ids. */
  lemma AnswerReceivesOffered(p: Peer, contents: seq<MediaContent>)
    requires Tidy(p)
    ensures var g := RebuildOffer(p, contents);
            && ReceivesOffered(g.lines.options, g.order, contents) && NoRepeats(g.order)
            && (forall i | 0 <= i < |g.order| :: ProperId(g.order[i]))
            && (forall c | 0 <= c < |contents| :: SsrcId(contents[c].ssrc) in g.order)
  {
    KnownLinesReceive(p, contents, p.order);
    assert contents[0..] == contents;
    AddOfferedReceives(Grown(p.order, KnownLines(p, contents, p.order)), contents, 0);
  }

  // --- What stands at each place

  ghost predicate ReceivedAs(contents: seq<MediaContent>, id: Id, c: MediaContent) {
    c in contents && SsrcId(c.ssrc) == id
  }

  ghost predicate SentAs(outgoing: seq<OutgoingChannel>, id: Id, o: OutgoingChannel) {
    o in outgoing && o.id == id
  }

  ghost predicate AddedAs(descriptions: seq<PendingChannel>, id: Id, d: PendingChannel) {
    d in descriptions && d.description.mid == id
  }

  /** The option of an offer for an id: as the channel was added, or to receive the content as it was agreed on,
      or a placeholder when the id is neither. */
  ghost predicate OfferOptionIs(p: Peer, id: Id, option: MediaOption) {
    if exists d :: AddedAs(p.descriptions, id, d) then exists d :: AddedAs(p.descriptions, id, d) && option == d.description
    else if exists c :: ReceivedAs(p.incoming, id, c) then
      exists c :: ReceivedAs(p.incoming, id, c) && option == MediaOption(c.kind, id, RecvOnly, c.extensions)
    else option == MediaOption(Audio, InactiveId(id), Inactive, [])
  }

  ghost predicate OfferOptionsAre(p: Peer, order: seq<Id>, options: seq<MediaOption>) {
    |options| == |order| && forall k | 0 <= k < |order| :: OfferOptionIs(p, order[k], options[k])
  }

  lemma {:induction false} FindDescriptionFinds(descriptions: seq<PendingChannel>, id: Id)
    ensures FindDescription(descriptions, id) < |descriptions| <==> exists d :: AddedAs(descriptions, id, d)
    ensures FindDescription(descriptions, id) < |descriptions| ==>
              AddedAs(descriptions, id, descriptions[FindDescription(descriptions, id)])
  {
    var k := FindDescription(descriptions, id);
    if k < |descriptions| {
      assert AddedAs(descriptions, id, descriptions[k]);
    }
    if x :| AddedAs(descriptions, id, x) {
      var j :| 0 <= j < |descriptions| && descriptions[j] == x;
    }
  }

  lemma {:induction false} FindContentFinds(contents: seq<MediaContent>, id: Id)
    ensures FindContent(contents, id) < |contents| <==> exists c :: ReceivedAs(contents, id, c)
    ensures FindContent(contents, id) < |contents| ==> ReceivedAs(contents, id, contents[FindContent(contents, id)])
  {
    var k := FindContent(contents, id);
    if k < |contents| {
      assert ReceivedAs(contents, id, contents[k]);
    }
    if x :| ReceivedAs(contents, id, x) {
      var j :| 0 <= j < |contents| && contents[j] == x;
    }
  }

  lemma {:induction false} FindOutgoingFinds(outgoing: seq<OutgoingChannel>, id: Id)
    ensures FindOutgoing(outgoing, id) < |outgoing| <==> exists o :: SentAs(outgoing, id, o)
    ensures FindOutgoing(outgoing, id) < |outgoing| ==> SentAs(outgoing, id, outgoing[FindOutgoing(outgoing, id)])
  {
    var k := FindOutgoing(outgoing, id);
    if k < |outgoing| {
      assert SentAs(outgoing, id, outgoing[k]);
    }
    if x :| SentAs(outgoing, id, x) {
      var j :| 0 <= j < |outgoing| && outgoing[j] == x;
    }
  }

  lemma KnownOptionIs(p: Peer, id: Id)
    requires Tidy(p) && ProperId(id)
    ensures |KnownOptions(p, id)| == 1 && OfferOptionIs(p, id, KnownOptions(p, id)[0])
  {
    OneKnownOption(p, id);
    FindDescriptionFinds(p.descriptions, id);
    FindContentFinds(p.incoming, id);
    hide AddedAs, ReceivedAs, Tidy, FindDescription, FindContent;
  }

  lemma {:induction false} KnownOptionsAre(p: Peer, order: seq<Id>)
    requires Tidy(p) && forall k | 0 <= k < |order| :: ProperId(order[k])
    ensures OfferOptionsAre(p, order, AllKnownOptions(p, order))
    decreases |order|
  {
    hide KnownOptions, OfferOptionIs, Tidy, ProperId;
    if order != [] {
      KnownOptionIs(p, order[0]);
      KnownOptionsAre(p, order[1..]);
      var options, rest := AllKnownOptions(p, order), AllKnownOptions(p, order[1..]);
      assert options == [KnownOptions(p, order[0])[0]] + rest;
      forall k | 0 <= k < |order|
        ensures OfferOptionIs(p, order[k], options[k])
      {
        assert k > 0 ==> order[k] == order[1..][k - 1] && options[k] == rest[k - 1];
      }
    }
  }

  lemma AddOptionIs(p: Peer, e: Extended, option: MediaOption)
    requires OfferOptionsAre(p, e.order, e.options) && OfferOptionIs(p, option.mid, option)
    ensures OfferOptionsAre(p, AddOption(e, option).order, AddOption(e, option).options)
  {
    hide OfferOptionIs;
  }

  lemma ChannelOptionIs(p: Peer, d: nat)
    requires Tidy(p) && d < |p.descriptions|
    ensures OfferOptionIs(p, p.descriptions[d].description.mid, p.descriptions[d].description)
  {
    assert AddedAs(p.descriptions, p.descriptions[d].description.mid, p.descriptions[d]);
  }

  lemma IncomingOptionIs(p: Peer, c: nat)
    requires Tidy(p) && c < |p.incoming|
    requires forall i | 0 <= i < |p.incoming| && p.incoming[i].ssrc == p.incoming[c].ssrc :: p.incoming[i] == p.incoming[c]
    ensures OfferOptionIs(p, SsrcId(p.incoming[c].ssrc), IncomingOption(p.incoming[c]))
  {
    var id := SsrcId(p.incoming[c].ssrc);
    assert ReceivedAs(p.incoming, id, p.incoming[c]);
    SsrcIsNoChannel(p.descriptions, p.incoming[c].ssrc);
    FindDescriptionFinds(p.descriptions, id);
  }

  ghost predicate OneContentEach(contents: seq<MediaContent>) {
    forall i, j | 0 <= i < |contents| && 0 <= j < |contents| && contents[i].ssrc == contents[j].ssrc ::
      contents[i] == contents[j]
  }

  lemma {:induction false} AddIncomingAre(p: Peer, e: Extended, k: nat)
    requires Tidy(p) && OneContentEach(p.incoming) && k <= |p.incoming| && OfferOptionsAre(p, e.order, e.options)
    ensures var r := AddIncoming(e, p.incoming[k..]); OfferOptionsAre(p, r.order, r.options)
    decreases |p.incoming| - k
  {
    hide OfferOptionIs, OfferOptionsAre, AddOption, Tidy;
    if k < |p.incoming| {
      assert p.incoming[k..][1..] == p.incoming[k + 1..];
      IncomingOptionIs(p, k);
      AddOptionIs(p, e, IncomingOption(p.incoming[k]));
      AddIncomingAre(p, AddOption(e, IncomingOption(p.incoming[k])), k + 1);
    }
  }

  lemma {:induction false} AddChannelsAre(p: Peer, e: Extended, k: nat)
    requires Tidy(p) && OneContentEach(p.incoming) && k <= |p.descriptions| && OfferOptionsAre(p, e.order, e.options)
    ensures var r := AddChannels(e, p.descriptions[k..], p.incoming); OfferOptionsAre(p, r.order, r.options)
    decreases |p.descriptions| - k
  {
    hide OfferOptionIs, OfferOptionsAre, AddOption, AddIncoming, Tidy, OneContentEach;
    if k < |p.descriptions| {
      assert p.descriptions[k..][1..] == p.descriptions[k + 1..];
      ChannelOptionIs(p, k);
      AddOptionIs(p, e, p.descriptions[k].description);
      assert p.incoming[0..] == p.incoming;
      var added := AddOption(e, p.descriptions[k].description);
      AddIncomingAre(p, added, 0);
      AddChannelsAre(p, AddIncoming(added, p.incoming), k + 1);
    }
  }

  /** The options of an offer, place by place. */
  lemma OfferOptionsByPlace(p: Peer)
    requires Tidy(p) && OneContentEach(p.incoming)
    ensures OfferOptionsAre(p, OfferOptions(p).order, OfferOptions(p).options)
  {
    KnownOptionsAre(p, p.order);
    assert p.descriptions[0..] == p.descriptions;
    AddChannelsAre(p, Extended(p.order, AllKnownOptions(p, p.order)), 0);
  }

  // The current description

  /** The section for an id: what is received there, what is sent, or a placeholder. */
  ghost predicate CurrentSectionIs(p: Peer, id: Id, section: Section) {
    if exists c :: ReceivedAs(p.incoming, id, c) then
      exists c :: ReceivedAs(p.incoming, id, c) && section == Section(id, RecvOnly, c)
    else if exists o :: SentAs(p.outgoing, id, o) then
      exists o :: SentAs(p.outgoing, id, o) && section == Section(id, SendOnly, o.content)
    else section == Section(InactiveId(id), Inactive, MediaContent(Audio, 0, [], [], []))
  }

  lemma {:induction false} NotBoth(p: Peer, contents: seq<MediaContent>, id: Id)
    requires Tidy(p)
    ensures FindContent(contents, id) == |contents| || FindOutgoing(p.outgoing, id) == |p.outgoing|
  {
    var i, o := FindContent(contents, id), FindOutgoing(p.outgoing, id);
    assert i < |contents| ==> IsDigit(SsrcId(contents[i].ssrc)[0]);
    assert o < |p.outgoing| ==> IsChannelId(p.outgoing[o].id);
  }

  lemma OneCurrentSection(p: Peer, id: Id)
    requires Tidy(p)
    ensures |CurrentSections(p, id)| == 1 && CurrentSectionIs(p, id, CurrentSections(p, id)[0])
  {
    FindContentFinds(p.incoming, id);
    FindOutgoingFinds(p.outgoing, id);
    NotBoth(p, p.incoming, id);
  }

  /** The current description has one section for each id, in order. */
  lemma {:induction false} CurrentDescriptionByPlace(p: Peer, order: seq<Id>)
    requires Tidy(p)
    ensures var current := CurrentDescription(p, order);
            && |current| == |order|
            && forall k | 0 <= k < |order| :: CurrentSectionIs(p, order[k], current[k])
    decreases |order|
  {
    hide CurrentSections, CurrentSectionIs, Tidy;
    if order != [] {
      OneCurrentSection(p, order[0]);
      CurrentDescriptionByPlace(p, order[1..]);
      var rest := CurrentDescription(p, order[1..]);
      assert CurrentDescription(p, order) == [CurrentSections(p, order[0])[0]] + rest;
    }
  }

  // The rebuilt offer and the options of the answer

  /** The section and the option for an id: an offered content, sent there and received here as it was offered; an
      own channel, received there and sent here as agreed; or a placeholder. */
  ghost predicate AnswerLineIs(p: Peer, contents: seq<MediaContent>, id: Id, section: Section, option: MediaOption) {
    if exists c :: ReceivedAs(contents, id, c) then
      exists c :: ReceivedAs(contents, id, c)
                  && section == Section(id, SendOnly, c) && option == MediaOption(c.kind, id, RecvOnly, c.extensions)
    else if exists o :: SentAs(p.outgoing, id, o) then
      exists o :: SentAs(p.outgoing, id, o)
                  && section == Section(id, RecvOnly, o.content)
                  && option == MediaOption(o.content.kind, id, SendOnly, o.content.extensions)
    else
      && section == Section(InactiveId(id), Inactive, MediaContent(Audio, 0, [], [], []))
      && option == MediaOption(Audio, InactiveId(id), Inactive, [])
  }

  ghost predicate AnswerLinesAre(p: Peer, contents: seq<MediaContent>, order: seq<Id>, lines: Rebuilt) {
    && |lines.offer| == |lines.options| == |order|
    && forall k | 0 <= k < |order| :: AnswerLineIs(p, contents, order[k], lines.offer[k], lines.options[k])
  }

  lemma KnownLineIs(p: Peer, contents: seq<MediaContent>, id: Id)
    requires Tidy(p)
    ensures var line := KnownLine(p, contents, id);
            |line.offer| == |line.options| == 1 && AnswerLineIs(p, contents, id, line.offer[0], line.options[0])
  {
    FindContentFinds(contents, id);
    FindOutgoingFinds(p.outgoing, id);
    NotBoth(p, contents, id);
  }

  lemma JoinLines(p: Peer, contents: seq<MediaContent>, a: seq<Id>, x: Rebuilt, b: seq<Id>, y: Rebuilt)
    requires AnswerLinesAre(p, contents, a, x) && AnswerLinesAre(p, contents, b, y)
    ensures AnswerLinesAre(p, contents, a + b, Join(x, y))
  {
    hide AnswerLineIs;
    var order, lines := a + b, Join(x, y);
    forall k | 0 <= k < |order|
      ensures AnswerLineIs(p, contents, order[k], lines.offer[k], lines.options[k])
    {
      if k >= |a| {
        assert order[k] == b[k - |a|] && lines.offer[k] == y.offer[k - |a|] && lines.options[k] == y.options[k - |a|];
      }
    }
  }

  lemma {:induction false} KnownLinesAre(p: Peer, contents: seq<MediaContent>, order: seq<Id>)
    requires Tidy(p)
    ensures AnswerLinesAre(p, contents, order, KnownLines(p, contents, order))
    decreases |order|
  {
    hide KnownLine, AnswerLineIs, Tidy, Join;
    if order != [] {
      KnownLineIs(p, contents, order[0]);
      KnownLinesAre(p, contents, order[1..]);
      JoinLines(p, contents, [order[0]], KnownLine(p, contents, order[0]), order[1..], KnownLines(p, contents, order[1..]));
      assert [order[0]] + order[1..] == order;
    }
  }

  lemma OfferedLineIs(p: Peer, contents: seq<MediaContent>, k: nat)
    requires k < |contents|
    ensures AnswerLinesAre(p, contents, [SsrcId(contents[k].ssrc)], OfferedLine(contents[k]))
  {
    var id := SsrcId(contents[k].ssrc);
    assert ReceivedAs(contents, id, contents[k]);
  }

  lemma {:induction false} AddOfferedAre(p: Peer, g: Grown, contents: seq<MediaContent>, k: nat)
    requires k <= |contents| && AnswerLinesAre(p, contents, g.order, g.lines)
    ensures var r := AddOffered(g, contents[k..]); AnswerLinesAre(p, contents, r.order, r.lines)
    decreases |contents| - k
  {
    hide AnswerLinesAre, OfferedLine, Join;
    if k < |contents| {
      var id := SsrcId(contents[k].ssrc);
      assert contents[k..][1..] == contents[k + 1..];
      OfferedLineIs(p, contents, k);
      JoinLines(p, contents, g.order, g.lines, [id], OfferedLine(contents[k]));
      AddOfferedAre(p, if id in g.order then g else Grown(g.order + [id], Join(g.lines, OfferedLine(contents[k]))), contents, k + 1);
    }
  }

  /** The rebuilt offer and the options of the answer, place by place. */
  lemma AnswerLinesByPlace(p: Peer, contents: seq<MediaContent>)
    requires Tidy(p)
    ensures AnswerLinesAre(p, contents, RebuildOffer(p, contents).order, RebuildOffer(p, contents).lines)
  {
    KnownLinesAre(p, contents, p.order);
    assert contents[0..] == contents;
    AddOfferedAre(p, Grown(p.order, KnownLines(p, contents, p.order)), contents, 0);
  }

  // --- What both sides say they send

  ghost predicate IsAdded(p: Peer, o: OutgoingChannel) {
    exists d :: AddedAs(p.descriptions, o.id, d)
  }

  ghost predicate SentFor(p: Peer, outgoing: seq<OutgoingChannel>, c: MediaContent) {
    exists o :: o in outgoing && o.content == c && IsAdded(p, o)
  }

  lemma SentForStep(p: Peer, outgoing: seq<OutgoingChannel>, c: MediaContent)
    requires outgoing != []
    ensures SentFor(p, outgoing, c)
       <==> (outgoing[0].content == c && IsAdded(p, outgoing[0])) || SentFor(p, outgoing[1..], c)
  {
    hide IsAdded;
    assert outgoing == [outgoing[0]] + outgoing[1..];
    if o :| o in outgoing[1..] && o.content == c && IsAdded(p, o) {
      assert o in outgoing;
    }
  }

  /** The contents of exactly the agreed channels that were added here. */
  lemma {:induction false} DescribedAreSent(p: Peer, outgoing: seq<OutgoingChannel>, c: MediaContent)
    ensures c in OutgoingContents(p, outgoing) <==> SentFor(p, outgoing, c)
    decreases |outgoing|
  {
    hide FindDescription, SentFor;
    if outgoing == [] {
      NothingSent(p, c);
    } else {
      DescribedAreSent(p, outgoing[1..], c);
      SentForStep(p, outgoing, c);
      FindDescriptionFinds(p.descriptions, outgoing[0].id);
    }
  }

  lemma NothingSent(p: Peer, c: MediaContent)
    ensures !SentFor(p, [], c)
  {
  }
}
