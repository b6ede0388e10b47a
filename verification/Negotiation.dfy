// Offer and answer as one peer makes them (v2/ContentNegotiation.h,
// v2/ContentNegotiation.cpp): the peer as a value, and what each operation makes
// of it. The session-description factory is a function handed in.
module Negotiation {
  import opened Prelude
  import opened Bytes
  import opened Decimal

  /** The id of a media section. */
  type Id = seq<byte>

  datatype Kind = Audio | Video
  datatype Direction = SendOnly | RecvOnly | Inactive

  /** signaling::MediaContent; what is not looked at here is kept as text. */
  datatype MediaContent = MediaContent(
    kind: Kind, ssrc: uint32, ssrcGroups: seq<byte>, payloadTypes: seq<byte>, extensions: seq<byte>)

  /** cricket::MediaDescriptionOptions */
  datatype MediaOption = MediaOption(kind: Kind, mid: Id, direction: Direction, extensions: seq<byte>)

  /** cricket::ContentInfo, the content as signaling carries it. */
  datatype Section = Section(mid: Id, direction: Direction, content: MediaContent)

  /** NegotiationContents: an offer or an answer, nothing in it says which. */
  datatype Contents = Contents(exchangeId: uint32, contents: seq<MediaContent>)

  datatype PendingChannel = PendingChannel(description: MediaOption, ssrc: uint32)
  datatype OutgoingChannel = OutgoingChannel(id: Id, content: MediaContent)

  datatype Peer = Peer(
    isOutgoing: bool,
    order: seq<Id>,                       // _channelIdOrder
    descriptions: seq<PendingChannel>,    // _outgoingChannelDescriptions
    needNegotiation: bool,
    outgoing: seq<OutgoingChannel>,       // _outgoingChannels
    incoming: seq<MediaContent>,          // _incomingChannels
    pending: Option<uint32>,              // _pendingOutgoingOffer
    nextChannelId: nat)

  function NewPeer(isOutgoing: bool): Peer {
    Peer(isOutgoing, [], [], true, [], [], None, 0)
  }

  // --- Ids

  function SsrcId(ssrc: uint32): Id {
    Numeral(ssrc)
  }

  function ChannelId(n: nat): Id {
    [109] + Numeral(n)  // "m" and the number
  }

  function InactiveId(id: Id): Id {
    [95] + id  // "_" and the id
  }

  // --- The factory

  /** CreateOfferOrError from the options and the current description (empty for none). */
  type OfferFactory = (seq<MediaOption>, seq<Section>) -> Option<seq<Section>>

  /** CreateAnswerOrError from the rebuilt offer, the options and the current description. */
  type AnswerFactory = (seq<Section>, seq<MediaOption>, seq<Section>) -> Option<seq<Section>>

  /** The sections are those of the options: same mids and directions, in order. */
  ghost predicate FollowsOptions(sections: seq<Section>, options: seq<MediaOption>) {
    && |sections| == |options|
    && forall i | 0 <= i < |options| ::
         sections[i].mid == options[i].mid && sections[i].direction == options[i].direction
  }

  ghost predicate SameMids(offer: seq<Section>, options: seq<MediaOption>) {
    && |offer| == |options|
    && forall i | 0 <= i < |offer| :: offer[i].mid == options[i].mid
  }

  /** What is sent has a source number of its own. */
  ghost predicate DistinctSsrcs(contents: seq<MediaContent>) {
    && (forall i | 0 <= i < |contents| :: contents[i].ssrc != 0)
    && (forall i, j | 0 <= i < j < |contents| :: contents[i].ssrc != contents[j].ssrc)
  }

  // --- Channels

  function AddOutgoingChannel(p: Peer, kind: Kind, extensions: seq<byte>): Peer {
    var description := MediaOption(kind, ChannelId(p.nextChannelId), SendOnly, extensions);
    p.(descriptions := p.descriptions + [PendingChannel(description, 0)],
       needNegotiation := true,
       nextChannelId := p.nextChannelId + 1)
  }

  function FindDescription(descriptions: seq<PendingChannel>, id: Id): (i: nat)
    ensures i <= |descriptions|
    ensures forall j | 0 <= j < i :: descriptions[j].description.mid != id
    ensures i < |descriptions| ==> descriptions[i].description.mid == id
  {
    if descriptions == [] || descriptions[0].description.mid == id then 0 else 1 + FindDescription(descriptions[1..], id)
  }

  function FindOutgoing(outgoing: seq<OutgoingChannel>, id: Id): (i: nat)
    ensures i <= |outgoing|
    ensures forall j | 0 <= j < i :: outgoing[j].id != id
    ensures i < |outgoing| ==> outgoing[i].id == id
  {
    if outgoing == [] || outgoing[0].id == id then 0 else 1 + FindOutgoing(outgoing[1..], id)
  }

  function FindContent(contents: seq<MediaContent>, id: Id): (i: nat)
    ensures i <= |contents|
    ensures forall j | 0 <= j < i :: SsrcId(contents[j].ssrc) != id
    ensures i < |contents| ==> SsrcId(contents[i].ssrc) == id
  {
    if contents == [] || SsrcId(contents[0].ssrc) == id then 0 else 1 + FindContent(contents[1..], id)
  }

  /** The first channel that was given this source number, if it is one. */
  function FindSsrc(descriptions: seq<PendingChannel>, ssrc: uint32): (i: nat)
    ensures i <= |descriptions|
    ensures forall j | 0 <= j < i :: descriptions[j].ssrc == 0 || descriptions[j].ssrc != ssrc
    ensures i < |descriptions| ==> descriptions[i].ssrc == ssrc != 0
  {
    if descriptions == [] || (descriptions[0].ssrc != 0 && ssrc == descriptions[0].ssrc) then 0
    else 1 + FindSsrc(descriptions[1..], ssrc)
  }

  // --- The current description

  function InactiveSection(id: Id): Section {
    Section(InactiveId(id), Inactive, MediaContent(Audio, 0, [], [], []))
  }

  function CurrentSections(p: Peer, id: Id): (s: seq<Section>)
    ensures s != []
  {
    var i := FindContent(p.incoming, id);
    var o := FindOutgoing(p.outgoing, id);
    if i == |p.incoming| && o == |p.outgoing| then [InactiveSection(id)]
    else
      (if i < |p.incoming| then [Section(SsrcId(p.incoming[i].ssrc), RecvOnly, p.incoming[i])] else [])
      + (if o < |p.outgoing| then [Section(id, SendOnly, p.outgoing[o].content)] else [])
  }

  /** currentSessionDescriptionFromCoordinatedState */
  function CurrentDescription(p: Peer, order: seq<Id>): seq<Section>
    decreases |order|
  {
    if order == [] then [] else CurrentSections(p, order[0]) + CurrentDescription(p, order[1..])
  }

  // --- Offers

  /** getIncomingContentDescription */
  function IncomingOption(content: MediaContent): MediaOption {
    MediaOption(content.kind, SsrcId(content.ssrc), RecvOnly, content.extensions)
  }

  function InactiveOption(id: Id): MediaOption {
    MediaOption(Audio, InactiveId(id), Inactive, [])
  }

  /** The options an offer has for an id seen before. */
  function KnownOptions(p: Peer, id: Id): (options: seq<MediaOption>)
    ensures options != []
  {
    var d := FindDescription(p.descriptions, id);
    var i := FindContent(p.incoming, id);
    if d == |p.descriptions| && i == |p.incoming| then [InactiveOption(id)]
    else
      (if d < |p.descriptions| then [p.descriptions[d].description] else [])
      + (if i < |p.incoming| then [IncomingOption(p.incoming[i])] else [])
  }

  function AllKnownOptions(p: Peer, order: seq<Id>): seq<MediaOption>
    decreases |order|
  {
    if order == [] then [] else KnownOptions(p, order[0]) + AllKnownOptions(p, order[1..])
  }

  /** New ids, at the end of the order, and the options for them. */
  datatype Extended = Extended(order: seq<Id>, options: seq<MediaOption>)

  function AddOption(e: Extended, option: MediaOption): Extended {
    if option.mid in e.order then e else Extended(e.order + [option.mid], e.options + [option])
  }

  function AddIncoming(e: Extended, incoming: seq<MediaContent>): Extended
    decreases |incoming|
  {
    if incoming == [] then e else AddIncoming(AddOption(e, IncomingOption(incoming[0])), incoming[1..])
  }

  /** The loops over the channels: each looks at all incoming contents again. */
  function AddChannels(e: Extended, descriptions: seq<PendingChannel>, incoming: seq<MediaContent>): Extended
    decreases |descriptions|
  {
    if descriptions == [] then e
    else
      AddChannels(AddIncoming(AddOption(e, descriptions[0].description), incoming), descriptions[1..], incoming)
  }

  function OfferOptions(p: Peer): Extended {
    AddChannels(Extended(p.order, AllKnownOptions(p, p.order)), p.descriptions, p.incoming)
  }

  /** The contents of the sections that send. */
  function SentContents(sections: seq<Section>): seq<MediaContent>
    decreases |sections|
  {
    if sections == [] then []
    else (if sections[0].direction.SendOnly? then [sections[0].content] else []) + SentContents(sections[1..])
  }

  /** Every channel with that mid gets the source number. */
  function GiveSsrc(descriptions: seq<PendingChannel>, mid: Id, ssrc: uint32): (given: seq<PendingChannel>)
    ensures |given| == |descriptions|
    ensures forall i | 0 <= i < |given| ::
              given[i] == if descriptions[i].description.mid == mid then descriptions[i].(ssrc := ssrc)
                          else descriptions[i]
  {
    seq(|descriptions|, i requires 0 <= i < |descriptions| =>
      if descriptions[i].description.mid == mid then descriptions[i].(ssrc := ssrc) else descriptions[i])
  }

  function GiveSsrcs(descriptions: seq<PendingChannel>, sections: seq<Section>): seq<PendingChannel>
    decreases |sections|
  {
    if sections == [] then descriptions
    else
      GiveSsrcs(
        if sections[0].direction.SendOnly? then GiveSsrc(descriptions, sections[0].mid, sections[0].content.ssrc)
        else descriptions,
        sections[1..])
  }

  datatype Outcome = Outcome(peer: Peer, sent: Option<Contents>)

  /** getPendingOffer; newId is what the id generator gives. */
  function GetPendingOffer(p: Peer, newId: uint32, factory: OfferFactory): Outcome {
    if !p.needNegotiation || p.pending.Some? then Outcome(p, None)
    else
      var extended := OfferOptions(p);
      var started := p.(needNegotiation := false, pending := Some(newId), order := extended.order);
      match factory(extended.options, CurrentDescription(p, p.order))
      case None => Outcome(started, None)
      case Some(offer) =>
        Outcome(started.(descriptions := GiveSsrcs(p.descriptions, offer)),
                Some(Contents(newId, SentContents(offer))))
  }

  // --- Answers

  /** The offer as the answering side rebuilds it, and its own options. */
  datatype Rebuilt = Rebuilt(offer: seq<Section>, options: seq<MediaOption>)

  function Join(a: Rebuilt, b: Rebuilt): Rebuilt {
    Rebuilt(a.offer + b.offer, a.options + b.options)
  }

  function OwnLine(channel: OutgoingChannel): Rebuilt {
    Rebuilt([Section(channel.id, RecvOnly, channel.content)],
            [MediaOption(channel.content.kind, channel.id, SendOnly, channel.content.extensions)])
  }

  function OfferedLine(content: MediaContent): Rebuilt {
    Rebuilt([Section(SsrcId(content.ssrc), SendOnly, content)], [IncomingOption(content)])
  }

  function InactiveLine(id: Id): Rebuilt {
    Rebuilt([InactiveSection(id)], [InactiveOption(id)])
  }

  /** What an id seen before gives. */
  function KnownLine(p: Peer, contents: seq<MediaContent>, id: Id): Rebuilt {
    var o := FindOutgoing(p.outgoing, id);
    var i := FindContent(contents, id);
    if o == |p.outgoing| && i == |contents| then InactiveLine(id)
    else
      Join(if o < |p.outgoing| then OwnLine(p.outgoing[o]) else Rebuilt([], []),
           if i < |contents| then OfferedLine(contents[i]) else Rebuilt([], []))
  }

  function KnownLines(p: Peer, contents: seq<MediaContent>, order: seq<Id>): Rebuilt
    decreases |order|
  {
    if order == [] then Rebuilt([], [])
    else Join(KnownLine(p, contents, order[0]), KnownLines(p, contents, order[1..]))
  }

  datatype Grown = Grown(order: seq<Id>, lines: Rebuilt)

  /** Contents never seen before go to the end. */
  function AddOffered(g: Grown, contents: seq<MediaContent>): Grown
    decreases |contents|
  {
    if contents == [] then g
    else
      var id := SsrcId(contents[0].ssrc);
      AddOffered(if id in g.order then g else Grown(g.order + [id], Join(g.lines, OfferedLine(contents[0]))), contents[1..])
  }

  function RebuildOffer(p: Peer, contents: seq<MediaContent>): Grown {
    AddOffered(Grown(p.order, KnownLines(p, contents, p.order)), contents)
  }

  /** The source number and groups are those of the offer. */
  function AsOffered(section: Section, offered: seq<MediaContent>): MediaContent {
    var i := FindContent(offered, section.mid);
    if i == |offered| then section.content
    else section.content.(ssrc := offered[i].ssrc, ssrcGroups := offered[i].ssrcGroups)
  }

  function AcceptedContents(answer: seq<Section>, offered: seq<MediaContent>): seq<MediaContent>
    decreases |answer|
  {
    if answer == [] then []
    else
      (if answer[0].direction.RecvOnly? then [AsOffered(answer[0], offered)] else [])
      + AcceptedContents(answer[1..], offered)
  }

  function GetAnswer(p: Peer, offer: Contents, factory: AnswerFactory): Outcome {
    var grown := RebuildOffer(p, offer.contents);
    var started := p.(order := grown.order);
    match factory(grown.lines.offer, grown.lines.options, CurrentDescription(p, p.order))
    case None => Outcome(started, None)
    case Some(answer) =>
      var accepted := AcceptedContents(answer, offer.contents);
      Outcome(started.(incoming := accepted), Some(Contents(offer.exchangeId, accepted)))
  }

  function MatchAnswer(descriptions: seq<PendingChannel>, contents: seq<MediaContent>): seq<OutgoingChannel>
    decreases |contents|
  {
    if contents == [] then []
    else
      var i := FindSsrc(descriptions, contents[0].ssrc);
      (if i < |descriptions| then [OutgoingChannel(descriptions[i].description.mid, contents[0])] else [])
      + MatchAnswer(descriptions, contents[1..])
  }

  function SetAnswer(p: Peer, answer: Contents): Peer {
    if p.pending != Some(answer.exchangeId) then p
    else p.(pending := None, outgoing := MatchAnswer(p.descriptions, answer.contents))
  }

  /** setRemoteNegotiationContent: when offers cross, that of the call initiator stands. */
  function SetRemote(p: Peer, remote: Contents, factory: AnswerFactory): Outcome {
    if p.pending == Some(remote.exchangeId) then Outcome(SetAnswer(p, remote), None)
    else if p.pending.None? then GetAnswer(p, remote, factory)
    else if p.isOutgoing then Outcome(p, None)
    else GetAnswer(p.(pending := None), remote, factory)
  }

  // --- What is expected of the factory, call by call

  /** An offer has the sections asked for, and a source number for each that sends. */
  ghost predicate OffersWell(p: Peer, factory: OfferFactory) {
    var options := OfferOptions(p).options;
    var r := factory(options, CurrentDescription(p, p.order));
    r.Some? && FollowsOptions(r.value, options) && DistinctSsrcs(SentContents(r.value))
  }

  /** An answer has the sections asked for, provided the offer and the options list the same mids
      position by position. */
  ghost predicate AnswersWell(p: Peer, contents: seq<MediaContent>, factory: AnswerFactory) {
    var lines := RebuildOffer(p, contents).lines;
    var r := factory(lines.offer, lines.options, CurrentDescription(p, p.order));
    SameMids(lines.offer, lines.options) ==> r.Some? && FollowsOptions(r.value, lines.options)
  }

  // --- What both sides agreed on

  function OutgoingContents(p: Peer, outgoing: seq<OutgoingChannel>): seq<MediaContent>
    decreases |outgoing|
  {
    if outgoing == [] then []
    else
      (if FindDescription(p.descriptions, outgoing[0].id) < |p.descriptions| then [outgoing[0].content] else [])
      + OutgoingContents(p, outgoing[1..])
  }

  datatype CoordinatedState = CoordinatedState(outgoingContents: seq<MediaContent>, incomingContents: seq<MediaContent>)

  function Coordinated(p: Peer): CoordinatedState {
    CoordinatedState(OutgoingContents(p, p.outgoing), p.incoming)
  }
}
