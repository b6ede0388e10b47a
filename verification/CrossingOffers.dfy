// What crossing offers cost the side that is called: getPendingOffer has already taken
// down the wish to negotiate, and dropping the offer does not put it up again, so the
// channels that only this offer had stay out until another channel is added.
module CrossingOffers {
  import opened Prelude
  import opened Bytes
  import opened Negotiation
  import opened OfferAnswer
  import opened Settling
  import opened Exchange

  ghost predicate Idle(s: System) {
    s.toInitiator == [] && s.toResponder == []
  }

  /** Both sides offer, then everything in flight is delivered. */
  function Crossing(
      a: uint32, b: uint32, fa: OfferFactory, fb: OfferFactory, g: AnswerFactory): seq<Step>
  {
    [Offer(true, a, fa), Offer(false, b, fb), Deliver(true, g), Deliver(false, g), Deliver(true, g)]
  }

  lemma {:induction false} LeadsStep(s: System, steps: seq<Step>, result: System)
    requires steps != [] && Leads(s, steps, result)
    ensures Enabled(s, steps[0]) && Leads(Next(s, steps[0]), steps[1..], result)
  {
  }

  /** An offer that is made goes out and counts all channels. */
  lemma OfferGoesOut(side: Side, id: uint32, factory: OfferFactory)
    requires SideInv(side) && side.peer.needNegotiation && side.peer.pending.None? && OffersWell(side.peer, factory)
    ensures var done := OfferBy(side, id, factory);
            && |done.sent| == 1 && IsOffer(done.sent[0], id)
            && done.side.peer.pending == Some(id) && !done.side.peer.needNegotiation
            && done.side.agreed == side.agreed && |done.side.peer.descriptions| == |side.peer.descriptions|
            && done.side.peer.isOutgoing == side.peer.isOutgoing
  {
    hide GetPendingOffer, OffersWell, Tidy, Numbered, Matches, AgreedUpTo;
    OfferSettles(side.peer, id, factory);
  }

  /** The called side drops its own offer and answers. */
  lemma DropsAndAnswers(side: Side, offer: Contents, factory: AnswerFactory)
    requires SideInv(side) && AnswersWell(side.peer.(pending := None), offer.contents, factory)
    requires DistinctSsrcs(offer.contents) && !side.peer.isOutgoing
    requires side.peer.pending.Some? && side.peer.pending.value != offer.exchangeId
    ensures var done := ReceiveBy(side, offer, factory);
            && |done.sent| == 1 && IsAnswer(done.sent[0], offer.exchangeId)
            && done.side.peer.pending.None? && done.side.peer.needNegotiation == side.peer.needNegotiation
            && done.side.agreed == side.agreed && done.side.peer.descriptions == side.peer.descriptions
  {
    hide GetAnswer, AnswersWell, Tidy, Numbered, AgreedUpTo, DistinctSsrcs, SameSsrcs;
    AnswerKeepsSide(side, offer, factory);
  }

  /** The offers have crossed: from here on the responder's is lost. */
  ghost predicate Crossed(s: System, a: uint32, b: uint32) {
    && Inv(s) && a != b
    && s.initiator.peer.pending == Some(a) && s.responder.peer.pending == Some(b)
    && |s.toResponder| == 1 && IsOffer(s.toResponder[0], a)
    && |s.toInitiator| == 1 && IsOffer(s.toInitiator[0], b)
    && !s.initiator.peer.needNegotiation && !s.responder.peer.needNegotiation
    && s.responder.agreed < |s.responder.peer.descriptions|
  }

  lemma BothOffer(s: System, a: uint32, b: uint32, fa: OfferFactory, fb: OfferFactory)
    requires Inv(s) && Idle(s) && s.initiator.peer.needNegotiation && s.responder.peer.needNegotiation
    requires s.responder.agreed < |s.responder.peer.descriptions|
    requires Enabled(s, Offer(true, a, fa)) && Enabled(Next(s, Offer(true, a, fa)), Offer(false, b, fb))
    ensures Crossed(Next(Next(s, Offer(true, a, fa)), Offer(false, b, fb)), a, b)
  {
    hide Flow, UsedIds, Shape, OffersWell, SideInv, OfferBy, Inv;
    var first, second := Offer(true, a, fa), Offer(false, b, fb);
    var next := Next(s, first);
    StepKeeps(s, first);
    StepKeeps(next, second);
    IdleIsQuiet(s);
    InvSides(s);
    InvSides(next);
    OfferGoesOut(s.initiator, a, fa);
    OfferGoesOut(next.responder, b, fb);
  }

  lemma IdleIsQuiet(s: System)
    requires Inv(s) && Idle(s)
    ensures s.initiator.peer.pending.None? && s.responder.peer.pending.None?
  {
  }

  lemma InvSides(s: System)
    requires Inv(s)
    ensures SideInv(s.initiator) && SideInv(s.responder)
    ensures s.initiator.peer.isOutgoing && !s.responder.peer.isOutgoing
  {
  }

  /** After the responder's offer was ignored, only that of the initiator is in flight. */
  lemma IgnoredByInitiator(s: System, a: uint32, b: uint32, g: AnswerFactory)
    requires Crossed(s, a, b) && Enabled(s, Deliver(true, g))
    ensures Next(s, Deliver(true, g)) == s.(toInitiator := [])
  {
    hide Flow, UsedIds, Shape, SideInv, Tidy, AnswersWell, ReceiveBy;
    Ignores(s.initiator, s.toInitiator[0].contents, g);
    assert s.toResponder + [] == s.toResponder;
  }

  lemma AnsweredByResponder(s: System, a: uint32, b: uint32, g: AnswerFactory)
    requires Crossed(s, a, b)
    requires Inv(s.(toInitiator := [])) && Enabled(s.(toInitiator := []), Deliver(false, g))
    ensures var next := Next(s.(toInitiator := []), Deliver(false, g));
            && Inv(next) && next.toResponder == [] && |next.toInitiator| == 1 && IsAnswer(next.toInitiator[0], a)
            && next.initiator == s.initiator
            && next.responder.peer.pending.None? && !next.responder.peer.needNegotiation
            && next.responder.agreed < |next.responder.peer.descriptions|
  {
    var ignored := s.(toInitiator := []);
    StepKeeps(ignored, Deliver(false, g));
    OfferIsFlow(ignored.initiator.peer, ignored.responder.peer, ignored.toResponder, ignored.toInitiator);
    hide Flow, UsedIds, Shape, SideInv, AnswersWell, ReceiveBy, DistinctSsrcs;
    DropsAndAnswers(ignored.responder, ignored.toResponder[0].contents, g);
  }

  lemma AnswerMet(s: System, a: uint32, g: AnswerFactory)
    requires Inv(s) && s.toResponder == [] && |s.toInitiator| == 1 && IsAnswer(s.toInitiator[0], a)
    requires s.initiator.peer.pending == Some(a) && Enabled(s, Deliver(true, g))
    ensures var next := Next(s, Deliver(true, g));
            && Idle(next) && next.responder == s.responder
            && next.initiator.peer.needNegotiation == s.initiator.peer.needNegotiation
  {
  }

  /** Whenever nothing is in flight and both sides offer at once, the responder having a channel not
      agreed on yet: when all has been delivered nothing is in flight, the responder does not want
      to negotiate any more, and that channel is still not agreed on. */
  lemma {:induction false} CrossingLosesChannels(
      s: System, a: uint32, b: uint32, fa: OfferFactory, fb: OfferFactory, g: AnswerFactory, result: System)
    requires Inv(s) && Idle(s) && s.initiator.peer.needNegotiation && s.responder.peer.needNegotiation
    requires !AllAgreed(s.responder.peer)
    requires Leads(s, Crossing(a, b, fa, fb, g), result)
    ensures Idle(result) && !result.initiator.peer.needNegotiation && !result.responder.peer.needNegotiation
    ensures !AllAgreed(result.responder.peer)
  {
    var steps := Crossing(a, b, fa, fb, g);
    InvSides(s);
    AllAgreedIff(s.responder);
    assert s.responder.agreed < |s.responder.peer.descriptions|;
    LeadsStep(s, steps, result);
    var s1 := Next(s, steps[0]);
    LeadsStep(s1, steps[1..], result);
    var s2 := Next(s1, steps[1]);
    BothOffer(s, a, b, fa, fb);
    hide Inv, Next, Enabled, SideInv, Leads;
    LeadsOn(s2, g, result);
  }

  lemma {:induction false} LeadsOn(s: System, g: AnswerFactory, result: System)
    requires exists a, b :: Crossed(s, a, b)
    requires Leads(s, [Deliver(true, g), Deliver(false, g), Deliver(true, g)], result)
    ensures Idle(result) && !result.initiator.peer.needNegotiation && !result.responder.peer.needNegotiation
    ensures !AllAgreed(result.responder.peer)
  {
    var a, b :| Crossed(s, a, b);
    var steps := [Deliver(true, g), Deliver(false, g), Deliver(true, g)];
    LeadsStep(s, steps, result);
    StepKeeps(s, steps[0]);
    IgnoredByInitiator(s, a, b, g);
    var s3 := Next(s, steps[0]);
    LeadsStep(s3, steps[1..], result);
    AnsweredByResponder(s, a, b, g);
    var s4 := Next(s3, steps[1]);
    LeadsStep(s4, steps[2..], result);
    AnswerMet(s4, a, g);
    StepKeeps(s4, steps[2]);
    hide Inv, Next, Enabled, SideInv, Crossed;
    InvSides(result);
    AllAgreedIff(result.responder);
  }

  // --- It can happen in the first exchange of a call

  /** A factory that numbers the sections from a base. */
  function Numbering(base: nat): OfferFactory
    requires base < 0x8000_0000
  {
    (options: seq<MediaOption>, current: seq<Section>) =>
      if |options| < 0x8000_0000 then
        Some(seq(|options|, i requires 0 <= i < |options| =>
          Section(options[i].mid, options[i].direction, MediaContent(options[i].kind, base + i + 1, [], [], []))))
      else None
  }

  /** A factory that takes over the contents of the offer. */
  function Accepting(): AnswerFactory {
    (offer: seq<Section>, options: seq<MediaOption>, current: seq<Section>) =>
      if |offer| == |options| then
        Some(seq(|options|, i requires 0 <= i < |options| =>
          Section(options[i].mid, options[i].direction, offer[i].content)))
      else None
  }

  lemma AcceptingIsGood(p: Peer, contents: seq<MediaContent>)
    ensures AnswersWell(p, contents, Accepting())
  {
    hide RebuildOffer, CurrentDescription;
  }

  /** A call in which both sides have added one audio channel. */
  function TwoCallers(): System {
    var s := NewSystem();
    s.(initiator := AddBy(s.initiator, Audio, []), responder := AddBy(s.responder, Audio, []))
  }

  /** The first channel of a peer is the only option of its first offer. */
  lemma FirstOptions(p: Peer)
    requires p.order == [] && p.incoming == [] && |p.descriptions| == 1
    ensures OfferOptions(p).options == [p.descriptions[0].description]
  {
    var d := p.descriptions[0];
    var start, listed := Extended([], []), Extended([d.description.mid], [d.description]);
    assert AllKnownOptions(p, []) == [];
    assert AddOption(start, d.description) == listed && AddIncoming(listed, []) == listed;
    assert p.descriptions[1..] == [] && AddChannels(listed, [], []) == listed;
    assert AddChannels(start, p.descriptions, []) == AddChannels(listed, [], []);
  }

  lemma OneIsSent(section: Section)
    requires section.direction == SendOnly && section.content.ssrc != 0
    ensures DistinctSsrcs(SentContents([section]))
  {
    assert [section][1..] == [] && SentContents([section][1..]) == [];
    assert SentContents([section]) == [section.content];
  }

  lemma FirstOfferIsGood(p: Peer, base: nat)
    requires base < 0x8000_0000 && p.order == [] && p.incoming == [] && |p.descriptions| == 1
    requires p.descriptions[0].description.direction == SendOnly
    ensures OffersWell(p, Numbering(base))
  {
    hide OfferOptions, CurrentDescription, DistinctSsrcs, SentContents;
    FirstOptions(p);
    var option := p.descriptions[0].description;
    var offer := Numbering(base)([option], CurrentDescription(p, p.order)).value;
    assert offer == [Section(option.mid, SendOnly, MediaContent(option.kind, base + 1, [], [], []))];
    OneIsSent(offer[0]);
  }

  lemma TwoCallersAreReachable()
    ensures Leads(NewSystem(), [Add(true, Audio, []), Add(false, Audio, [])], TwoCallers())
    ensures Inv(TwoCallers()) && Idle(TwoCallers()) && !AllAgreed(TwoCallers().responder.peer)
  {
    var first, second := Add(true, Audio, []), Add(false, Audio, []);
    hide Flow, SideInv, Shape, UsedIds;
    var s := NewSystem();
    InitialInv();
    StepKeeps(s, first);
    StepKeeps(Next(s, first), second);
    assert Next(Next(s, first), second) == TwoCallers();
    assert [first, second][1..] == [second] && [second][1..] == [];
    var r := TwoCallers().responder;
    assert !HasChannel(r.peer.outgoing, r.peer.descriptions[0].description.mid);
  }

  lemma {:induction false} LeadsFirst(s: System, steps: seq<Step>, result: System)
    requires steps != [] && Enabled(s, steps[0]) && Leads(Next(s, steps[0]), steps[1..], result)
    ensures Leads(s, steps, result)
  {
  }

  lemma MayAccept(s: System, toInitiator: bool)
    requires if toInitiator then s.toInitiator != [] else s.toResponder != []
    ensures Enabled(s, Deliver(toInitiator, Accepting()))
  {
    var side := if toInitiator then s.initiator else s.responder;
    var queue := if toInitiator then s.toInitiator else s.toResponder;
    AcceptingIsGood(side.peer.(pending := None), queue[0].contents.contents);
  }

  /** Offers that have crossed can all be delivered. */
  lemma AllCanBeDelivered(s: System, a: uint32, b: uint32) returns (result: System)
    requires Crossed(s, a, b)
    ensures var g := Accepting(); Leads(s, [Deliver(true, g), Deliver(false, g), Deliver(true, g)], result)
  {
    hide Flow, SideInv, Shape, UsedIds, ReceiveBy, AnswersWell, Accepting;
    var g := Accepting();
    var steps := [Deliver(true, g), Deliver(false, g), Deliver(true, g)];
    MayAccept(s, true);
    StepKeeps(s, steps[0]);
    IgnoredByInitiator(s, a, b, g);
    var s3 := Next(s, steps[0]);
    MayAccept(s3, false);
    AnsweredByResponder(s, a, b, g);
    var s4 := Next(s3, steps[1]);
    MayAccept(s4, true);
    result := Next(s4, steps[2]);
    hide Next, Enabled, Inv, Accepting;
    LeadsFirst(s4, steps[2..], result);
    LeadsFirst(s3, steps[1..], result);
    LeadsFirst(s, steps, result);
  }

  lemma OffersMayCross() returns (s: System, fa: OfferFactory, fb: OfferFactory)
    ensures var first, second := Offer(true, 1, fa), Offer(false, 2, fb);
            && Enabled(TwoCallers(), first) && Enabled(Next(TwoCallers(), first), second)
            && s == Next(Next(TwoCallers(), first), second)
  {
    fa, fb := Numbering(0), Numbering(100);
    FirstOfferIsGood(TwoCallers().initiator.peer, 0);
    FirstOfferIsGood(TwoCallers().responder.peer, 100);
    hide GetPendingOffer, OffersWell, Numbering;
    var first, second := Offer(true, 1, fa), Offer(false, 2, fb);
    var next := Next(TwoCallers(), first);
    assert next.responder == TwoCallers().responder && next.used == {} + {1};
    s := Next(next, second);
  }

  /** Both add a channel and offer at once: when all is delivered, nothing is in flight or wanted, and
      the channel of the side that was called is not agreed on. */
  lemma FirstOffersMayCross() returns (s: System)
    ensures exists steps :: Leads(TwoCallers(), steps, s)
    ensures Idle(s) && !s.initiator.peer.needNegotiation && !s.responder.peer.needNegotiation
    ensures !AllAgreed(s.responder.peer)
  {
    TwoCallersAreReachable();
    var crossed, fa, fb := OffersMayCross();
    var s0, g := TwoCallers(), Accepting();
    BothOffer(s0, 1, 2, fa, fb);
    s := AllCanBeDelivered(crossed, 1, 2);
    var steps := Crossing(1, 2, fa, fb, g);
    assert steps[1..][1..] == [Deliver(true, g), Deliver(false, g), Deliver(true, g)];
    hide Next, Inv, Accepting, Crossed, Enabled, AllAgreed;
    LeadsFirst(Next(s0, steps[0]), steps[1..], s);
    LeadsFirst(s0, steps, s);
    CrossingLosesChannels(s0, 1, 2, fa, fb, g, s);
  }
}
