// Two peers that exchange offers and answers over reliable first-in first-out
// channels, and what holds in every state they can reach: answers meet the offers
// they belong to, crossing offers are settled (section 4 of RFC 3264), and when nothing
// is in flight both sides have agreed on the same contents.
module Exchange {
  import opened Prelude
  import opened Bytes
  import opened Negotiation
  import opened OfferAnswer
  import opened Settling

  /** Contents on their way; whether they are an answer is known here only, not to the peers. */
  datatype Flight = Flight(contents: Contents, isAnswer: bool)

  /** A peer, how many of its channels its last offer had, and its last offer that was answered. */
  datatype Side = Side(peer: Peer, offered: nat, agreed: nat)

  datatype System = System(
    initiator: Side,
    responder: Side,
    toResponder: seq<Flight>,
    toInitiator: seq<Flight>,
    used: set<uint32>,    // the exchange ids generated so far
    dropped: bool)        // the responder dropped an offer that had more channels than are agreed on

  function NewSystem(): System {
    System(Side(NewPeer(true), 0, 0), Side(NewPeer(false), 0, 0), [], [], {}, false)
  }

  datatype Step =
    | Add(byInitiator: bool, kind: Kind, extensions: seq<byte>)
    | Offer(byInitiator: bool, newId: uint32, offerFactory: OfferFactory)
    | Deliver(toInitiator: bool, answerFactory: AnswerFactory)

  ghost predicate MayOffer(side: Side, used: set<uint32>, newId: uint32, factory: OfferFactory) {
    newId !in used && (side.peer.needNegotiation && side.peer.pending.None? ==> OffersWell(side.peer, factory))
  }

  ghost predicate MayReceive(side: Side, queue: seq<Flight>, factory: AnswerFactory) {
    queue != [] && AnswersWell(side.peer.(pending := None), queue[0].contents.contents, factory)
  }

  ghost predicate Enabled(s: System, step: Step) {
    match step
    case Add(_, _, _) => true
    case Offer(byInitiator, newId, factory) =>
      MayOffer(if byInitiator then s.initiator else s.responder, s.used, newId, factory)
    case Deliver(toInitiator, factory) =>
      if toInitiator then MayReceive(s.initiator, s.toInitiator, factory)
      else MayReceive(s.responder, s.toResponder, factory)
  }

  function AddBy(side: Side, kind: Kind, extensions: seq<byte>): Side {
    side.(peer := AddOutgoingChannel(side.peer, kind, extensions))
  }

  /** A side after it has done something, and what it puts on its way. */
  datatype Done = Done(side: Side, sent: seq<Flight>)

  function Sent(sent: Option<Contents>, isAnswer: bool): seq<Flight> {
    if sent.None? then [] else [Flight(sent.value, isAnswer)]
  }

  function OfferBy(side: Side, newId: uint32, factory: OfferFactory): Done {
    var r := GetPendingOffer(side.peer, newId, factory);
    Done(Side(r.peer, if r.sent.Some? then |r.peer.descriptions| else side.offered, side.agreed), Sent(r.sent, false))
  }

  function ReceiveBy(side: Side, contents: Contents, factory: AnswerFactory): Done {
    var r := SetRemote(side.peer, contents, factory);
    var met := side.peer.pending == Some(contents.exchangeId);
    Done(Side(r.peer, side.offered, if met then side.offered else side.agreed), Sent(r.sent, true))
  }

  function Next(s: System, step: Step): System
    requires Enabled(s, step)
  {
    match step
    case Add(true, kind, extensions) => s.(initiator := AddBy(s.initiator, kind, extensions))
    case Add(false, kind, extensions) => s.(responder := AddBy(s.responder, kind, extensions))
    case Offer(true, newId, factory) =>
      var done := OfferBy(s.initiator, newId, factory);
      s.(initiator := done.side, toResponder := s.toResponder + done.sent, used := s.used + {newId})
    case Offer(false, newId, factory) =>
      var done := OfferBy(s.responder, newId, factory);
      s.(responder := done.side, toInitiator := s.toInitiator + done.sent, used := s.used + {newId})
    case Deliver(true, factory) =>
      var done := ReceiveBy(s.initiator, s.toInitiator[0].contents, factory);
      s.(initiator := done.side, toInitiator := s.toInitiator[1..], toResponder := s.toResponder + done.sent)
    case Deliver(false, factory) =>
      var contents := s.toResponder[0].contents;
      var done := ReceiveBy(s.responder, contents, factory);
      var pending := s.responder.peer.pending;
      s.(responder := done.side, toResponder := s.toResponder[1..], toInitiator := s.toInitiator + done.sent,
         dropped :=
           if pending.None? then s.dropped
           else pending.value != contents.exchangeId && s.responder.offered > s.responder.agreed)
  }

  /** From s the steps lead to the result. */
  ghost predicate Leads(s: System, steps: seq<Step>, result: System)
    decreases |steps|
  {
    if steps == [] then s == result
    else Enabled(s, steps[0]) && Leads(Next(s, steps[0]), steps[1..], result)
  }

  // --- The shape of what is in flight

  predicate IsOffer(f: Flight, id: uint32) {
    !f.isAnswer && f.contents.exchangeId == id
  }

  predicate IsAnswer(f: Flight, id: uint32) {
    f.isAnswer && f.contents.exchangeId == id
  }

  /** The initiator waits for an answer to a, and R has its offer before it: at most one offer of
      the responder that it has dropped, the answer, at most one new offer of the responder. */
  ghost predicate AnswerComes(a: uint32, r: Option<uint32>, toInitiator: seq<Flight>) {
    var n := |toInitiator|;
    var last := if r.Some? then 1 else 0;
    && 1 + last <= n <= 2 + last
    && IsAnswer(toInitiator[n - 1 - last], a)
    && (r.Some? ==> IsOffer(toInitiator[n - 1], r.value))
    && (n == 2 + last ==> !toInitiator[0].isAnswer && toInitiator[0].contents.exchangeId != a)
  }

  ghost predicate Shape(i: Option<uint32>, r: Option<uint32>, toResponder: seq<Flight>, toInitiator: seq<Flight>) {
    if i.None? then
      if r.None? then toResponder == [] && toInitiator == []
      else
        || (toResponder == [] && |toInitiator| == 1 && IsOffer(toInitiator[0], r.value))
        || (toInitiator == [] && |toResponder| == 1 && IsAnswer(toResponder[0], r.value))
    else
      && (r.Some? ==> r.value != i.value)
      && if toResponder == [] then AnswerComes(i.value, r, toInitiator)
         else if |toResponder| == 1 then
           && IsOffer(toResponder[0], i.value)
           && if r.None? then toInitiator == []
              else toInitiator == [] || (|toInitiator| == 1 && IsOffer(toInitiator[0], r.value))
         else
           && |toResponder| == 2 && r.Some? && toInitiator == []
           && IsAnswer(toResponder[0], r.value) && IsOffer(toResponder[1], i.value)
  }

  // --- What holds in every reachable state

  ghost predicate SideInv(side: Side) {
    && Tidy(side.peer)
    && Numbered(side.peer.descriptions, side.offered)
    && side.agreed <= side.offered
    && AgreedUpTo(side.peer.outgoing, side.agreed)
    && (!side.peer.needNegotiation ==> side.offered == |side.peer.descriptions|)
  }

  predicate NoAnswer(queue: seq<Flight>) {
    forall k | 0 <= k < |queue| :: !queue[k].isAnswer
  }

  /** What p offers and q answers: an answer on its way, or settled, is what q receives. */
  ghost predicate Flow(p: Peer, q: Peer, toQ: seq<Flight>, toP: seq<Flight>) {
    && (forall k | 0 <= k < |toP| && toP[k].isAnswer ::
          toP[k].contents.contents == q.incoming && Matches(p.descriptions, q.incoming))
    && (NoAnswer(toP) ==> AgreedContents(p.outgoing) == q.incoming)
    && (forall k | 0 <= k < |toQ| && !toQ[k].isAnswer && p.pending == Some(toQ[k].contents.exchangeId) ::
          Matches(p.descriptions, toQ[k].contents.contents))
  }

  ghost predicate UsedIds(used: set<uint32>, pending: Option<uint32>, queue: seq<Flight>) {
    && (pending.Some? ==> pending.value in used)
    && forall k | 0 <= k < |queue| :: queue[k].contents.exchangeId in used
  }

  ghost predicate Inv(s: System) {
    var i, r := s.initiator.peer, s.responder.peer;
    && i.isOutgoing && !r.isOutgoing
    && SideInv(s.initiator) && SideInv(s.responder)
    && Shape(i.pending, r.pending, s.toResponder, s.toInitiator)
    && UsedIds(s.used, i.pending, s.toResponder) && UsedIds(s.used, r.pending, s.toInitiator)
    && Flow(i, r, s.toResponder, s.toInitiator) && Flow(r, i, s.toInitiator, s.toResponder)
    && (i.pending.None? ==> s.initiator.agreed == s.initiator.offered)
    && (s.dropped ==> s.responder.agreed < s.responder.offered)
    && (r.pending.None? && !s.dropped ==> s.responder.agreed == s.responder.offered)
  }

  lemma InitialInv()
    ensures Inv(NewSystem())
  {
  }

  // --- A channel is added

  lemma AddKeepsSide(side: Side, kind: Kind, extensions: seq<byte>)
    requires SideInv(side)
    ensures SideInv(AddBy(side, kind, extensions))
  {
  }

  lemma AddKeepsMatches(p: Peer, kind: Kind, extensions: seq<byte>, contents: seq<MediaContent>)
    requires Matches(p.descriptions, contents)
    ensures Matches(AddOutgoingChannel(p, kind, extensions).descriptions, contents)
  {
    var more := AddOutgoingChannel(p, kind, extensions).descriptions;
    forall c | 0 <= c < |contents|
      ensures Given(more, contents[c].ssrc)
    {
      assert Given(p.descriptions, contents[c].ssrc);
      var d :| 0 <= d < |p.descriptions| && p.descriptions[d].ssrc == contents[c].ssrc;
      assert more[d] == p.descriptions[d];
    }
  }

  lemma AddKeepsFlow(p: Peer, q: Peer, toQ: seq<Flight>, toP: seq<Flight>, kind: Kind, extensions: seq<byte>)
    requires Flow(p, q, toQ, toP)
    ensures Flow(AddOutgoingChannel(p, kind, extensions), q, toQ, toP)
  {
    hide Matches, NoAnswer;
    forall contents | Matches(p.descriptions, contents)
      ensures Matches(AddOutgoingChannel(p, kind, extensions).descriptions, contents)
    {
      AddKeepsMatches(p, kind, extensions, contents);
    }
  }

  lemma AddKeeps(s: System, step: Step)
    requires Inv(s) && step.Add?
    ensures Inv(Next(s, step))
  {
    hide Tidy, Numbered, AgreedUpTo, Flow, SideInv, Shape, UsedIds;
    var i, r := s.initiator.peer, s.responder.peer;
    if step.byInitiator {
      AddKeepsSide(s.initiator, step.kind, step.extensions);
      AddKeepsFlow(i, r, s.toResponder, s.toInitiator, step.kind, step.extensions);
      FlowLooksAtIncoming(r, i, AddOutgoingChannel(i, step.kind, step.extensions), s.toInitiator, s.toResponder);
    } else {
      AddKeepsSide(s.responder, step.kind, step.extensions);
      AddKeepsFlow(r, i, s.toInitiator, s.toResponder, step.kind, step.extensions);
      FlowLooksAtIncoming(i, r, AddOutgoingChannel(r, step.kind, step.extensions), s.toResponder, s.toInitiator);
    }
  }

  /** Of the answering side only what it receives matters. */
  lemma FlowLooksAtIncoming(p: Peer, q: Peer, q': Peer, toQ: seq<Flight>, toP: seq<Flight>)
    requires Flow(p, q, toQ, toP) && q'.incoming == q.incoming
    ensures Flow(p, q', toQ, toP)
  {
  }

  // --- An offer is made

  lemma OfferKeepsSide(side: Side, newId: uint32, factory: OfferFactory)
    requires SideInv(side) && OffersWell(side.peer, factory) && side.peer.needNegotiation && side.peer.pending.None?
    ensures SideInv(OfferBy(side, newId, factory).side)
  {
    hide GetPendingOffer, OffersWell, Tidy, Numbered, AgreedUpTo;
    OfferSettles(side.peer, newId, factory);
    NumberedInside(side);
  }

  lemma NumberedInside(side: Side)
    requires SideInv(side)
    ensures side.agreed <= side.offered <= |side.peer.descriptions|
  {
  }

  /** The side that offers now: nothing is on its way to it that it waits for. */
  lemma OfferKeepsFlows(p: Peer, q: Peer, toQ: seq<Flight>, toP: seq<Flight>, p': Peer, sent: Contents)
    requires Flow(p, q, toQ, toP) && Flow(q, p, toP, toQ) && NoAnswer(toP)
    requires p'.outgoing == p.outgoing && p'.incoming == p.incoming && p'.pending == Some(sent.exchangeId)
    requires Matches(p'.descriptions, sent.contents)
    requires forall k | 0 <= k < |toQ| :: toQ[k].contents.exchangeId != sent.exchangeId
    ensures Flow(p', q, toQ + [Flight(sent, false)], toP)
    ensures Flow(q, p', toP, toQ + [Flight(sent, false)])
  {
    hide Matches;
    var more := toQ + [Flight(sent, false)];
    assert forall k | 0 <= k < |toQ| :: more[k] == toQ[k];
    assert NoAnswer(more) ==> NoAnswer(toQ);
  }

  lemma UsedIdsMore(used: set<uint32>, newId: uint32, pending: Option<uint32>, queue: seq<Flight>)
    requires UsedIds(used, pending, queue)
    ensures UsedIds(used + {newId}, pending, queue)
  {
  }

  lemma UsedIdsAppend(used: set<uint32>, pending: Option<uint32>, queue: seq<Flight>, f: Flight)
    requires UsedIds(used, None, queue) && f.contents.exchangeId in used && (pending.Some? ==> pending.value in used)
    ensures UsedIds(used, pending, queue + [f])
  {
  }

  lemma IdleOffer(s: System, step: Step)
    requires step.Offer? && Enabled(s, step)
    requires var p := (if step.byInitiator then s.initiator else s.responder).peer; !p.needNegotiation || p.pending.Some?
    ensures Next(s, step) == s.(used := s.used + {step.newId})
  {
  }

  lemma OfferKeeps(s: System, step: Step)
    requires Inv(s) && step.Offer? && Enabled(s, step)
    ensures Inv(Next(s, step))
  {
    hide GetPendingOffer, OffersWell, Tidy, Numbered, AgreedUpTo, Matches, Flow, UsedIds;
    var i, r, newId := s.initiator.peer, s.responder.peer, step.newId;
    UsedIdsMore(s.used, newId, i.pending, s.toResponder);
    UsedIdsMore(s.used, newId, r.pending, s.toInitiator);
    NotUsedYet(s.used, newId, i.pending, s.toResponder);
    NotUsedYet(s.used, newId, r.pending, s.toInitiator);
    var p := if step.byInitiator then i else r;
    if !p.needNegotiation || p.pending.Some? {
      IdleOffer(s, step);
    } else if step.byInitiator {
      var done := OfferBy(s.initiator, newId, step.offerFactory);
      OfferSettles(i, newId, step.offerFactory);
      OfferKeepsSide(s.initiator, newId, step.offerFactory);
      OfferKeepsFlows(i, r, s.toResponder, s.toInitiator, done.side.peer, done.sent[0].contents);
      UsedIdsAppend(s.used + {newId}, Some(newId), s.toResponder, done.sent[0]);
      assert Shape(Some(newId), r.pending, s.toResponder + done.sent, s.toInitiator);
    } else {
      var done := OfferBy(s.responder, newId, step.offerFactory);
      OfferSettles(r, newId, step.offerFactory);
      OfferKeepsSide(s.responder, newId, step.offerFactory);
      NumberedInside(s.responder);
      OfferKeepsFlows(r, i, s.toInitiator, s.toResponder, done.side.peer, done.sent[0].contents);
      UsedIdsAppend(s.used + {newId}, Some(newId), s.toInitiator, done.sent[0]);
      assert Shape(i.pending, Some(newId), s.toResponder, s.toInitiator + done.sent);
    }
  }

  lemma NotUsedYet(used: set<uint32>, newId: uint32, pending: Option<uint32>, queue: seq<Flight>)
    requires UsedIds(used, pending, queue) && newId !in used
    ensures pending != Some(newId)
    ensures forall k | 0 <= k < |queue| :: queue[k].contents.exchangeId != newId
    ensures UsedIds(used, None, queue)
  {
  }

  // --- Contents arrive

  /** An offer is taken for what it is and answered. */
  lemma AnswerKeepsSide(side: Side, offer: Contents, factory: AnswerFactory)
    requires SideInv(side) && AnswersWell(side.peer.(pending := None), offer.contents, factory)
    requires DistinctSsrcs(offer.contents)
    requires side.peer.pending != Some(offer.exchangeId) && (side.peer.pending.Some? ==> !side.peer.isOutgoing)
    ensures var done := ReceiveBy(side, offer, factory);
            && SideInv(done.side)
            && done.sent == [Flight(Contents(offer.exchangeId, done.side.peer.incoming), true)]
            && SameSsrcs(done.side.peer.incoming, offer.contents) && DistinctSsrcs(done.side.peer.incoming)
            && done.side == side.(peer := side.peer.(
                 pending := None, order := done.side.peer.order, incoming := done.side.peer.incoming))
  {
    hide GetAnswer, AnswersWell, Numbered, AgreedUpTo, SameSsrcs, DistinctSsrcs;
    TidyAnyPending(side.peer);
    AnswerSettles(side.peer.(pending := None), offer, factory);
    assert side.peer.pending.None? ==> side.peer.(pending := None) == side.peer;
  }

  lemma TidyAnyPending(p: Peer)
    requires Tidy(p)
    ensures Tidy(p.(pending := None))
  {
  }

  /** p's offer is answered by q, which may have dropped one of its own for it. */
  lemma AnswerKeepsFlows(p: Peer, q: Peer, toQ: seq<Flight>, toP: seq<Flight>, q': Peer, answer: Contents)
    requires Flow(p, q, toQ, toP) && Flow(q, p, toP, toQ) && toQ != [] && NoAnswer(toP)
    requires !toQ[0].isAnswer && Matches(p.descriptions, toQ[0].contents.contents)
    requires answer.contents == q'.incoming
    requires SameSsrcs(q'.incoming, toQ[0].contents.contents) && DistinctSsrcs(q'.incoming)
    requires q'.outgoing == q.outgoing && q'.descriptions == q.descriptions && q'.pending.None?
    ensures Flow(p, q', toQ[1..], toP + [Flight(answer, true)])
    ensures Flow(q', p, toP + [Flight(answer, true)], toQ[1..])
  {
    var offered := toQ[0].contents.contents;
    assert SameSsrcs(offered, q'.incoming);
    MatchesSame(p.descriptions, offered, q'.incoming);
    hide Matches, SameSsrcs, DistinctSsrcs;
    var more := toP + [Flight(answer, true)];
    assert more[|toP|].isAnswer;
    assert forall k | 0 <= k < |toP| :: more[k] == toP[k];
    assert NoAnswer(toQ[1..]) ==> NoAnswer(toQ) by {
      assert forall k | 0 < k < |toQ| :: toQ[k] == toQ[1..][k - 1];
    }
  }

  /** An offer that crossed is ignored. */
  lemma IgnoreKeepsFlows(p: Peer, q: Peer, toQ: seq<Flight>, toP: seq<Flight>)
    requires Flow(p, q, toQ, toP) && Flow(q, p, toP, toQ) && toQ != [] && !toQ[0].isAnswer
    ensures Flow(p, q, toQ[1..], toP) && Flow(q, p, toP, toQ[1..])
  {
    hide Matches;
    assert NoAnswer(toQ[1..]) ==> NoAnswer(toQ) by {
      assert forall k | 0 < k < |toQ| :: toQ[k] == toQ[1..][k - 1];
    }
  }

  /** q's offer has been answered by p. */
  lemma MeetKeepsFlows(p: Peer, q: Peer, toQ: seq<Flight>, toP: seq<Flight>, q': Peer)
    requires Flow(p, q, toQ, toP) && Flow(q, p, toP, toQ) && toQ != []
    requires AgreedContents(q'.outgoing) == toQ[0].contents.contents == p.incoming
    requires q'.incoming == q.incoming && q'.pending.None?
    ensures Flow(p, q', toQ[1..], toP)
    ensures NoAnswer(toQ[1..]) ==> Flow(q', p, toP, toQ[1..])
  {
    hide Matches;
  }

  lemma UsedIdsTail(used: set<uint32>, pending: Option<uint32>, queue: seq<Flight>)
    requires UsedIds(used, pending, queue) && queue != []
    ensures UsedIds(used, None, queue[1..]) && UsedIds(used, pending, queue[1..])
    ensures queue[0].contents.exchangeId in used
  {
  }

  /** What the head of a queue is to the side it comes to, by the shape of what is in flight. */
  lemma HeadToInitiator(i: Option<uint32>, r: Option<uint32>, toResponder: seq<Flight>, toInitiator: seq<Flight>)
    requires Shape(i, r, toResponder, toInitiator) && toInitiator != []
    ensures toInitiator[0].isAnswer <==> i == Some(toInitiator[0].contents.exchangeId)
    ensures i.None? ==> r == Some(toInitiator[0].contents.exchangeId) && NoAnswer(toResponder)
    ensures toInitiator[0].isAnswer ==> Shape(None, r, toResponder, toInitiator[1..]) && NoAnswer(toInitiator[1..])
    ensures i.Some? && !toInitiator[0].isAnswer ==> Shape(i, r, toResponder, toInitiator[1..])
    ensures forall f: Flight | i.None? && IsAnswer(f, toInitiator[0].contents.exchangeId) ::
              Shape(i, r, toResponder + [f], toInitiator[1..])
  {
  }

  lemma HeadToResponder(i: Option<uint32>, r: Option<uint32>, toResponder: seq<Flight>, toInitiator: seq<Flight>)
    requires Shape(i, r, toResponder, toInitiator) && toResponder != []
    ensures toResponder[0].isAnswer <==> r == Some(toResponder[0].contents.exchangeId)
    ensures toResponder[0].isAnswer ==> Shape(i, None, toResponder[1..], toInitiator) && NoAnswer(toResponder[1..])
    ensures !toResponder[0].isAnswer ==> i == Some(toResponder[0].contents.exchangeId) && NoAnswer(toInitiator)
    ensures forall f: Flight | !toResponder[0].isAnswer && IsAnswer(f, toResponder[0].contents.exchangeId) ::
              Shape(i, None, toResponder[1..], toInitiator + [f])
  {
  }

  lemma MeetKeepsSide(side: Side, answer: Contents, factory: AnswerFactory)
    requires SideInv(side) && side.peer.pending == Some(answer.exchangeId) && Matches(side.peer.descriptions, answer.contents)
    ensures var done := ReceiveBy(side, answer, factory);
            && SideInv(done.side) && done.sent == []
            && AgreedContents(done.side.peer.outgoing) == answer.contents
            && done.side == Side(side.peer.(pending := None, outgoing := done.side.peer.outgoing), side.offered, side.offered)
  {
    hide SetAnswer, Matches, Numbered, AgreedUpTo, Tidy;
    SetAnswerSettles(side.peer, answer, side.offered);
  }

  lemma DeliverToInitiatorKeeps(s: System, factory: AnswerFactory)
    requires Inv(s) && Enabled(s, Deliver(true, factory))
    ensures Inv(Next(s, Deliver(true, factory)))
  {
    hide Flow, SideInv, Shape, UsedIds, SetRemote, AnswersWell, Matches, SameSsrcs, DistinctSsrcs, NoAnswer;
    var i, r, f := s.initiator.peer, s.responder.peer, s.toInitiator[0];
    HeadToInitiator(i.pending, r.pending, s.toResponder, s.toInitiator);
    UsedIdsTail(s.used, r.pending, s.toInitiator);
    var done := ReceiveBy(s.initiator, f.contents, factory);
    if i.pending.Some? && !f.isAnswer {
      IgnoreKeepsFlows(r, i, s.toInitiator, s.toResponder);
      Ignores(s.initiator, f.contents, factory);
      assert s.toResponder + [] == s.toResponder;
    } else if f.isAnswer {
      AnswerIsFlow(i, r, s.toResponder, s.toInitiator);
      MeetKeepsSide(s.initiator, f.contents, factory);
      MeetKeepsFlows(r, i, s.toInitiator, s.toResponder, done.side.peer);
      UsedIdsAny(s.used, i.pending, s.toResponder);
      assert s.toResponder + [] == s.toResponder;
    } else {
      OfferIsFlow(r, i, s.toInitiator, s.toResponder);
      AnswerKeepsSide(s.initiator, f.contents, factory);
      AnswerKeepsFlows(r, i, s.toInitiator, s.toResponder, done.side.peer, done.sent[0].contents);
      UsedIdsAny(s.used, i.pending, s.toResponder);
      UsedIdsAppend(s.used, None, s.toResponder, done.sent[0]);
    }
  }

  lemma DeliverToResponderKeeps(s: System, factory: AnswerFactory)
    requires Inv(s) && Enabled(s, Deliver(false, factory))
    ensures Inv(Next(s, Deliver(false, factory)))
  {
    hide Flow, SideInv, Shape, UsedIds, SetRemote, AnswersWell, Matches, SameSsrcs, DistinctSsrcs, NoAnswer;
    var i, r, f := s.initiator.peer, s.responder.peer, s.toResponder[0];
    HeadToResponder(i.pending, r.pending, s.toResponder, s.toInitiator);
    UsedIdsTail(s.used, i.pending, s.toResponder);
    var done := ReceiveBy(s.responder, f.contents, factory);
    UsedIdsAny(s.used, r.pending, s.toInitiator);
    if f.isAnswer {
      AnswerIsFlow(r, i, s.toInitiator, s.toResponder);
      MeetKeepsSide(s.responder, f.contents, factory);
      MeetKeepsFlows(i, r, s.toResponder, s.toInitiator, done.side.peer);
      assert s.toInitiator + [] == s.toInitiator;
    } else {
      NumberedInside(s.responder);
      OfferIsFlow(i, r, s.toResponder, s.toInitiator);
      AnswerKeepsSide(s.responder, f.contents, factory);
      AnswerKeepsFlows(i, r, s.toResponder, s.toInitiator, done.side.peer, done.sent[0].contents);
      UsedIdsAppend(s.used, None, s.toInitiator, done.sent[0]);
    }
  }

  lemma UsedIdsAny(used: set<uint32>, pending: Option<uint32>, queue: seq<Flight>)
    requires UsedIds(used, pending, queue)
    ensures UsedIds(used, None, queue)
  {
  }

  /** Offers that cross that of the call initiator change nothing there. */
  lemma Ignores(side: Side, contents: Contents, factory: AnswerFactory)
    requires side.peer.isOutgoing && side.peer.pending.Some? && side.peer.pending.value != contents.exchangeId
    ensures ReceiveBy(side, contents, factory) == Done(side, [])
  {
  }

  lemma AnswerIsFlow(p: Peer, q: Peer, toQ: seq<Flight>, toP: seq<Flight>)
    requires Flow(p, q, toQ, toP) && toP != [] && toP[0].isAnswer
    ensures toP[0].contents.contents == q.incoming && Matches(p.descriptions, toP[0].contents.contents)
  {
  }

  lemma OfferIsFlow(p: Peer, q: Peer, toQ: seq<Flight>, toP: seq<Flight>)
    requires Flow(p, q, toQ, toP) && toQ != [] && !toQ[0].isAnswer && p.pending == Some(toQ[0].contents.exchangeId)
    ensures Matches(p.descriptions, toQ[0].contents.contents) && DistinctSsrcs(toQ[0].contents.contents)
  {
  }

  lemma StepKeeps(s: System, step: Step)
    requires Inv(s) && Enabled(s, step)
    ensures Inv(Next(s, step))
  {
    match step
    case Add(_, _, _) => AddKeeps(s, step);
    case Offer(_, _, _) => OfferKeeps(s, step);
    case Deliver(toInitiator, factory) =>
      if toInitiator {
        DeliverToInitiatorKeeps(s, factory);
      } else {
        DeliverToResponderKeeps(s, factory);
      }
  }

  lemma {:induction false} RunKeeps(s: System, steps: seq<Step>, result: System)
    requires Inv(s) && Leads(s, steps, result)
    ensures Inv(result)
    decreases |steps|
  {
    hide Inv, Enabled, Next;
    if steps != [] {
      StepKeeps(s, steps[0]);
      RunKeeps(Next(s, steps[0]), steps[1..], result);
    }
  }

  // --- Main results

  /** In every reachable state, what comes next to a peer is an answer exactly when the peer has an
      offer pending with its exchange id: no answer is taken for an offer, no offer for an answer. */
  lemma {:induction false} AnswersMeetTheirOffers(steps: seq<Step>, s: System)
    requires Leads(NewSystem(), steps, s)
    ensures s.toInitiator != [] ==>
              (s.toInitiator[0].isAnswer <==> s.initiator.peer.pending == Some(s.toInitiator[0].contents.exchangeId))
    ensures s.toResponder != [] ==>
              (s.toResponder[0].isAnswer <==> s.responder.peer.pending == Some(s.toResponder[0].contents.exchangeId))
  {
    InitialInv();
    RunKeeps(NewSystem(), steps, s);
    var i, r := s.initiator.peer.pending, s.responder.peer.pending;
    if s.toInitiator != [] {
      HeadToInitiator(i, r, s.toResponder, s.toInitiator);
    }
    if s.toResponder != [] {
      HeadToResponder(i, r, s.toResponder, s.toInitiator);
    }
  }

  lemma {:induction false} AllAgreedAreDescribed(p: Peer, outgoing: seq<OutgoingChannel>)
    requires forall o | 0 <= o < |outgoing| :: FindDescription(p.descriptions, outgoing[o].id) < |p.descriptions|
    ensures Negotiation.OutgoingContents(p, outgoing) == AgreedContents(outgoing)
    decreases |outgoing|
  {
    if outgoing != [] {
      AllAgreedAreDescribed(p, outgoing[1..]);
      assert AgreedContents(outgoing) == [outgoing[0].content] + AgreedContents(outgoing[1..]);
    }
  }

  lemma CoordinatedIsAgreed(side: Side)
    requires SideInv(side)
    ensures Coordinated(side.peer) == CoordinatedState(AgreedContents(side.peer.outgoing), side.peer.incoming)
  {
    var p := side.peer;
    forall o | 0 <= o < |p.outgoing|
      ensures FindDescription(p.descriptions, p.outgoing[o].id) < |p.descriptions|
    {
      assert NamedBelow(p.outgoing[o].id, side.agreed);
      var k: nat :| k < side.agreed && p.outgoing[o].id == ChannelId(k);
      DescriptionIsFound(p.descriptions, k);
    }
    AllAgreedAreDescribed(p, p.outgoing);
  }

  /** When nothing is in flight, neither peer has an offer pending, and what each side says it sends
      is what the other says it receives. */
  lemma {:induction false} QuiescenceMeansAgreement(steps: seq<Step>, s: System)
    requires Leads(NewSystem(), steps, s)
    requires s.toInitiator == [] && s.toResponder == []
    ensures s.initiator.peer.pending.None? && s.responder.peer.pending.None?
    ensures Coordinated(s.initiator.peer).outgoingContents == Coordinated(s.responder.peer).incomingContents
    ensures Coordinated(s.responder.peer).outgoingContents == Coordinated(s.initiator.peer).incomingContents
  {
    InitialInv();
    RunKeeps(NewSystem(), steps, s);
    CoordinatedIsAgreed(s.initiator);
    CoordinatedIsAgreed(s.responder);
  }

  /** Every channel of the peer has been agreed on. */
  ghost predicate AllAgreed(p: Peer) {
    forall d | 0 <= d < |p.descriptions| :: HasChannel(p.outgoing, p.descriptions[d].description.mid)
  }

  lemma AllAgreedIff(side: Side)
    requires SideInv(side)
    ensures AllAgreed(side.peer) <==> side.agreed == |side.peer.descriptions|
  {
    var p := side.peer;
    forall d | 0 <= d < |p.descriptions|
      ensures HasChannel(p.outgoing, p.descriptions[d].description.mid) <==> d < side.agreed
    {
      assert p.descriptions[d].description.mid == ChannelId(d);
    }
    assert side.agreed < |p.descriptions| ==> !HasChannel(p.outgoing, p.descriptions[side.agreed].description.mid);
  }

  /** When nothing is in flight and neither peer wants to negotiate, every channel of the call
      initiator is agreed on; those of the responder are exactly if it had all of them in its last
      offer that was answered, and that is exactly if it did not, since then, drop an offer that had
      more channels for one that crossed it. */
  lemma {:induction false} ChannelsAgreedIff(steps: seq<Step>, s: System)
    requires Leads(NewSystem(), steps, s)
    requires s.toInitiator == [] && s.toResponder == []
    requires !s.initiator.peer.needNegotiation && !s.responder.peer.needNegotiation
    ensures AllAgreed(s.initiator.peer)
    ensures AllAgreed(s.responder.peer) <==> s.responder.agreed == |s.responder.peer.descriptions|
    ensures AllAgreed(s.responder.peer) <==> !s.dropped
  {
    InitialInv();
    RunKeeps(NewSystem(), steps, s);
    AllAgreedIff(s.initiator);
    AllAgreedIff(s.responder);
  }

  // --- The order of the media sections

  lemma PeerOrderGrows(
      side: Side, newId: uint32, offerFactory: OfferFactory, contents: Contents, answerFactory: AnswerFactory)
    requires Tidy(side.peer)
    ensures side.peer.order <= OfferBy(side, newId, offerFactory).side.peer.order
    ensures side.peer.order <= ReceiveBy(side, contents, answerFactory).side.peer.order
  {
    hide OfferOptions, RebuildOffer, CurrentDescription;
    OfferListsEveryId(side.peer);
    AnswerFollowsOffer(side.peer, contents.contents);
    AnswerFollowsOffer(side.peer.(pending := None), contents.contents);
  }

  lemma StepKeepsOrder(s: System, step: Step)
    requires Inv(s) && Enabled(s, step)
    ensures s.initiator.peer.order <= Next(s, step).initiator.peer.order
    ensures s.responder.peer.order <= Next(s, step).responder.peer.order
  {
    hide OfferBy, ReceiveBy, AddBy, Shape, Flow, UsedIds, OffersWell, AnswersWell, Tidy, Numbered, AgreedUpTo;
    match step
    case Add(byInitiator, kind, extensions) => AddKeepsOrder(if byInitiator then s.initiator else s.responder, kind, extensions);
    case Offer(byInitiator, newId, factory) =>
      PeerOrderGrows(if byInitiator then s.initiator else s.responder, newId, factory, Contents(0, []), (x, y, z) => None);
    case Deliver(true, factory) =>
      PeerOrderGrows(s.initiator, 0, (x, y) => None, s.toInitiator[0].contents, factory);
    case Deliver(false, factory) =>
      PeerOrderGrows(s.responder, 0, (x, y) => None, s.toResponder[0].contents, factory);
  }

  lemma AddKeepsOrder(side: Side, kind: Kind, extensions: seq<byte>)
    ensures AddBy(side, kind, extensions).peer.order == side.peer.order
  {
  }

  /** Over any run from a reachable state the order of ids only grows at its end, and no id is in
      it twice: an id keeps its media section for the whole call. */
  lemma {:induction false} OrderIsAppendOnly(s: System, steps: seq<Step>, result: System)
    requires Inv(s) && Leads(s, steps, result)
    ensures s.initiator.peer.order <= result.initiator.peer.order && NoRepeats(result.initiator.peer.order)
    ensures s.responder.peer.order <= result.responder.peer.order && NoRepeats(result.responder.peer.order)
    decreases |steps|
  {
    hide Enabled, Next;
    if steps != [] {
      StepKeeps(s, steps[0]);
      StepKeepsOrder(s, steps[0]);
      OrderIsAppendOnly(Next(s, steps[0]), steps[1..], result);
    }
  }
}
