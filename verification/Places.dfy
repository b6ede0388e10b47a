// The place of an id among the media sections: over a whole call, offers and answers of a peer list it at the same place.
// And what a peer that has something to say offers.
module Places {
  import opened Prelude
  import opened Bytes
  import opened Negotiation
  import opened OfferAnswer
  import opened Settling
  import opened Exchange

  predicate IsFor(option: MediaOption, id: Id) {
    option.mid == id || option.mid == InactiveId(id)
  }

  ghost predicate SamePlace(a: MediaOption, b: MediaOption) {
    exists id :: IsFor(a, id) && IsFor(b, id)
  }

  /** What is listed first is listed at the same places later. */
  ghost predicate KeepPlaces(a: seq<MediaOption>, b: seq<MediaOption>) {
    |a| <= |b| && forall k | 0 <= k < |a| :: SamePlace(a[k], b[k])
  }

  /** An offer is made. */
  predicate Offers(p: Peer) {
    p.needNegotiation && p.pending.None?
  }

  /** What comes in is answered. */
  predicate Answers(p: Peer, contents: Contents) {
    p.pending.None? || (!p.isOutgoing && p.pending != Some(contents.exchangeId))
  }

  /** The options with which a step makes the side ask its factory for an offer or an answer; none if it does not. */
  ghost function AskedFor(s: System, step: Step, ofInitiator: bool): seq<MediaOption>
    requires Enabled(s, step)
  {
    var p := (if ofInitiator then s.initiator else s.responder).peer;
    match step
    case Add(_, _, _) => []
    case Offer(byInitiator, _, _) => if byInitiator == ofInitiator && Offers(p) then OfferOptions(p).options else []
    case Deliver(toInitiator, _) =>
      var contents := (if ofInitiator then s.toInitiator else s.toResponder);
      if toInitiator == ofInitiator && Answers(p, contents[0].contents) then
        RebuildOffer(p, contents[0].contents.contents).lines.options
      else []
  }

  lemma PlacesKept(a: seq<MediaOption>, first: seq<Id>, b: seq<MediaOption>, later: seq<Id>)
    requires OnePerId(a, first) && OnePerId(b, later) && first <= later
    ensures KeepPlaces(a, b)
  {
    forall k | 0 <= k < |a|
      ensures SamePlace(a[k], b[k])
    {
      assert first[k] == later[k];
      assert IsFor(a[k], first[k]) && IsFor(b[k], first[k]);
    }
  }

  lemma OfferIsPlaced(side: Side, newId: uint32, factory: OfferFactory)
    requires SideInv(side) && Offers(side.peer)
    ensures OnePerId(OfferOptions(side.peer).options, OfferBy(side, newId, factory).side.peer.order)
  {
    hide OfferOptions, CurrentDescription, GiveSsrcs, SentContents;
    OfferListsEveryId(side.peer);
  }

  lemma AnswerIsPlaced(side: Side, contents: Contents, factory: AnswerFactory)
    requires SideInv(side) && Answers(side.peer, contents)
    ensures OnePerId(RebuildOffer(side.peer, contents.contents).lines.options,
                     ReceiveBy(side, contents, factory).side.peer.order)
  {
    hide RebuildOffer, CurrentDescription, AcceptedContents;
    AnswerReceivesOffered(side.peer, contents.contents);
    SameWithoutPending(side.peer, contents.contents);
  }

  lemma SameWithoutPending(p: Peer, contents: seq<MediaContent>)
    ensures RebuildOffer(p.(pending := None), contents) == RebuildOffer(p, contents)
  {
    SameLines(p, contents, p.order);
  }

  lemma {:induction false} SameLines(p: Peer, contents: seq<MediaContent>, order: seq<Id>)
    ensures KnownLines(p.(pending := None), contents, order) == KnownLines(p, contents, order)
    decreases |order|
  {
    if order != [] {
      SameLines(p, contents, order[1..]);
    }
  }

  lemma StepIsPlaced(s: System, step: Step, ofInitiator: bool)
    requires Inv(s) && Enabled(s, step)
    ensures var t := Next(s, step);
            var order := (if ofInitiator then t.initiator else t.responder).peer.order;
            var asked := AskedFor(s, step, ofInitiator);
            asked == [] || OnePerId(asked, order)
  {
    hide OfferBy, ReceiveBy, OfferOptions, RebuildOffer, SideInv, Shape, Flow, UsedIds, OnePerId, MayOffer, AnswersWell;
    var side := if ofInitiator then s.initiator else s.responder;
    match step
    case Add(_, _, _) =>
    case Offer(byInitiator, newId, factory) =>
      if byInitiator == ofInitiator && Offers(side.peer) {
        OfferIsPlaced(side, newId, factory);
      }
    case Deliver(toInitiator, factory) =>
      var contents := if ofInitiator then s.toInitiator else s.toResponder;
      if toInitiator == ofInitiator && Answers(side.peer, contents[0].contents) {
        AnswerIsPlaced(side, contents[0].contents, factory);
      }
  }

  lemma LaterIsPlaced(p: Peer, contents: seq<MediaContent>)
    requires Tidy(p)
    ensures OnePerId(OfferOptions(p).options, OfferOptions(p).order) && p.order <= OfferOptions(p).order
    ensures OnePerId(RebuildOffer(p, contents).lines.options, RebuildOffer(p, contents).order)
    ensures p.order <= RebuildOffer(p, contents).order
  {
    hide OfferOptions, RebuildOffer;
    OfferListsEveryId(p);
    AnswerReceivesOffered(p, contents);
    AnswerFollowsOffer(p, contents);
  }

  /** Whatever an offer or an answer of a side lists, every later offer and answer of that side lists at the same places,
      whatever happens in between. */
  lemma {:induction false} SectionsKeepPlace(
      before: seq<Step>, s: System, step: Step, steps: seq<Step>, r: System, ofInitiator: bool, contents: seq<MediaContent>)
    requires Leads(NewSystem(), before, s) && Enabled(s, step) && Leads(Next(s, step), steps, r)
    ensures var q := (if ofInitiator then r.initiator else r.responder).peer;
            && KeepPlaces(AskedFor(s, step, ofInitiator), OfferOptions(q).options)
            && KeepPlaces(AskedFor(s, step, ofInitiator), RebuildOffer(q, contents).lines.options)
  {
    hide Next, Enabled, AskedFor, Leads, OfferOptions, RebuildOffer, KeepPlaces, OnePerId, SideInv, Flow, UsedIds, Shape;
    InitialInv();
    RunKeeps(NewSystem(), before, s);
    StepKeeps(s, step);
    RunKeeps(Next(s, step), steps, r);
    OrderIsAppendOnly(Next(s, step), steps, r);
    StepIsPlaced(s, step, ofInitiator);
    var side := if ofInitiator then r.initiator else r.responder;
    SideIsTidy(side);
    LaterIsPlaced(side.peer, contents);
    var asked := AskedFor(s, step, ofInitiator);
    if asked == [] {
      NothingKept(OfferOptions(side.peer).options);
      NothingKept(RebuildOffer(side.peer, contents).lines.options);
    } else {
      var t := Next(s, step);
      var order := (if ofInitiator then t.initiator else t.responder).peer.order;
      PlacesKept(asked, order, OfferOptions(side.peer).options, OfferOptions(side.peer).order);
      PlacesKept(asked, order, RebuildOffer(side.peer, contents).lines.options, RebuildOffer(side.peer, contents).order);
    }
  }

  lemma SideIsTidy(side: Side)
    requires SideInv(side)
    ensures Tidy(side.peer)
  {
  }

  lemma NothingKept(b: seq<MediaOption>)
    ensures KeepPlaces([], b)
  {
  }

  // --- Who has something to say

  /** From any reachable state: a side with a channel that its last offer did not have, or at the very start, makes an
      offer as soon as none is pending, and it is for all its channels. */
  lemma {:induction false} NewChannelsAreOffered(
      steps: seq<Step>, s: System, ofInitiator: bool, newId: uint32, factory: OfferFactory)
    requires Leads(NewSystem(), steps, s)
    requires var side := if ofInitiator then s.initiator else s.responder;
             && side.peer.pending.None? && OffersWell(side.peer, factory)
             && (side.offered < |side.peer.descriptions| || side.peer == NewPeer(ofInitiator))
    ensures var side := if ofInitiator then s.initiator else s.responder;
            var done := OfferBy(side, newId, factory);
            && |done.sent| == 1 && !done.sent[0].isAnswer
            && Numbered(done.side.peer.descriptions, |side.peer.descriptions|)
            && Matches(done.side.peer.descriptions, done.sent[0].contents.contents)
  {
    hide GetPendingOffer, OffersWell, Numbered, Matches, Flow, UsedIds, Shape, Leads, AgreedUpTo;
    InitialInv();
    RunKeeps(NewSystem(), steps, s);
    var side := if ofInitiator then s.initiator else s.responder;
    OfferSettles(side.peer, newId, factory);
  }

  /** A channel is in the next offer with the kind and the extensions it was added with, to be sent, under an id of
      its own. */
  lemma AddedIsOffered(p: Peer, kind: Kind, extensions: seq<byte>) returns (k: nat)
    requires Tidy(p)
    ensures var added := AddOutgoingChannel(p, kind, extensions); var options := OfferOptions(added).options;
            && k < |options| && options[k] == MediaOption(kind, ChannelId(|p.descriptions|), SendOnly, extensions)
            && forall d | 0 <= d < |p.descriptions| :: p.descriptions[d].description.mid != options[k].mid
  {
    hide OfferOptions;
    var added := AddOutgoingChannel(p, kind, extensions);
    AddKeepsTidy(p, kind, extensions);
    OfferListsEveryId(added);
    var last := added.descriptions[|p.descriptions|].description;
    k :| 0 <= k < |OfferOptions(added).order| && OfferOptions(added).order[k] == last.mid;
    forall d | 0 <= d < |p.descriptions|
      ensures p.descriptions[d].description.mid != last.mid
    {
      ChannelIdsDiffer(d, |p.descriptions|);
    }
  }

  lemma AddKeepsTidy(p: Peer, kind: Kind, extensions: seq<byte>)
    requires Tidy(p)
    ensures Tidy(AddOutgoingChannel(p, kind, extensions))
  {
  }
}
