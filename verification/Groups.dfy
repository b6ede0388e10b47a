// What the contents of offers and answers are made of: each offered content is that of the factory's section
// for its channel, each answered one is that of the factory's section for it with source number and groups as
// offered; and over whole runs each agreed channel has the groups with which it was offered.
module Groups {
  import opened Prelude
  import opened Bytes
  import opened Negotiation
  import opened OfferAnswer
  import opened Settling
  import opened Exchange

  // --- One offer

  /** The content c is that of a section that sends, whose channel was given its source number. */
  ghost predicate OfferedFrom(sections: seq<Section>, channels: seq<PendingChannel>, c: MediaContent, k: nat, d: nat) {
    && k < |sections| && d < |channels|
    && sections[k].direction == SendOnly && sections[k].content == c
    && channels[d].description.mid == sections[k].mid && channels[d].ssrc == c.ssrc
  }

  ghost predicate HasSection(sections: seq<Section>, channels: seq<PendingChannel>, c: MediaContent) {
    exists k: nat, d: nat :: OfferedFrom(sections, channels, c, k, d)
  }

  lemma {:induction false} SentIsOfSection(sections: seq<Section>, c: MediaContent) returns (k: nat)
    requires c in SentContents(sections)
    ensures k < |sections| && sections[k].direction == SendOnly && sections[k].content == c
    decreases |sections|
  {
    if sections[0].direction == SendOnly && sections[0].content == c {
      k := 0;
    } else {
      k := SentIsOfSection(sections[1..], c);
      k := k + 1;
    }
  }

  lemma {:induction false} SectionIsSent(sections: seq<Section>, k: nat)
    requires k < |sections| && sections[k].direction == SendOnly
    ensures sections[k].content in SentContents(sections)
    decreases |sections|
  {
    if k > 0 {
      SectionIsSent(sections[1..], k - 1);
      assert sections[k] == sections[1..][k - 1];
    }
  }

  lemma ChannelOfSection(p: Peer, sections: seq<Section>, k: nat) returns (d: nat)
    requires Tidy(p) && OfferMade(p, sections) && k < |sections| && sections[k].direction == SendOnly
    ensures d < |p.descriptions| && p.descriptions[d].description.mid == sections[k].mid
    ensures LastSent(sections, p.descriptions[d].description.mid) == Some(sections[k].content.ssrc)
  {
    hide OfferOptions, LastSent;
    OfferListsEveryId(p);
    d :| 0 <= d < |p.descriptions| && OfferOptions(p).options[k] == p.descriptions[d].description;
    var j := ChannelIsOffered(p, sections, d);
    assert sections[k].mid == OfferOptions(p).options[k].mid && sections[j].mid == OfferOptions(p).options[j].mid;
    assert j == k;
  }

  lemma {:induction false} SentHasChannel(p: Peer, sections: seq<Section>, c: MediaContent)
    requires Tidy(p) && OfferMade(p, sections) && c in SentContents(sections)
    ensures HasSection(sections, GiveSsrcs(p.descriptions, sections), c)
  {
    hide OfferMade, GiveSsrcs, LastSent;
    GiveSsrcsGives(p.descriptions, sections);
    var k := SentIsOfSection(sections, c);
    var d := ChannelOfSection(p, sections, k);
    assert OfferedFrom(sections, GiveSsrcs(p.descriptions, sections), c, k, d);
  }

  /** An offer has exactly the contents of the sections that send, and each such section gives its source number
      to the channel with its mid. */
  lemma {:induction false} OfferIsOfSections(p: Peer, newId: uint32, factory: OfferFactory)
    requires Tidy(p) && OffersWell(p, factory) && p.needNegotiation && p.pending.None?
    ensures GetPendingOffer(p, newId, factory).sent.Some?
    ensures var r := GetPendingOffer(p, newId, factory);
            var sections := factory(OfferOptions(p).options, CurrentDescription(p, p.order)).value;
            forall c | c in r.sent.value.contents :: HasSection(sections, r.peer.descriptions, c)
    ensures var r := GetPendingOffer(p, newId, factory);
            var sections := factory(OfferOptions(p).options, CurrentDescription(p, p.order)).value;
            forall k | 0 <= k < |sections| && sections[k].direction == SendOnly ::
              sections[k].content in r.sent.value.contents
  {
    hide OfferOptions, CurrentDescription, GiveSsrcs, SentContents, DistinctSsrcs, FollowsOptions, HasSection;
    var sections := factory(OfferOptions(p).options, CurrentDescription(p, p.order)).value;
    var r := GetPendingOffer(p, newId, factory);
    forall c | c in r.sent.value.contents
      ensures HasSection(sections, r.peer.descriptions, c)
    {
      SentHasChannel(p, sections, c);
    }
    forall k | 0 <= k < |sections| && sections[k].direction == SendOnly
      ensures sections[k].content in r.sent.value.contents
    {
      SectionIsSent(sections, k);
    }
  }

  // --- One answer

  /** The content a answers c: that of a section to receive it, with source number and groups as offered. */
  ghost predicate AnswersContent(sections: seq<Section>, a: MediaContent, c: MediaContent, k: nat) {
    && k < |sections| && sections[k].direction == RecvOnly && sections[k].mid == SsrcId(c.ssrc)
    && a == sections[k].content.(ssrc := c.ssrc, ssrcGroups := c.ssrcGroups)
  }

  lemma {:induction false} AcceptedIsOfSection(
      sections: seq<Section>, offered: seq<MediaContent>, a: MediaContent) returns (k: nat)
    requires a in AcceptedContents(sections, offered)
    ensures k < |sections| && sections[k].direction == RecvOnly && a == AsOffered(sections[k], offered)
    decreases |sections|
  {
    hide AsOffered;
    if sections[0].direction == RecvOnly && a == AsOffered(sections[0], offered) {
      k := 0;
    } else {
      k := AcceptedIsOfSection(sections[1..], offered, a);
      k := k + 1;
    }
  }

  lemma {:induction false} AnswerAnswers(sections: seq<Section>, offered: seq<MediaContent>, a: MediaContent)
    requires AnswerShape(sections, offered) && a in AcceptedContents(sections, offered)
    ensures exists c, k: nat :: c in offered && AnswersContent(sections, a, c, k)
  {
    var k := AcceptedIsOfSection(sections, offered, a);
    assert Offered(offered, sections[k].mid);
    var c := offered[FindContent(offered, sections[k].mid)];
    assert c in offered && AnswersContent(sections, a, c, k);
  }

  lemma {:induction false} AcceptedKeepGroups(sections: seq<Section>, offered: seq<MediaContent>)
    requires AnswerShape(sections, offered)
    ensures var contents := AcceptedContents(sections, offered);
            && (forall a | a in contents :: exists c, k: nat :: c in offered && AnswersContent(sections, a, c, k))
            && GroupsFrom(contents, offered)
  {
    hide AcceptedContents, AnswersContent, AnswerShape;
    var contents := AcceptedContents(sections, offered);
    forall a | a in contents
      ensures exists c, k: nat :: c in offered && AnswersContent(sections, a, c, k)
      ensures exists c :: c in offered && c.ssrc == a.ssrc && c.ssrcGroups == a.ssrcGroups
    {
      AnswerAnswers(sections, offered, a);
      var c, k: nat :| c in offered && AnswersContent(sections, a, c, k);
      AnsweredHasGroups(sections, a, c, k);
    }
  }

  /** Every content of an answer is that of the factory's section to receive an offered content, but for source
      number and groups, which are as offered. */
  lemma {:induction false} AnswerKeepsGroups(p: Peer, offer: Contents, factory: AnswerFactory)
    requires Tidy(p) && AnswersWell(p, offer.contents, factory) && DistinctSsrcs(offer.contents)
    ensures var r, g := GetAnswer(p, offer, factory), RebuildOffer(p, offer.contents).lines;
            var answer := factory(g.offer, g.options, CurrentDescription(p, p.order));
            && r.sent == Some(Contents(offer.exchangeId, r.peer.incoming)) && answer.Some?
            && (forall a | a in r.peer.incoming ::
                  exists c, k: nat :: c in offer.contents && AnswersContent(answer.value, a, c, k))
            && GroupsFrom(r.peer.incoming, offer.contents)
  {
    hide RebuildOffer, CurrentDescription, AcceptedContents, FollowsOptions, SameMids, AnswersContent, GroupsFrom;
    hide AnswerShape, DistinctSsrcs;
    AnswerFollowsOffer(p, offer.contents);
    var g := RebuildOffer(p, offer.contents).lines;
    var sections := factory(g.offer, g.options, CurrentDescription(p, p.order)).value;
    AnswerHasShape(p, offer.contents, sections);
    AcceptedKeepGroups(sections, offer.contents);
  }

  lemma AnsweredHasGroups(sections: seq<Section>, a: MediaContent, c: MediaContent, k: nat)
    requires AnswersContent(sections, a, c, k)
    ensures a.ssrc == c.ssrc && a.ssrcGroups == c.ssrcGroups
  {
  }

  /** Each of these contents has the groups of the one with its source number. */
  ghost predicate GroupsFrom(contents: seq<MediaContent>, offered: seq<MediaContent>) {
    forall a | a in contents :: exists c :: c in offered && c.ssrc == a.ssrc && c.ssrcGroups == a.ssrcGroups
  }

  /** Source numbers are distinct, so there is only one such content. */
  lemma GroupsAreEqual(contents: seq<MediaContent>, offered: seq<MediaContent>, a: MediaContent, c: MediaContent)
    requires GroupsFrom(contents, offered) && DistinctSsrcs(offered)
    requires a in contents && c in offered && a.ssrc == c.ssrc
    ensures a.ssrcGroups == c.ssrcGroups
  {
    var o :| o in offered && o.ssrc == a.ssrc && o.ssrcGroups == a.ssrcGroups;
    var i :| 0 <= i < |offered| && offered[i] == o;
    var j :| 0 <= j < |offered| && offered[j] == c;
    assert i == j;
  }

  // --- The answer at the offering side

  lemma AgreedGoesToItsChannel(p: Peer, answer: Contents, n: nat)
    requires Tidy(p) && p.pending == Some(answer.exchangeId)
    requires Numbered(p.descriptions, n) && Matches(p.descriptions, answer.contents)
    ensures var outgoing := SetAnswer(p, answer).outgoing;
            forall o | 0 <= o < |outgoing| :: IsForChannel(p.descriptions, outgoing[o])
    ensures AgreedContents(SetAnswer(p, answer).outgoing) == answer.contents
  {
    hide MatchAnswer, FindSsrc, Given;
    MatchAnswerTakes(p.descriptions, answer.contents);
    var outgoing := SetAnswer(p, answer).outgoing;
    forall o | 0 <= o < |outgoing|
      ensures IsForChannel(p.descriptions, outgoing[o])
    {
      var i := FindSsrc(p.descriptions, answer.contents[o].ssrc);
      assert outgoing[o].content == answer.contents[o];
      assert outgoing[o].id == p.descriptions[i].description.mid;
    }
  }

  /** The channel has the id of the one that was given the source number of its content. */
  ghost predicate IsForChannel(channels: seq<PendingChannel>, o: OutgoingChannel) {
    exists d :: 0 <= d < |channels| && channels[d].ssrc == o.content.ssrc != 0 && channels[d].description.mid == o.id
  }

  // --- Whole runs, with a memory of the offers

  /** An offer as it was made: its contents, and the channels with the source numbers it gave them. */
  datatype Made = Made(contents: seq<MediaContent>, channels: seq<PendingChannel>)

  /** The last offer a peer made, and the last that was answered. */
  datatype Memory = Memory(last: Made, answered: Made)

  datatype Remembered = Remembered(system: System, initiator: Memory, responder: Memory)

  function MadeBy(side: Side, m: Memory, newId: uint32, factory: OfferFactory): Memory {
    var done := OfferBy(side, newId, factory);
    if done.sent == [] then m else m.(last := Made(done.sent[0].contents.contents, done.side.peer.descriptions))
  }

  function MetBy(side: Side, m: Memory, contents: Contents): Memory {
    if side.peer.pending == Some(contents.exchangeId) then m.(answered := m.last) else m
  }

  function NextRemembered(t: Remembered, step: Step): Remembered
    requires Enabled(t.system, step)
  {
    var s := t.system;
    var next := t.(system := Next(s, step));
    match step
    case Add(_, _, _) => next
    case Offer(true, newId, factory) => next.(initiator := MadeBy(s.initiator, t.initiator, newId, factory))
    case Offer(false, newId, factory) => next.(responder := MadeBy(s.responder, t.responder, newId, factory))
    case Deliver(true, _) => next.(initiator := MetBy(s.initiator, t.initiator, s.toInitiator[0].contents))
    case Deliver(false, _) => next.(responder := MetBy(s.responder, t.responder, s.toResponder[0].contents))
  }

  ghost predicate LeadsRemembering(t: Remembered, steps: seq<Step>, result: Remembered)
    decreases |steps|
  {
    if steps == [] then t == result
    else Enabled(t.system, steps[0]) && LeadsRemembering(NextRemembered(t, steps[0]), steps[1..], result)
  }

  const NO_OFFER: Made := Made([], [])

  function NewRemembered(): Remembered {
    Remembered(NewSystem(), Memory(NO_OFFER, NO_OFFER), Memory(NO_OFFER, NO_OFFER))
  }

  /** A channel as it was agreed on: one of those of the offer, with the source number and the groups that the
      offer had for it. */
  ghost predicate AsMade(o: OutgoingChannel, made: Made) {
    && IsForChannel(made.channels, o)
    && exists c :: c in made.contents && c.ssrc == o.content.ssrc && c.ssrcGroups == o.content.ssrcGroups
  }

  ghost predicate AgreedAsMade(p: Peer, made: Made) {
    forall i | 0 <= i < |p.outgoing| :: AsMade(p.outgoing[i], made)
  }

  /** While an offer is pending, channels are only added to those it was made with. */
  ghost predicate OnlyAdded(p: Peer, made: Made) {
    && made.channels <= p.descriptions
    && forall d | |made.channels| <= d < |p.descriptions| :: p.descriptions[d].ssrc == 0
  }

  /** Of p, which talks to a peer over toQ, and from it over toP. */
  ghost predicate Kept(p: Peer, m: Memory, toQ: seq<Flight>, toP: seq<Flight>) {
    && (p.pending.Some? ==> OnlyAdded(p, m.last))
    && (forall k | 0 <= k < |toQ| && !toQ[k].isAnswer && p.pending == Some(toQ[k].contents.exchangeId) ::
          toQ[k].contents.contents == m.last.contents)
    && (forall k | 0 <= k < |toP| && toP[k].isAnswer :: GroupsFrom(toP[k].contents.contents, m.last.contents))
    && AgreedAsMade(p, m.answered)
  }

  ghost predicate AllKept(t: Remembered) {
    var s := t.system;
    && Inv(s)
    && Kept(s.initiator.peer, t.initiator, s.toResponder, s.toInitiator)
    && Kept(s.responder.peer, t.responder, s.toInitiator, s.toResponder)
    && DistinctSsrcs(s.initiator.peer.incoming) && DistinctSsrcs(s.responder.peer.incoming)
  }

  lemma AddKept(p: Peer, m: Memory, toQ: seq<Flight>, toP: seq<Flight>, kind: Kind, extensions: seq<byte>)
    requires Kept(p, m, toQ, toP)
    ensures Kept(AddOutgoingChannel(p, kind, extensions), m, toQ, toP)
  {
    hide GroupsFrom, AsMade;
  }

  /** p offers, nothing being on its way to it that it waits for. */
  lemma OfferKept(side: Side, m: Memory, toQ: seq<Flight>, toP: seq<Flight>, newId: uint32, factory: OfferFactory)
    requires Kept(side.peer, m, toQ, toP) && NoAnswer(toP)
    requires side.peer.needNegotiation && side.peer.pending.None? && Tidy(side.peer) && OffersWell(side.peer, factory)
    requires forall k | 0 <= k < |toQ| :: toQ[k].contents.exchangeId != newId
    ensures var done := OfferBy(side, newId, factory);
            Kept(done.side.peer, MadeBy(side, m, newId, factory), toQ + done.sent, toP)
  {
    hide GetPendingOffer, GroupsFrom, AsMade, OffersWell, Tidy, Matches, Numbered;
    OfferSettles(side.peer, newId, factory);
    var done := OfferBy(side, newId, factory);
    var more := toQ + done.sent;
    assert forall k | 0 <= k < |toQ| :: more[k] == toQ[k];
  }

  /** p's offer is answered by q. */
  lemma AnsweredKept(p: Peer, m: Memory, toQ: seq<Flight>, toP: seq<Flight>, answer: Flight)
    requires Kept(p, m, toQ, toP) && toQ != [] && !toQ[0].isAnswer && p.pending == Some(toQ[0].contents.exchangeId)
    requires answer.isAnswer && GroupsFrom(answer.contents.contents, toQ[0].contents.contents)
    ensures Kept(p, m, toQ[1..], toP + [answer])
  {
    hide AsMade, OnlyAdded;
  }

  /** Something else of p's reaches q, or nothing comes of it. */
  lemma TakenKept(p: Peer, m: Memory, toQ: seq<Flight>, toP: seq<Flight>)
    requires Kept(p, m, toQ, toP) && toQ != []
    ensures Kept(p, m, toQ[1..], toP)
  {
    hide AsMade, OnlyAdded, GroupsFrom;
  }

  /** q answers p's offer, having dropped its own. */
  lemma AnswererKept(q: Peer, m: Memory, toP: seq<Flight>, toQ: seq<Flight>, q': Peer, answer: seq<Flight>)
    requires Kept(q, m, toP, toQ) && toQ != [] && q'.pending.None? && q'.outgoing == q.outgoing
    requires forall k | 0 <= k < |answer| :: answer[k].isAnswer
    ensures Kept(q', m, toP + answer, toQ[1..])
  {
    hide AsMade, OnlyAdded, GroupsFrom;
  }

  lemma StillItsChannel(p: Peer, made: Made, o: OutgoingChannel)
    requires OnlyAdded(p, made) && IsForChannel(p.descriptions, o)
    ensures IsForChannel(made.channels, o)
  {
    var d :| 0 <= d < |p.descriptions|
             && p.descriptions[d].ssrc == o.content.ssrc != 0 && p.descriptions[d].description.mid == o.id;
    assert made.channels[d] == p.descriptions[d];
  }

  /** p's offer has been answered: what it agrees on is as it made it. */
  lemma MetKept(side: Side, m: Memory, toQ: seq<Flight>, toP: seq<Flight>, factory: AnswerFactory)
    requires Kept(side.peer, m, toQ, toP) && toP != [] && toP[0].isAnswer && SideInv(side)
    requires side.peer.pending == Some(toP[0].contents.exchangeId)
    requires Matches(side.peer.descriptions, toP[0].contents.contents) && NoAnswer(toP[1..])
    ensures var done := ReceiveBy(side, toP[0].contents, factory);
            done.sent == [] && Kept(done.side.peer, MetBy(side, m, toP[0].contents), toQ, toP[1..])
  {
    hide AsMade, OnlyAdded, GroupsFrom, Matches, Numbered, AgreedUpTo, MatchAnswer, IsForChannel;
    var p, answer := side.peer, toP[0].contents;
    AgreedGoesToItsChannel(p, answer, side.offered);
    var outgoing := SetAnswer(p, answer).outgoing;
    forall o | 0 <= o < |outgoing|
      ensures AsMade(outgoing[o], m.last)
    {
      StillItsChannel(p, m.last, outgoing[o]);
      assert AgreedContents(outgoing)[o] == outgoing[o].content;
      MetAsMade(answer.contents, m.last, outgoing[o]);
    }
  }

  lemma MetAsMade(contents: seq<MediaContent>, made: Made, o: OutgoingChannel)
    requires GroupsFrom(contents, made.contents) && o.content in contents && IsForChannel(made.channels, o)
    ensures AsMade(o, made)
  {
    hide IsForChannel;
  }

  // --- Every step

  /** q offers: that is nothing p waits for. */
  lemma OtherOffersKept(p: Peer, m: Memory, toQ: seq<Flight>, toP: seq<Flight>, sent: seq<Flight>)
    requires Kept(p, m, toQ, toP) && NoAnswer(sent)
    ensures Kept(p, m, toQ, toP + sent)
  {
    hide AsMade, OnlyAdded, GroupsFrom;
  }

  lemma NoneComes(i: Option<uint32>, r: Option<uint32>, toResponder: seq<Flight>, toInitiator: seq<Flight>)
    requires Shape(i, r, toResponder, toInitiator)
    ensures i.None? ==> NoAnswer(toInitiator)
    ensures r.None? ==> NoAnswer(toResponder)
  {
  }

  lemma OffersOnly(side: Side, newId: uint32, factory: OfferFactory)
    ensures NoAnswer(OfferBy(side, newId, factory).sent)
    ensures OfferBy(side, newId, factory).side.peer.incoming == side.peer.incoming
    ensures !side.peer.needNegotiation || side.peer.pending.Some? ==> OfferBy(side, newId, factory) == Done(side, [])
  {
  }

  /** Whether an offer comes of it or not. */
  lemma OffersKept(
      side: Side, m: Memory, toQ: seq<Flight>, toP: seq<Flight>, used: set<uint32>, newId: uint32, factory: OfferFactory)
    requires Kept(side.peer, m, toQ, toP) && SideInv(side) && (side.peer.pending.None? ==> NoAnswer(toP))
    requires UsedIds(used, side.peer.pending, toQ) && MayOffer(side, used, newId, factory)
    ensures var done := OfferBy(side, newId, factory);
            Kept(done.side.peer, MadeBy(side, m, newId, factory), toQ + done.sent, toP)
  {
    hide Kept, GetPendingOffer, OffersWell, Tidy, Numbered, AgreedUpTo;
    if side.peer.needNegotiation && side.peer.pending.None? {
      NotUsedYet(used, newId, side.peer.pending, toQ);
      OfferKept(side, m, toQ, toP, newId, factory);
    } else {
      OffersOnly(side, newId, factory);
      assert toQ + [] == toQ;
    }
  }

  lemma OfferKeepsAll(t: Remembered, step: Step)
    requires AllKept(t) && step.Offer? && Enabled(t.system, step)
    ensures AllKept(NextRemembered(t, step))
  {
    hide Kept, OfferBy, SideInv, Flow, UsedIds, MayOffer, MadeBy, Shape, NoAnswer, DistinctSsrcs;
    var s, newId, factory := t.system, step.newId, step.offerFactory;
    var i, r := s.initiator, s.responder;
    StepKeeps(s, step);
    NoneComes(i.peer.pending, r.peer.pending, s.toResponder, s.toInitiator);
    if step.byInitiator {
      OffersKept(i, t.initiator, s.toResponder, s.toInitiator, s.used, newId, factory);
      OffersOnly(i, newId, factory);
      OtherOffersKept(r.peer, t.responder, s.toInitiator, s.toResponder, OfferBy(i, newId, factory).sent);
    } else {
      OffersKept(r, t.responder, s.toInitiator, s.toResponder, s.used, newId, factory);
      OffersOnly(r, newId, factory);
      OtherOffersKept(i.peer, t.initiator, s.toResponder, s.toInitiator, OfferBy(r, newId, factory).sent);
    }
  }

  /** q answers p's offer. */
  lemma AnswersKept(
      p: Peer, m: Memory, q: Side, n: Memory, toQ: seq<Flight>, toP: seq<Flight>, factory: AnswerFactory)
    requires Kept(p, m, toQ, toP) && Kept(q.peer, n, toP, toQ) && SideInv(q)
    requires toQ != [] && !toQ[0].isAnswer && p.pending == Some(toQ[0].contents.exchangeId)
    requires DistinctSsrcs(toQ[0].contents.contents)
    requires q.peer.pending != p.pending && (q.peer.pending.Some? ==> !q.peer.isOutgoing)
    requires AnswersWell(q.peer.(pending := None), toQ[0].contents.contents, factory)
    ensures var done := ReceiveBy(q, toQ[0].contents, factory);
            && Kept(p, m, toQ[1..], toP + done.sent)
            && Kept(done.side.peer, n, toP + done.sent, toQ[1..])
            && DistinctSsrcs(done.side.peer.incoming)
  {
    hide Kept, AnswersWell, Tidy, Numbered, AgreedUpTo, DistinctSsrcs, SameSsrcs, GroupsFrom, GetAnswer;
    var offer := toQ[0].contents;
    AnswerKeepsSide(q, offer, factory);
    TidyAnyPending(q.peer);
    AnswerGroups(q.peer.(pending := None), offer, factory);
    assert q.peer.pending.None? ==> q.peer.(pending := None) == q.peer;
    var done := ReceiveBy(q, offer, factory);
    AnsweredKept(p, m, toQ, toP, done.sent[0]);
    AnswererKept(q.peer, n, toP, toQ, done.side.peer, done.sent);
  }

  lemma AnswerGroups(p: Peer, offer: Contents, factory: AnswerFactory)
    requires Tidy(p) && AnswersWell(p, offer.contents, factory) && DistinctSsrcs(offer.contents)
    ensures GroupsFrom(GetAnswer(p, offer, factory).peer.incoming, offer.contents)
  {
    hide AnswersWell, Tidy, DistinctSsrcs, GroupsFrom, GetAnswer, AnswersContent;
    AnswerKeepsGroups(p, offer, factory);
  }

  /** An answer meets p's offer. */
  lemma MeetsKept(
      q: Peer, n: Memory, p: Side, m: Memory, toQ: seq<Flight>, toP: seq<Flight>, factory: AnswerFactory)
    requires Kept(p.peer, m, toQ, toP) && Kept(q, n, toP, toQ) && SideInv(p)
    requires toP != [] && toP[0].isAnswer && p.peer.pending == Some(toP[0].contents.exchangeId)
    requires Matches(p.peer.descriptions, toP[0].contents.contents) && NoAnswer(toP[1..])
    ensures var done := ReceiveBy(p, toP[0].contents, factory);
            && Kept(done.side.peer, MetBy(p, m, toP[0].contents), toQ + done.sent, toP[1..])
            && Kept(q, n, toP[1..], toQ + done.sent)
            && done.side.peer.incoming == p.peer.incoming
  {
    hide Kept, Matches, SideInv, MatchAnswer, MetBy, NoAnswer;
    MetKept(p, m, toQ, toP, factory);
    TakenKept(q, n, toP, toQ);
    assert toQ + [] == toQ;
  }

  lemma DeliverToInitiatorKeepsAll(t: Remembered, factory: AnswerFactory)
    requires AllKept(t) && Enabled(t.system, Deliver(true, factory))
    ensures AllKept(NextRemembered(t, Deliver(true, factory)))
  {
    hide Kept, ReceiveBy, SideInv, Flow, UsedIds, AnswersWell, Matches, DistinctSsrcs, Shape, NoAnswer;
    var s := t.system;
    var i, r, f := s.initiator, s.responder, s.toInitiator[0];
    StepKeeps(s, Deliver(true, factory));
    HeadToInitiator(i.peer.pending, r.peer.pending, s.toResponder, s.toInitiator);
    if i.peer.pending.Some? && !f.isAnswer {
      Ignores(i, f.contents, factory);
      assert s.toResponder + [] == s.toResponder;
      TakenKept(r.peer, t.responder, s.toInitiator, s.toResponder);
      IgnoredKept(i.peer, t.initiator, s.toResponder, s.toInitiator);
    } else if f.isAnswer {
      AnswerIsFlow(i.peer, r.peer, s.toResponder, s.toInitiator);
      MeetsKept(r.peer, t.responder, i, t.initiator, s.toResponder, s.toInitiator, factory);
    } else {
      OfferIsFlow(r.peer, i.peer, s.toInitiator, s.toResponder);
      AnswersKept(r.peer, t.responder, i, t.initiator, s.toInitiator, s.toResponder, factory);
    }
  }

  /** An offer that comes to p is dropped. */
  lemma IgnoredKept(p: Peer, m: Memory, toQ: seq<Flight>, toP: seq<Flight>)
    requires Kept(p, m, toQ, toP) && toP != [] && !toP[0].isAnswer
    ensures Kept(p, m, toQ, toP[1..])
  {
    hide AsMade, OnlyAdded, GroupsFrom;
  }

  lemma DeliverToResponderKeepsAll(t: Remembered, factory: AnswerFactory)
    requires AllKept(t) && Enabled(t.system, Deliver(false, factory))
    ensures AllKept(NextRemembered(t, Deliver(false, factory)))
  {
    hide Kept, ReceiveBy, SideInv, Flow, UsedIds, AnswersWell, Matches, DistinctSsrcs, Shape, NoAnswer;
    var s := t.system;
    var i, r, f := s.initiator, s.responder, s.toResponder[0];
    StepKeeps(s, Deliver(false, factory));
    HeadToResponder(i.peer.pending, r.peer.pending, s.toResponder, s.toInitiator);
    if f.isAnswer {
      AnswerIsFlow(r.peer, i.peer, s.toInitiator, s.toResponder);
      MeetsKept(i.peer, t.initiator, r, t.responder, s.toInitiator, s.toResponder, factory);
    } else {
      OfferIsFlow(i.peer, r.peer, s.toResponder, s.toInitiator);
      AnswersKept(i.peer, t.initiator, r, t.responder, s.toResponder, s.toInitiator, factory);
    }
  }

  lemma StepKeepsAll(t: Remembered, step: Step)
    requires AllKept(t) && Enabled(t.system, step)
    ensures AllKept(NextRemembered(t, step))
  {
    match step
    case Add(_, _, _) => AddKeepsAll(t, step);
    case Offer(_, _, _) => OfferKeepsAll(t, step);
    case Deliver(toInitiator, factory) =>
      if toInitiator {
        DeliverToInitiatorKeepsAll(t, factory);
      } else {
        DeliverToResponderKeepsAll(t, factory);
      }
  }

  lemma AddKeepsAll(t: Remembered, step: Step)
    requires AllKept(t) && step.Add?
    ensures AllKept(NextRemembered(t, step))
  {
    hide Kept, SideInv, Flow, UsedIds, Shape, DistinctSsrcs;
    var s := t.system;
    StepKeeps(s, step);
    AddKept(s.initiator.peer, t.initiator, s.toResponder, s.toInitiator, step.kind, step.extensions);
    AddKept(s.responder.peer, t.responder, s.toInitiator, s.toResponder, step.kind, step.extensions);
  }

  lemma {:induction false} RunKeepsAll(t: Remembered, steps: seq<Step>, result: Remembered)
    requires AllKept(t) && LeadsRemembering(t, steps, result)
    ensures AllKept(result) && Leads(t.system, steps, result.system)
    decreases |steps|
  {
    hide AllKept, Enabled, Next, NextRemembered;
    if steps != [] {
      StepKeepsAll(t, steps[0]);
      NextIsOfSystem(t, steps[0]);
      RunKeepsAll(NextRemembered(t, steps[0]), steps[1..], result);
    }
  }

  lemma NextIsOfSystem(t: Remembered, step: Step)
    requires Enabled(t.system, step)
    ensures NextRemembered(t, step).system == Next(t.system, step)
  {
  }

  // --- Main results

  /** Over any run each channel that a peer takes as agreed is one of its last offer that was answered, with the
      source number and the groups of that offer; when nothing is in flight it is with these that the other side
      receives it. */
  lemma {:induction false} AgreedAreAsOffered(steps: seq<Step>, t: Remembered)
    requires LeadsRemembering(NewRemembered(), steps, t)
    ensures AgreedAsMade(t.system.initiator.peer, t.initiator.answered)
    ensures AgreedAsMade(t.system.responder.peer, t.responder.answered)
    ensures t.system.toInitiator == [] && t.system.toResponder == [] ==>
              && GroupsFrom(t.system.responder.peer.incoming, t.initiator.answered.contents)
              && GroupsFrom(t.system.initiator.peer.incoming, t.responder.answered.contents)
  {
    hide AgreedAsMade, Leads, LeadsRemembering;
    InitialKept();
    RunKeepsAll(NewRemembered(), steps, t);
    if t.system.toInitiator == [] && t.system.toResponder == [] {
      ReceivedAsMade(t.system.initiator.peer, t.initiator.answered, t.system.responder.peer);
      ReceivedAsMade(t.system.responder.peer, t.responder.answered, t.system.initiator.peer);
    }
  }

  lemma ReceivedAsMade(p: Peer, made: Made, q: Peer)
    requires AgreedAsMade(p, made) && AgreedContents(p.outgoing) == q.incoming
    ensures GroupsFrom(q.incoming, made.contents)
  {
    hide IsForChannel;
    forall a | a in q.incoming
      ensures exists c :: c in made.contents && c.ssrc == a.ssrc && c.ssrcGroups == a.ssrcGroups
    {
      var i :| 0 <= i < |q.incoming| && q.incoming[i] == a;
      assert AsMade(p.outgoing[i], made);
    }
  }

  /** Every run can be remembered: the memory only looks on. */
  lemma {:induction false} RunIsRemembered(t: Remembered, steps: seq<Step>, s: System) returns (u: Remembered)
    requires Leads(t.system, steps, s)
    ensures LeadsRemembering(t, steps, u) && u.system == s
    decreases |steps|
  {
    hide Enabled, Next, NextRemembered;
    u := t;
    if steps != [] {
      NextIsOfSystem(t, steps[0]);
      u := RunIsRemembered(NextRemembered(t, steps[0]), steps[1..], s);
    }
  }

  /** In every reachable state the options of the next offer are, place by place, those of the ids seen so far. */
  lemma {:induction false} ReachableOfferOptions(steps: seq<Step>, s: System)
    requires Leads(NewSystem(), steps, s)
    ensures forall p | p in {s.initiator.peer, s.responder.peer} ::
              OfferOptionsAre(p, OfferOptions(p).order, OfferOptions(p).options)
  {
    hide OfferOptionsAre, OfferOptions, Leads, LeadsRemembering, Kept;
    InitialKept();
    var t := RunIsRemembered(NewRemembered(), steps, s);
    RunKeepsAll(NewRemembered(), steps, t);
    OneContentOfEach(s.initiator);
    OneContentOfEach(s.responder);
    OfferOptionsByPlace(s.initiator.peer);
    OfferOptionsByPlace(s.responder.peer);
  }

  lemma OneContentOfEach(side: Side)
    requires SideInv(side) && DistinctSsrcs(side.peer.incoming)
    ensures Tidy(side.peer) && OneContentEach(side.peer.incoming)
  {
  }

  lemma InitialKept()
    ensures AllKept(NewRemembered())
  {
    InitialInv();
  }
}
