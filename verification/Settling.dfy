// What a completed exchange settles: the source numbers of the offer, the contents of
// the answer, and the channels the offering side takes as agreed.
module Settling {
  import opened Prelude
  import opened Bytes
  import opened Negotiation
  import opened OfferAnswer

  ghost predicate HasSsrc(contents: seq<MediaContent>, ssrc: uint32) {
    exists c | 0 <= c < |contents| :: contents[c].ssrc == ssrc
  }

  ghost predicate Given(descriptions: seq<PendingChannel>, ssrc: uint32) {
    exists d | 0 <= d < |descriptions| :: descriptions[d].ssrc == ssrc
  }

  /** The contents are for exactly the channels that have a source number. */
  ghost predicate Matches(descriptions: seq<PendingChannel>, contents: seq<MediaContent>) {
    && DistinctSsrcs(contents)
    && (forall c | 0 <= c < |contents| :: Given(descriptions, contents[c].ssrc))
    && (forall d | 0 <= d < |descriptions| && descriptions[d].ssrc != 0 :: HasSsrc(contents, descriptions[d].ssrc))
  }

  /** The first n channels have source numbers, all different; the others have none. */
  ghost predicate Numbered(descriptions: seq<PendingChannel>, n: nat) {
    && n <= |descriptions|
    && (forall d | 0 <= d < |descriptions| :: descriptions[d].ssrc != 0 <==> d < n)
    && (forall i, j | 0 <= i < j < n :: descriptions[i].ssrc != descriptions[j].ssrc)
  }

  // --- An offer

  predicate Sends(section: Section, mid: Id) {
    section.direction == SendOnly && section.mid == mid
  }

  /** The source number that is given to a channel last. */
  function LastSent(sections: seq<Section>, mid: Id): (r: Option<uint32>)
    ensures r.None? <==> forall j | 0 <= j < |sections| :: !Sends(sections[j], mid)
    ensures r.Some? ==> exists j | 0 <= j < |sections| :: Sends(sections[j], mid) && sections[j].content.ssrc == r.value
    decreases |sections|
  {
    if sections == [] then None
    else
      var later := LastSent(sections[1..], mid);
      if later.Some? then
        assert exists j | 0 <= j < |sections[1..]| :: Sends(sections[1..][j], mid) && sections[1..][j].content.ssrc == later.value;
        later
      else if Sends(sections[0], mid) then Some(sections[0].content.ssrc)
      else
        assert forall j | 0 < j < |sections| :: sections[j] == sections[1..][j - 1];
        None
  }

  lemma {:induction false} GiveSsrcsGives(descriptions: seq<PendingChannel>, sections: seq<Section>)
    ensures var given := GiveSsrcs(descriptions, sections);
            && |given| == |descriptions|
            && forall d | 0 <= d < |given| ::
                 var sent := LastSent(sections, descriptions[d].description.mid);
                 && given[d].description == descriptions[d].description
                 && given[d].ssrc == if sent.Some? then sent.value else descriptions[d].ssrc
    decreases |sections|
  {
    if sections != [] {
      var first := if sections[0].direction.SendOnly? then GiveSsrc(descriptions, sections[0].mid, sections[0].content.ssrc)
                   else descriptions;
      GiveSsrcsGives(first, sections[1..]);
    }
  }

  ghost predicate SendsSsrc(sections: seq<Section>, ssrc: uint32) {
    exists j | 0 <= j < |sections| :: sections[j].direction == SendOnly && sections[j].content.ssrc == ssrc
  }

  lemma HasSsrcConcat(a: seq<MediaContent>, b: seq<MediaContent>, ssrc: uint32)
    ensures HasSsrc(a + b, ssrc) <==> HasSsrc(a, ssrc) || HasSsrc(b, ssrc)
  {
    if HasSsrc(b, ssrc) {
      var c :| 0 <= c < |b| && b[c].ssrc == ssrc;
      assert (a + b)[|a| + c].ssrc == ssrc;
    }
    if c :| 0 <= c < |a| && a[c].ssrc == ssrc {
      assert (a + b)[c].ssrc == ssrc;
    }
  }

  lemma SendsSsrcStep(sections: seq<Section>, ssrc: uint32)
    requires sections != []
    ensures SendsSsrc(sections, ssrc)
       <==> (sections[0].direction == SendOnly && sections[0].content.ssrc == ssrc) || SendsSsrc(sections[1..], ssrc)
  {
    if j :| 0 <= j < |sections[1..]| && sections[1..][j].direction == SendOnly && sections[1..][j].content.ssrc == ssrc {
      assert sections[j + 1] == sections[1..][j];
    }
    assert forall j | 0 < j < |sections| :: sections[j] == sections[1..][j - 1];
  }

  /** What is sent, section by section. */
  lemma {:induction false} SentContentsAre(sections: seq<Section>, ssrc: uint32)
    ensures HasSsrc(SentContents(sections), ssrc) <==> SendsSsrc(sections, ssrc)
    decreases |sections|
  {
    hide SendsSsrc;
    if sections == [] {
      assert !SendsSsrc([], ssrc) by {
        NothingSends(ssrc);
      }
    } else {
      var first := if sections[0].direction.SendOnly? then [sections[0].content] else [];
      SentContentsAre(sections[1..], ssrc);
      SendsSsrcStep(sections, ssrc);
      HasSsrcConcat(first, SentContents(sections[1..]), ssrc);
      assert HasSsrc(first, ssrc) <==> sections[0].direction == SendOnly && sections[0].content.ssrc == ssrc by {
        if sections[0].direction == SendOnly {
          assert first[0] == sections[0].content;
        }
      }
    }
  }

  lemma NothingSends(ssrc: uint32)
    ensures !SendsSsrc([], ssrc)
  {
  }

  lemma DistinctSuffix(a: seq<MediaContent>, b: seq<MediaContent>)
    requires DistinctSsrcs(a + b)
    ensures DistinctSsrcs(b)
    ensures forall i | 0 <= i < |a| :: a[i].ssrc != 0 && !HasSsrc(b, a[i].ssrc)
  {
    assert forall j | 0 <= j < |b| :: (a + b)[|a| + j] == b[j];
    assert forall i | 0 <= i < |a| :: (a + b)[i] == a[i];
  }

  lemma {:induction false} SentAreDistinct(sections: seq<Section>, i: nat, j: nat)
    requires DistinctSsrcs(SentContents(sections))
    requires i < j < |sections| && sections[i].direction == SendOnly && sections[j].direction == SendOnly
    ensures sections[i].content.ssrc != sections[j].content.ssrc
    decreases |sections|
  {
    hide DistinctSsrcs;
    var rest := sections[1..];
    var first := if sections[0].direction.SendOnly? then [sections[0].content] else [];
    DistinctSuffix(first, SentContents(rest));
    assert sections[j] == rest[j - 1];
    if i > 0 {
      SentAreDistinct(rest, i - 1, j - 1);
    } else {
      SentContentsAre(rest, sections[j].content.ssrc);
      assert first[0] == sections[0].content;
    }
  }

  lemma {:induction false} SentAreNonZero(sections: seq<Section>, i: nat)
    requires DistinctSsrcs(SentContents(sections))
    requires i < |sections| && sections[i].direction == SendOnly
    ensures sections[i].content.ssrc != 0
  {
    SentContentsAre(sections, sections[i].content.ssrc);
  }

  /** What a good factory makes of the options. */
  ghost predicate OfferMade(p: Peer, sections: seq<Section>) {
    && FollowsOptions(sections, OfferOptions(p).options)
    && DistinctSsrcs(SentContents(sections))
  }

  lemma ChannelIsOffered(p: Peer, sections: seq<Section>, d: nat) returns (k: nat)
    requires Tidy(p) && OfferMade(p, sections) && d < |p.descriptions|
    ensures k < |sections| && Sends(sections[k], p.descriptions[d].description.mid)
    ensures LastSent(sections, p.descriptions[d].description.mid) == Some(sections[k].content.ssrc)
  {
    hide OfferOptions, LastSent;
    OfferListsEveryId(p);
    var mid := p.descriptions[d].description.mid;
    k :| 0 <= k < |OfferOptions(p).order| && OfferOptions(p).order[k] == mid;
    assert OfferOptions(p).options[k] == p.descriptions[d].description;
    assert Sends(sections[k], mid);
    var j :| 0 <= j < |sections| && Sends(sections[j], mid) && sections[j].content.ssrc == LastSent(sections, mid).value;
    assert Sends(sections[j], mid);
    assert OfferOptions(p).options[j].mid == sections[j].mid;
    assert j == k;
  }

  lemma {:induction false} OfferedIsChannel(p: Peer, sections: seq<Section>, k: nat) returns (d: nat)
    requires Tidy(p) && OfferMade(p, sections) && k < |sections| && sections[k].direction == SendOnly
    ensures d < |p.descriptions|
    ensures LastSent(sections, p.descriptions[d].description.mid) == Some(sections[k].content.ssrc)
  {
    hide OfferOptions, LastSent;
    OfferListsEveryId(p);
    d :| 0 <= d < |p.descriptions| && OfferOptions(p).options[k] == p.descriptions[d].description;
    var j := ChannelIsOffered(p, sections, d);
    assert sections[k].mid == OfferOptions(p).options[k].mid && sections[j].mid == OfferOptions(p).options[j].mid;
    assert j == k;
  }

  lemma {:induction false} OfferNumbers(p: Peer, sections: seq<Section>)
    requires Tidy(p) && OfferMade(p, sections)
    ensures Numbered(GiveSsrcs(p.descriptions, sections), |p.descriptions|)
  {
    hide OfferOptions, LastSent, OfferMade, Tidy, DistinctSsrcs;
    var given := GiveSsrcs(p.descriptions, sections);
    GiveSsrcsGives(p.descriptions, sections);
    assert DistinctSsrcs(SentContents(sections)) by {
      SentIn(p, sections);
    }
    forall d | 0 <= d < |given|
      ensures given[d].ssrc != 0
    {
      var k := ChannelIsOffered(p, sections, d);
      SentAreNonZero(sections, k);
    }
    forall i, j | 0 <= i < j < |given|
      ensures given[i].ssrc != given[j].ssrc
    {
      var k := ChannelIsOffered(p, sections, i);
      var l := ChannelIsOffered(p, sections, j);
      NamesDiffer(p, i, j);
      if k < l {
        SentAreDistinct(sections, k, l);
      } else {
        SentAreDistinct(sections, l, k);
      }
    }
  }

  lemma {:induction false} SentIn(p: Peer, sections: seq<Section>)
    requires OfferMade(p, sections)
    ensures DistinctSsrcs(SentContents(sections))
  {
  }

  lemma NamesDiffer(p: Peer, i: nat, j: nat)
    requires Tidy(p) && i < j < |p.descriptions|
    ensures p.descriptions[i].description.mid != p.descriptions[j].description.mid
  {
    ChannelIdsDiffer(i, j);
  }

  lemma {:induction false} OfferMatches(p: Peer, sections: seq<Section>)
    requires Tidy(p) && OfferMade(p, sections)
    ensures Matches(GiveSsrcs(p.descriptions, sections), SentContents(sections))
  {
    hide OfferOptions, LastSent, OfferMade, Tidy, DistinctSsrcs;
    var given, contents := GiveSsrcs(p.descriptions, sections), SentContents(sections);
    SentIn(p, sections);
    GiveSsrcsGives(p.descriptions, sections);
    forall c | 0 <= c < |contents|
      ensures Given(given, contents[c].ssrc)
    {
      assert HasSsrc(contents, contents[c].ssrc);
      SentContentsAre(sections, contents[c].ssrc);
      var k :| 0 <= k < |sections| && sections[k].direction == SendOnly && sections[k].content.ssrc == contents[c].ssrc;
      var d := OfferedIsChannel(p, sections, k);
      assert given[d].ssrc == contents[c].ssrc;
    }
    forall d | 0 <= d < |given|
      ensures HasSsrc(contents, given[d].ssrc)
    {
      var k := ChannelIsOffered(p, sections, d);
      SentContentsAre(sections, given[d].ssrc);
    }
  }

  /** An offer gives every channel a source number of its own, and its contents are for exactly
      these channels. */
  lemma OfferSettles(p: Peer, newId: uint32, factory: OfferFactory)
    requires Tidy(p) && OffersWell(p, factory) && p.needNegotiation && p.pending.None?
    ensures var r := GetPendingOffer(p, newId, factory);
            && r.sent.Some? && r.sent.value.exchangeId == newId
            && Tidy(r.peer) && |r.peer.descriptions| == |p.descriptions| && p.order <= r.peer.order
            && Numbered(r.peer.descriptions, |p.descriptions|)
            && Matches(r.peer.descriptions, r.sent.value.contents)
            && r.peer == p.(needNegotiation := false, pending := Some(newId),
                            order := r.peer.order, descriptions := r.peer.descriptions)
  {
    hide OfferOptions, CurrentDescription, GiveSsrcs, SentContents, Matches, Numbered, DistinctSsrcs, FollowsOptions;
    var offer := factory(OfferOptions(p).options, CurrentDescription(p, p.order)).value;
    OfferListsEveryId(p);
    OfferNumbers(p, offer);
    OfferMatches(p, offer);
    GiveSsrcsGives(p.descriptions, offer);
  }

  // --- An answer

  ghost predicate SameSsrcs(a: seq<MediaContent>, b: seq<MediaContent>) {
    forall ssrc: uint32 :: HasSsrc(a, ssrc) <==> HasSsrc(b, ssrc)
  }

  function ReceivedMids(sections: seq<Section>): seq<Id>
    decreases |sections|
  {
    if sections == [] then []
    else (if sections[0].direction.RecvOnly? then [sections[0].mid] else []) + ReceivedMids(sections[1..])
  }

  function Ids(contents: seq<MediaContent>): (ids: seq<Id>)
    ensures |ids| == |contents|
    ensures forall i | 0 <= i < |ids| :: ids[i] == SsrcId(contents[i].ssrc)
  {
    seq(|contents|, i requires 0 <= i < |contents| => SsrcId(contents[i].ssrc))
  }

  ghost predicate ReceivesOnlyOffered(sections: seq<Section>, offered: seq<MediaContent>) {
    forall k | 0 <= k < |sections| && sections[k].direction == RecvOnly :: Offered(offered, sections[k].mid)
  }

  lemma {:induction false} AcceptedIds(sections: seq<Section>, offered: seq<MediaContent>)
    requires ReceivesOnlyOffered(sections, offered)
    ensures Ids(AcceptedContents(sections, offered)) == ReceivedMids(sections)
    decreases |sections|
  {
    hide Offered, AsOffered;
    if sections != [] {
      assert ReceivesOnlyOffered(sections[1..], offered);
      AcceptedIds(sections[1..], offered);
      if sections[0].direction == RecvOnly {
        AcceptedHasId(sections[0], offered);
      }
    }
  }

  lemma AcceptedHasId(section: Section, offered: seq<MediaContent>)
    requires Offered(offered, section.mid)
    ensures SsrcId(AsOffered(section, offered).ssrc) == section.mid
  {
  }

  ghost predicate Receives(sections: seq<Section>, id: Id) {
    exists k | 0 <= k < |sections| :: sections[k].direction == RecvOnly && sections[k].mid == id
  }

  lemma {:induction false} ReceivedMidsAre(sections: seq<Section>)
    requires forall i, j | 0 <= i < j < |sections| :: sections[i].mid != sections[j].mid
    ensures NoRepeats(ReceivedMids(sections))
    ensures forall id :: id in ReceivedMids(sections) <==> Receives(sections, id)
    decreases |sections|
  {
    if sections != [] {
      var rest := sections[1..];
      ReceivedMidsAre(rest);
      forall id
        ensures id in ReceivedMids(sections) <==> Receives(sections, id)
      {
        assert forall k | 0 < k < |sections| :: sections[k] == rest[k - 1];
        if Receives(rest, id) {
          var k :| 0 <= k < |rest| && rest[k].direction == RecvOnly && rest[k].mid == id;
          assert sections[k + 1] == rest[k];
        }
      }
      assert !Receives(rest, sections[0].mid);
    }
  }

  lemma IdsDistinct(contents: seq<MediaContent>)
    requires NoRepeats(Ids(contents))
    ensures forall i, j | 0 <= i < j < |contents| :: contents[i].ssrc != contents[j].ssrc
  {
    forall i, j | 0 <= i < j < |contents|
      ensures contents[i].ssrc != contents[j].ssrc
    {
      assert Ids(contents)[i] != Ids(contents)[j];
    }
  }

  lemma HasSsrcById(contents: seq<MediaContent>, ssrc: uint32)
    ensures HasSsrc(contents, ssrc) <==> SsrcId(ssrc) in Ids(contents)
    ensures HasSsrc(contents, ssrc) <==> Offered(contents, SsrcId(ssrc))
  {
    if c :| 0 <= c < |contents| && contents[c].ssrc == ssrc {
      assert Ids(contents)[c] == SsrcId(ssrc);
    }
    forall c | 0 <= c < |contents| && SsrcId(contents[c].ssrc) == SsrcId(ssrc)
      ensures contents[c].ssrc == ssrc
    {
      SsrcIdsDiffer(contents[c].ssrc, ssrc);
    }
  }

  /** The sections of an answer: mids all different, received exactly the offered ids. */
  ghost predicate AnswerShape(answer: seq<Section>, contents: seq<MediaContent>) {
    && ReceivesOnlyOffered(answer, contents)
    && (forall i, j | 0 <= i < j < |answer| :: answer[i].mid != answer[j].mid)
    && (forall c | 0 <= c < |contents| :: Receives(answer, SsrcId(contents[c].ssrc)))
  }

  lemma AnswerHasShape(p: Peer, contents: seq<MediaContent>, answer: seq<Section>)
    requires Tidy(p) && FollowsOptions(answer, RebuildOffer(p, contents).lines.options)
    ensures AnswerShape(answer, contents)
  {
    hide RebuildOffer;
    AnswerReceivesOffered(p, contents);
    var g := RebuildOffer(p, contents);
    OptionMidsDiffer(g.lines.options, g.order);
    forall c | 0 <= c < |contents|
      ensures Receives(answer, SsrcId(contents[c].ssrc))
    {
      var id := SsrcId(contents[c].ssrc);
      assert Offered(contents, id);
      var k :| 0 <= k < |g.order| && g.order[k] == id;
      OptionOfOffered(p, contents, k);
    }
  }

  lemma OptionOfOffered(p: Peer, contents: seq<MediaContent>, k: nat)
    requires Tidy(p) && k < |RebuildOffer(p, contents).order| && Offered(contents, RebuildOffer(p, contents).order[k])
    ensures var g := RebuildOffer(p, contents);
            && |g.lines.options| == |g.order|
            && g.lines.options[k].mid == g.order[k] && g.lines.options[k].direction == RecvOnly
  {
    AnswerReceivesOffered(p, contents);
  }

  lemma {:induction false} AcceptedAreOffered(answer: seq<Section>, contents: seq<MediaContent>)
    requires AnswerShape(answer, contents) && DistinctSsrcs(contents)
    ensures SameSsrcs(AcceptedContents(answer, contents), contents)
    ensures DistinctSsrcs(AcceptedContents(answer, contents))
  {
    var accepted := AcceptedContents(answer, contents);
    AcceptedIds(answer, contents);
    ReceivedMidsAre(answer);
    IdsDistinct(accepted);
    forall ssrc: uint32
      ensures HasSsrc(accepted, ssrc) <==> HasSsrc(contents, ssrc)
    {
      HasSsrcById(accepted, ssrc);
      HasSsrcById(contents, ssrc);
    }
    forall i | 0 <= i < |accepted|
      ensures accepted[i].ssrc != 0
    {
      assert HasSsrc(accepted, accepted[i].ssrc);
    }
  }

  /** An answer has exactly the source numbers of the offer, each once, and the answering side now
      receives what the answer says. */
  lemma AnswerSettles(p: Peer, offer: Contents, factory: AnswerFactory)
    requires Tidy(p) && AnswersWell(p, offer.contents, factory) && DistinctSsrcs(offer.contents)
    ensures var r := GetAnswer(p, offer, factory);
            && r.sent == Some(Contents(offer.exchangeId, r.peer.incoming))
            && Tidy(r.peer) && p.order <= r.peer.order
            && SameSsrcs(r.peer.incoming, offer.contents) && DistinctSsrcs(r.peer.incoming)
            && r.peer == p.(order := r.peer.order, incoming := r.peer.incoming)
  {
    hide RebuildOffer, CurrentDescription, AcceptedContents, DistinctSsrcs, FollowsOptions, SameMids, SameSsrcs;
    AnswerFollowsOffer(p, offer.contents);
    AnswerReceivesOffered(p, offer.contents);
    var g := RebuildOffer(p, offer.contents);
    var answer := factory(g.lines.offer, g.lines.options, CurrentDescription(p, p.order)).value;
    AnswerHasShape(p, offer.contents, answer);
    AcceptedAreOffered(answer, offer.contents);
    AcceptedAreKnown(AcceptedContents(answer, offer.contents), offer.contents, g.order);
  }

  lemma AcceptedAreKnown(accepted: seq<MediaContent>, offered: seq<MediaContent>, order: seq<Id>)
    requires SameSsrcs(accepted, offered)
    requires forall c | 0 <= c < |offered| :: SsrcId(offered[c].ssrc) in order
    ensures forall k | 0 <= k < |accepted| :: SsrcId(accepted[k].ssrc) in order
  {
    forall k | 0 <= k < |accepted|
      ensures SsrcId(accepted[k].ssrc) in order
    {
      assert HasSsrc(accepted, accepted[k].ssrc);
      assert HasSsrc(offered, accepted[k].ssrc);
    }
  }

  lemma MatchesSame(descriptions: seq<PendingChannel>, a: seq<MediaContent>, b: seq<MediaContent>)
    requires Matches(descriptions, a) && SameSsrcs(a, b) && DistinctSsrcs(b)
    ensures Matches(descriptions, b)
  {
    forall c | 0 <= c < |b|
      ensures Given(descriptions, b[c].ssrc)
    {
      assert HasSsrc(b, b[c].ssrc);
      assert HasSsrc(a, b[c].ssrc);
    }
    forall d | 0 <= d < |descriptions| && descriptions[d].ssrc != 0
      ensures HasSsrc(b, descriptions[d].ssrc)
    {
      assert HasSsrc(a, descriptions[d].ssrc);
    }
  }

  // --- The answer at the offering side

  function AgreedContents(outgoing: seq<OutgoingChannel>): (contents: seq<MediaContent>)
    ensures |contents| == |outgoing|
    ensures forall i | 0 <= i < |contents| :: contents[i] == outgoing[i].content
  {
    seq(|outgoing|, i requires 0 <= i < |outgoing| => outgoing[i].content)
  }

  ghost predicate HasChannel(outgoing: seq<OutgoingChannel>, id: Id) {
    exists o | 0 <= o < |outgoing| :: outgoing[o].id == id
  }

  /** The channels agreed on are exactly the first n. */
  ghost predicate AgreedUpTo(outgoing: seq<OutgoingChannel>, n: nat) {
    && (forall k: nat :: HasChannel(outgoing, ChannelId(k)) <==> k < n)
    && (forall o | 0 <= o < |outgoing| :: NamedBelow(outgoing[o].id, n))
  }

  ghost predicate NamedBelow(id: Id, n: nat) {
    exists k: nat | k < n :: id == ChannelId(k)
  }

  lemma {:induction false} GivenIsFound(descriptions: seq<PendingChannel>, ssrc: uint32)
    requires ssrc != 0 && Given(descriptions, ssrc)
    ensures FindSsrc(descriptions, ssrc) < |descriptions|
  {
  }

  lemma {:induction false} NothingMatched(descriptions: seq<PendingChannel>)
    ensures MatchAnswer(descriptions, []) == []
  {
  }

  lemma {:induction false} FirstMatched(descriptions: seq<PendingChannel>, contents: seq<MediaContent>)
    requires contents != [] && FindSsrc(descriptions, contents[0].ssrc) < |descriptions|
    ensures var d := descriptions[FindSsrc(descriptions, contents[0].ssrc)];
            MatchAnswer(descriptions, contents)
            == [OutgoingChannel(d.description.mid, contents[0])] + MatchAnswer(descriptions, contents[1..])
  {
    hide FindSsrc;
  }

  lemma {:induction false} MatchAnswerTakes(descriptions: seq<PendingChannel>, contents: seq<MediaContent>)
    requires forall c | 0 <= c < |contents| :: contents[c].ssrc != 0 && Given(descriptions, contents[c].ssrc)
    ensures var outgoing := MatchAnswer(descriptions, contents);
            && |outgoing| == |contents| && AgreedContents(outgoing) == contents
            && forall c | 0 <= c < |contents| ::
                 var i := FindSsrc(descriptions, contents[c].ssrc);
                 i < |descriptions| && outgoing[c].id == descriptions[i].description.mid
    decreases |contents|
  {
    hide FindSsrc, Given, MatchAnswer;
    if contents == [] {
      NothingMatched(descriptions);
    } else {
      assert Given(descriptions, contents[0].ssrc);
      GivenIsFound(descriptions, contents[0].ssrc);
      FirstMatched(descriptions, contents);
      MatchAnswerTakes(descriptions, contents[1..]);
    }
  }

  lemma {:induction false} SsrcIsFound(descriptions: seq<PendingChannel>, n: nat, k: nat)
    requires Numbered(descriptions, n) && k < n
    ensures FindSsrc(descriptions, descriptions[k].ssrc) == k
  {
    assert forall j | 0 <= j < k :: descriptions[j].ssrc != descriptions[k].ssrc;
  }

  lemma AgreedIsOffered(descriptions: seq<PendingChannel>, contents: seq<MediaContent>, n: nat, c: nat) returns (d: nat)
    requires Named(descriptions) && Numbered(descriptions, n) && Matches(descriptions, contents) && c < |contents|
    ensures var outgoing := MatchAnswer(descriptions, contents);
            d < n && c < |outgoing| && outgoing[c].id == ChannelId(d)
  {
    hide Given, MatchAnswer;
    MatchAnswerTakes(descriptions, contents);
    d := FindSsrc(descriptions, contents[c].ssrc);
  }

  lemma {:induction false} OfferedIsAgreed(
      descriptions: seq<PendingChannel>, contents: seq<MediaContent>, n: nat, d: nat)
    requires Named(descriptions) && Numbered(descriptions, n) && Matches(descriptions, contents) && d < n
    ensures HasChannel(MatchAnswer(descriptions, contents), ChannelId(d))
  {
    hide Given, MatchAnswer;
    MatchAnswerTakes(descriptions, contents);
    var c :| 0 <= c < |contents| && contents[c].ssrc == descriptions[d].ssrc;
    SsrcIsFound(descriptions, n, d);
    assert MatchAnswer(descriptions, contents)[c].id == ChannelId(d);
  }

  lemma {:induction false} AnswerAgrees(descriptions: seq<PendingChannel>, contents: seq<MediaContent>, n: nat)
    requires Named(descriptions) && Numbered(descriptions, n) && Matches(descriptions, contents)
    ensures AgreedContents(MatchAnswer(descriptions, contents)) == contents
    ensures AgreedUpTo(MatchAnswer(descriptions, contents), n)
  {
    hide Given, MatchAnswer, Numbered;
    MatchAnswerTakes(descriptions, contents);
    var outgoing := MatchAnswer(descriptions, contents);
    forall o | 0 <= o < |outgoing|
      ensures NamedBelow(outgoing[o].id, n)
      ensures forall k: nat | k >= n :: outgoing[o].id != ChannelId(k)
    {
      var d := AgreedIsOffered(descriptions, contents, n, o);
      forall k: nat | k >= n
        ensures outgoing[o].id != ChannelId(k)
      {
        ChannelIdsDiffer(d, k);
      }
    }
    forall k: nat | k < n
      ensures HasChannel(outgoing, ChannelId(k))
    {
      OfferedIsAgreed(descriptions, contents, n, k);
    }
  }

  /** The side that offered takes the contents of the answer as they are, for exactly the channels it offered. */
  lemma SetAnswerSettles(p: Peer, answer: Contents, n: nat)
    requires Tidy(p) && p.pending == Some(answer.exchangeId)
    requires Numbered(p.descriptions, n) && Matches(p.descriptions, answer.contents)
    ensures var r := SetAnswer(p, answer);
            && Tidy(r) && r.pending.None?
            && AgreedContents(r.outgoing) == answer.contents && AgreedUpTo(r.outgoing, n)
            && r == p.(pending := None, outgoing := r.outgoing)
  {
    hide MatchAnswer, Matches, Numbered;
    AnswerAgrees(p.descriptions, answer.contents, n);
    var outgoing := MatchAnswer(p.descriptions, answer.contents);
    forall o | 0 <= o < |outgoing|
      ensures IsChannelId(outgoing[o].id)
    {
      assert NamedBelow(outgoing[o].id, n);
    }
  }
}
