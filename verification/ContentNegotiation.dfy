// ContentNegotiationContext as the object it is, its loops as they stand, each
// operation proved to do what Negotiation says.
module ContentNegotiations {
  import opened Prelude
  import opened Bytes
  import opened Negotiation

  // --- The searches

  method SearchDescriptions(descriptions: seq<PendingChannel>, id: Id) returns (i: nat)
    ensures i == FindDescription(descriptions, id)
  {
    i := 0;
    assert descriptions[0..] == descriptions;
    while i < |descriptions| && descriptions[i].description.mid != id
      invariant i <= |descriptions|
      invariant FindDescription(descriptions, id) == i + FindDescription(descriptions[i..], id)
    {
      assert descriptions[i..][1..] == descriptions[i + 1..];
      i := i + 1;
    }
  }

  method SearchOutgoing(outgoing: seq<OutgoingChannel>, id: Id) returns (i: nat)
    ensures i == FindOutgoing(outgoing, id)
  {
    i := 0;
    assert outgoing[0..] == outgoing;
    while i < |outgoing| && outgoing[i].id != id
      invariant i <= |outgoing|
      invariant FindOutgoing(outgoing, id) == i + FindOutgoing(outgoing[i..], id)
    {
      assert outgoing[i..][1..] == outgoing[i + 1..];
      i := i + 1;
    }
  }

  method SearchContents(contents: seq<MediaContent>, id: Id) returns (i: nat)
    ensures i == FindContent(contents, id)
  {
    i := 0;
    assert contents[0..] == contents;
    while i < |contents| && SsrcId(contents[i].ssrc) != id
      invariant i <= |contents|
      invariant FindContent(contents, id) == i + FindContent(contents[i..], id)
    {
      assert contents[i..][1..] == contents[i + 1..];
      i := i + 1;
    }
  }

  method SearchSsrc(descriptions: seq<PendingChannel>, ssrc: uint32) returns (i: nat)
    ensures i == FindSsrc(descriptions, ssrc)
  {
    i := 0;
    assert descriptions[0..] == descriptions;
    while i < |descriptions| && !(descriptions[i].ssrc != 0 && ssrc == descriptions[i].ssrc)
      invariant i <= |descriptions|
      invariant FindSsrc(descriptions, ssrc) == i + FindSsrc(descriptions[i..], ssrc)
    {
      assert descriptions[i..][1..] == descriptions[i + 1..];
      i := i + 1;
    }
  }

  // --- One round of each loop, on the specification

  lemma {:induction false} CurrentStep(p: Peer, order: seq<Id>, i: nat, done: seq<Section>)
    requires i < |order|
    ensures done + CurrentDescription(p, order[i..])
         == done + CurrentSections(p, order[i]) + CurrentDescription(p, order[i + 1..])
  {
    hide CurrentSections;
    assert order[i..][1..] == order[i + 1..];
    var here, rest := CurrentSections(p, order[i]), CurrentDescription(p, order[i + 1..]);
    assert done + (here + rest) == done + here + rest;
  }

  lemma {:induction false} OptionsStep(p: Peer, order: seq<Id>, i: nat, done: seq<MediaOption>)
    requires i < |order|
    ensures done + AllKnownOptions(p, order[i..]) == done + KnownOptions(p, order[i]) + AllKnownOptions(p, order[i + 1..])
  {
    hide KnownOptions;
    assert order[i..][1..] == order[i + 1..];
    var here, rest := KnownOptions(p, order[i]), AllKnownOptions(p, order[i + 1..]);
    assert done + (here + rest) == done + here + rest;
  }

  lemma {:induction false} LinesStep(p: Peer, contents: seq<MediaContent>, order: seq<Id>, i: nat, done: Rebuilt)
    requires i < |order|
    ensures Join(done, KnownLines(p, contents, order[i..]))
         == Join(Join(done, KnownLine(p, contents, order[i])), KnownLines(p, contents, order[i + 1..]))
  {
    hide KnownLine;
    assert order[i..][1..] == order[i + 1..];
    var here, rest := KnownLine(p, contents, order[i]), KnownLines(p, contents, order[i + 1..]);
    assert done.offer + (here.offer + rest.offer) == done.offer + here.offer + rest.offer;
    assert done.options + (here.options + rest.options) == done.options + here.options + rest.options;
  }

  lemma SentStep(sections: seq<Section>, i: nat, done: seq<MediaContent>)
    requires i < |sections|
    ensures var here := if sections[i].direction.SendOnly? then [sections[i].content] else [];
            done + SentContents(sections[i..]) == done + here + SentContents(sections[i + 1..])
  {
    assert sections[i..][1..] == sections[i + 1..];
    var here := if sections[i].direction.SendOnly? then [sections[i].content] else [];
    assert done + (here + SentContents(sections[i + 1..])) == done + here + SentContents(sections[i + 1..]);
  }

  lemma {:induction false} AcceptedStep(
      sections: seq<Section>, offered: seq<MediaContent>, i: nat, done: seq<MediaContent>)
    requires i < |sections|
    ensures var here := if sections[i].direction.RecvOnly? then [AsOffered(sections[i], offered)] else [];
            done + AcceptedContents(sections[i..], offered) == done + here + AcceptedContents(sections[i + 1..], offered)
  {
    hide AsOffered;
    assert sections[i..][1..] == sections[i + 1..];
    var here := if sections[i].direction.RecvOnly? then [AsOffered(sections[i], offered)] else [];
    var rest := AcceptedContents(sections[i + 1..], offered);
    assert done + (here + rest) == done + here + rest;
  }

  /** What one content of an answer gives. */
  function MatchOne(descriptions: seq<PendingChannel>, content: MediaContent): seq<OutgoingChannel> {
    var d := FindSsrc(descriptions, content.ssrc);
    if d < |descriptions| then [OutgoingChannel(descriptions[d].description.mid, content)] else []
  }

  lemma {:induction false} MatchStep(
      descriptions: seq<PendingChannel>, contents: seq<MediaContent>, i: nat, done: seq<OutgoingChannel>)
    requires i < |contents|
    ensures done + MatchAnswer(descriptions, contents[i..])
         == done + MatchOne(descriptions, contents[i]) + MatchAnswer(descriptions, contents[i + 1..])
  {
    MatchSplits(descriptions, contents[i..]);
    hide FindSsrc, MatchAnswer, MatchOne;
    assert contents[i..][1..] == contents[i + 1..];
    var here, rest := MatchOne(descriptions, contents[i]), MatchAnswer(descriptions, contents[i + 1..]);
    assert done + (here + rest) == done + here + rest;
  }

  lemma {:induction false} MatchSplits(descriptions: seq<PendingChannel>, contents: seq<MediaContent>)
    requires contents != []
    ensures MatchAnswer(descriptions, contents)
         == MatchOne(descriptions, contents[0]) + MatchAnswer(descriptions, contents[1..])
  {
  }

  lemma {:induction false} CoordinatedStep(p: Peer, i: nat, done: seq<MediaContent>)
    requires i < |p.outgoing|
    ensures var found := FindDescription(p.descriptions, p.outgoing[i].id) < |p.descriptions|;
            var here := if found then [p.outgoing[i].content] else [];
            done + Negotiation.OutgoingContents(p, p.outgoing[i..])
            == done + here + Negotiation.OutgoingContents(p, p.outgoing[i + 1..])
  {
    hide FindDescription;
    assert p.outgoing[i..][1..] == p.outgoing[i + 1..];
    var found := FindDescription(p.descriptions, p.outgoing[i].id) < |p.descriptions|;
    var here := if found then [p.outgoing[i].content] else [];
    var rest := Negotiation.OutgoingContents(p, p.outgoing[i + 1..]);
    assert done + (here + rest) == done + here + rest;
  }

  class ContentNegotiationContext {
    const isOutgoing: bool
    var channelIdOrder: seq<Id>
    var outgoingChannelDescriptions: seq<PendingChannel>
    var needNegotiation: bool
    var outgoingChannels: seq<OutgoingChannel>
    var incomingChannels: seq<MediaContent>
    var pendingOutgoingOffer: Option<uint32>
    var nextOutgoingChannelId: nat

    ghost function Model(): Peer
      reads this
    {
      Peer(isOutgoing, channelIdOrder, outgoingChannelDescriptions, needNegotiation, outgoingChannels,
           incomingChannels, pendingOutgoingOffer, nextOutgoingChannelId)
    }

    constructor (isOutgoing: bool)
      ensures Model() == NewPeer(isOutgoing)
    {
      this.isOutgoing := isOutgoing;
      channelIdOrder, outgoingChannelDescriptions, outgoingChannels, incomingChannels := [], [], [], [];
      needNegotiation, pendingOutgoingOffer, nextOutgoingChannelId := true, None, 0;
    }

    method AddOutgoingChannel(kind: Kind, extensions: seq<byte>) returns (id: Id)
      modifies this
      ensures Model() == Negotiation.AddOutgoingChannel(old(Model()), kind, extensions)
      ensures id == ChannelId(old(nextOutgoingChannelId))
    {
      id := ChannelId(nextOutgoingChannelId);
      nextOutgoingChannelId := nextOutgoingChannelId + 1;
      var description := MediaOption(kind, id, SendOnly, extensions);
      outgoingChannelDescriptions := outgoingChannelDescriptions + [PendingChannel(description, 0)];
      needNegotiation := true;
    }

    method CurrentSessionDescription() returns (sections: seq<Section>)
      ensures sections == CurrentDescription(Model(), channelIdOrder)
    {
      hide FindContent, FindOutgoing, CurrentDescription;
      sections := [];
      var i := 0;
      ghost var p := Model();
      assert channelIdOrder[0..] == channelIdOrder;
      CurrentEnds(p);
      while i < |channelIdOrder|
        invariant 0 <= i <= |channelIdOrder|
        invariant sections + CurrentDescription(p, channelIdOrder[i..]) == CurrentDescription(p, channelIdOrder)
      {
        CurrentStep(p, channelIdOrder, i, sections);
        ghost var before := sections;
        var id := channelIdOrder[i];
        var found := false;
        var c := SearchContents(incomingChannels, id);
        if c < |incomingChannels| {
          found := true;
          sections := sections + [Section(SsrcId(incomingChannels[c].ssrc), RecvOnly, incomingChannels[c])];
        }
        var o := SearchOutgoing(outgoingChannels, id);
        if o < |outgoingChannels| {
          found := true;
          sections := sections + [Section(id, SendOnly, outgoingChannels[o].content)];
        }
        if !found {
          sections := sections + [InactiveSection(id)];
        }
        assert sections == before + CurrentSections(p, id);
        i := i + 1;
      }
      assert channelIdOrder[i..] == [];
    }

    /** The loop of getPendingOffer over the ids known before. */
    method OptionsForKnown() returns (options: seq<MediaOption>)
      ensures options == AllKnownOptions(Model(), channelIdOrder)
    {
      hide FindContent, FindDescription, AllKnownOptions;
      options := [];
      var i := 0;
      ghost var p := Model();
      assert channelIdOrder[0..] == channelIdOrder;
      OptionsEnd(p);
      while i < |channelIdOrder|
        invariant 0 <= i <= |channelIdOrder|
        invariant options + AllKnownOptions(p, channelIdOrder[i..]) == AllKnownOptions(p, channelIdOrder)
      {
        OptionsStep(p, channelIdOrder, i, options);
        ghost var before := options;
        var id := channelIdOrder[i];
        var found := false;
        var d := SearchDescriptions(outgoingChannelDescriptions, id);
        if d < |outgoingChannelDescriptions| {
          found := true;
          options := options + [outgoingChannelDescriptions[d].description];
        }
        var c := SearchContents(incomingChannels, id);
        if c < |incomingChannels| {
          found := true;
          options := options + [IncomingOption(incomingChannels[c])];
        }
        if !found {
          options := options + [InactiveOption(id)];
        }
        assert options == before + KnownOptions(p, id);
        i := i + 1;
      }
      assert channelIdOrder[i..] == [];
    }

    /** The loop of getPendingOffer over the channels. */
    method OptionsForNew(known: seq<MediaOption>) returns (options: seq<MediaOption>)
      modifies this`channelIdOrder
      ensures Extended(channelIdOrder, options)
           == AddChannels(Extended(old(channelIdOrder), known), outgoingChannelDescriptions, incomingChannels)
    {
      options := known;
      var i := 0;
      ghost var all := AddChannels(Extended(channelIdOrder, known), outgoingChannelDescriptions, incomingChannels);
      assert outgoingChannelDescriptions[0..] == outgoingChannelDescriptions;
      while i < |outgoingChannelDescriptions|
        invariant 0 <= i <= |outgoingChannelDescriptions|
        invariant AddChannels(Extended(channelIdOrder, options), outgoingChannelDescriptions[i..], incomingChannels) == all
      {
        assert outgoingChannelDescriptions[i..][1..] == outgoingChannelDescriptions[i + 1..];
        var description := outgoingChannelDescriptions[i].description;
        ghost var added := AddOption(Extended(channelIdOrder, options), description);
        if description.mid !in channelIdOrder {
          channelIdOrder := channelIdOrder + [description.mid];
          options := options + [description];
        }
        var j := 0;
        assert incomingChannels[0..] == incomingChannels;
        while j < |incomingChannels|
          invariant 0 <= j <= |incomingChannels|
          invariant AddIncoming(Extended(channelIdOrder, options), incomingChannels[j..]) == AddIncoming(added, incomingChannels)
        {
          assert incomingChannels[j..][1..] == incomingChannels[j + 1..];
          var option := IncomingOption(incomingChannels[j]);
          if option.mid !in channelIdOrder {
            channelIdOrder := channelIdOrder + [option.mid];
            options := options + [option];
          }
          j := j + 1;
        }
        i := i + 1;
      }
    }

    /** The loop of getPendingOffer over the sections of the offer. */
    method TakeOffer(offer: seq<Section>) returns (contents: seq<MediaContent>)
      modifies this`outgoingChannelDescriptions
      ensures outgoingChannelDescriptions == GiveSsrcs(old(outgoingChannelDescriptions), offer)
      ensures contents == SentContents(offer)
    {
      hide SentContents;
      contents := [];
      var i := 0;
      assert offer[0..] == offer;
      SentEnds();
      while i < |offer|
        invariant 0 <= i <= |offer|
        invariant contents + SentContents(offer[i..]) == SentContents(offer)
        invariant GiveSsrcs(outgoingChannelDescriptions, offer[i..]) == GiveSsrcs(old(outgoingChannelDescriptions), offer)
      {
        SentStep(offer, i, contents);
        assert offer[i..][1..] == offer[i + 1..];
        if offer[i].direction.SendOnly? {
          contents := contents + [offer[i].content];
          GiveSsrcTo(offer[i].mid, offer[i].content.ssrc);
        }
        i := i + 1;
      }
      assert offer[i..] == [];
    }

    method GiveSsrcTo(mid: Id, ssrc: uint32)
      modifies this`outgoingChannelDescriptions
      ensures outgoingChannelDescriptions == GiveSsrc(old(outgoingChannelDescriptions), mid, ssrc)
    {
      ghost var given := GiveSsrc(outgoingChannelDescriptions, mid, ssrc);
      var i := 0;
      while i < |outgoingChannelDescriptions|
        invariant 0 <= i <= |outgoingChannelDescriptions| == |given|
        invariant forall k | 0 <= k < i :: outgoingChannelDescriptions[k] == given[k]
        invariant outgoingChannelDescriptions[i..] == old(outgoingChannelDescriptions)[i..]
      {
        var channel := outgoingChannelDescriptions[i];
        assert channel == old(outgoingChannelDescriptions)[i];
        if channel.description.mid == mid {
          outgoingChannelDescriptions := outgoingChannelDescriptions[i := channel.(ssrc := ssrc)];
        }
        i := i + 1;
      }
    }

    method GetPendingOffer(newId: uint32, factory: OfferFactory) returns (r: Option<Contents>)
      modifies this
      ensures Outcome(Model(), r) == Negotiation.GetPendingOffer(old(Model()), newId, factory)
    {
      hide AddChannels, AllKnownOptions, CurrentDescription, GiveSsrcs, SentContents;
      if !needNegotiation {
        return None;
      }
      if pendingOutgoingOffer.Some? {
        return None;
      }
      ghost var p := Model();
      needNegotiation := false;
      pendingOutgoingOffer := Some(newId);
      var current := CurrentSessionDescription();
      CurrentLooksAt(Model(), p, channelIdOrder);
      var known := OptionsForKnown();
      OptionsLookAt(Model(), p, channelIdOrder);
      var options := OptionsForNew(known);
      var offer := factory(options, current);
      if offer.None? {
        return None;
      }
      var contents := TakeOffer(offer.value);
      r := Some(Contents(newId, contents));
    }

    /** The loop of getAnswer over the ids known before. */
    method LinesForKnown(contents: seq<MediaContent>) returns (lines: Rebuilt)
      ensures lines == KnownLines(Model(), contents, channelIdOrder)
    {
      hide FindContent, FindOutgoing, KnownLines;
      lines := Rebuilt([], []);
      var i := 0;
      ghost var p := Model();
      assert channelIdOrder[0..] == channelIdOrder;
      LinesEnd(p, contents);
      assert Join(lines, KnownLines(p, contents, channelIdOrder)) == KnownLines(p, contents, channelIdOrder);
      while i < |channelIdOrder|
        invariant 0 <= i <= |channelIdOrder|
        invariant Join(lines, KnownLines(p, contents, channelIdOrder[i..])) == KnownLines(p, contents, channelIdOrder)
      {
        LinesStep(p, contents, channelIdOrder, i, lines);
        ghost var before := lines;
        var id := channelIdOrder[i];
        var found := false;
        var o := SearchOutgoing(outgoingChannels, id);
        if o < |outgoingChannels| {
          found := true;
          lines := Join(lines, OwnLine(outgoingChannels[o]));
        }
        var c := SearchContents(contents, id);
        if c < |contents| {
          found := true;
          lines := Join(lines, OfferedLine(contents[c]));
        }
        if !found {
          lines := Join(lines, InactiveLine(id));
        }
        assert lines == Join(before, KnownLine(p, contents, id));
        i := i + 1;
      }
      assert channelIdOrder[i..] == [];
    }

    /** The loop of getAnswer over the contents of the offer. */
    method LinesForOffered(known: Rebuilt, contents: seq<MediaContent>) returns (lines: Rebuilt)
      modifies this`channelIdOrder
      ensures Grown(channelIdOrder, lines) == AddOffered(Grown(old(channelIdOrder), known), contents)
    {
      lines := known;
      var i := 0;
      assert contents[0..] == contents;
      while i < |contents|
        invariant 0 <= i <= |contents|
        invariant AddOffered(Grown(channelIdOrder, lines), contents[i..])
               == AddOffered(Grown(old(channelIdOrder), known), contents)
      {
        assert contents[i..][1..] == contents[i + 1..];
        var id := SsrcId(contents[i].ssrc);
        if id !in channelIdOrder {
          channelIdOrder := channelIdOrder + [id];
          lines := Join(lines, OfferedLine(contents[i]));
        }
        i := i + 1;
      }
    }

    /** The loop of getAnswer over the sections of the answer. */
    method TakeAccepted(answer: seq<Section>, offered: seq<MediaContent>) returns (contents: seq<MediaContent>)
      ensures contents == AcceptedContents(answer, offered)
    {
      hide FindContent, AcceptedContents;
      contents := [];
      var i := 0;
      assert answer[0..] == answer;
      AcceptedEnds(offered);
      while i < |answer|
        invariant 0 <= i <= |answer|
        invariant contents + AcceptedContents(answer[i..], offered) == AcceptedContents(answer, offered)
      {
        AcceptedStep(answer, offered, i, contents);
        if answer[i].direction.RecvOnly? {
          var mapped := answer[i].content;
          var c := SearchContents(offered, answer[i].mid);
          if c < |offered| {
            mapped := mapped.(ssrc := offered[c].ssrc, ssrcGroups := offered[c].ssrcGroups);
          }
          contents := contents + [mapped];
        }
        i := i + 1;
      }
      assert answer[i..] == [];
    }

    method GetAnswer(offer: Contents, factory: AnswerFactory) returns (r: Option<Contents>)
      modifies this
      ensures Outcome(Model(), r) == Negotiation.GetAnswer(old(Model()), offer, factory)
    {
      hide AddOffered, KnownLines, CurrentDescription, AcceptedContents;
      var current := CurrentSessionDescription();
      var known := LinesForKnown(offer.contents);
      var lines := LinesForOffered(known, offer.contents);
      var answer := factory(lines.offer, lines.options, current);
      if answer.None? {
        return None;
      }
      var accepted := TakeAccepted(answer.value, offer.contents);
      incomingChannels := accepted;
      r := Some(Contents(offer.exchangeId, accepted));
    }

    method SetAnswer(answer: Contents)
      modifies this
      ensures Model() == Negotiation.SetAnswer(old(Model()), answer)
    {
      hide FindSsrc, MatchAnswer;
      if pendingOutgoingOffer.None? {
        return;
      }
      if pendingOutgoingOffer.value != answer.exchangeId {
        return;
      }
      pendingOutgoingOffer := None;
      outgoingChannels := [];
      var i := 0;
      assert answer.contents[0..] == answer.contents;
      MatchEnds(outgoingChannelDescriptions);
      while i < |answer.contents|
        invariant 0 <= i <= |answer.contents|
        invariant Model() == old(Model()).(pending := None, outgoing := outgoingChannels)
        invariant outgoingChannels + MatchAnswer(outgoingChannelDescriptions, answer.contents[i..])
               == MatchAnswer(outgoingChannelDescriptions, answer.contents)
      {
        MatchStep(outgoingChannelDescriptions, answer.contents, i, outgoingChannels);
        var content := answer.contents[i];
        var d := SearchSsrc(outgoingChannelDescriptions, content.ssrc);
        if d < |outgoingChannelDescriptions| {
          outgoingChannels := outgoingChannels + [OutgoingChannel(outgoingChannelDescriptions[d].description.mid, content)];
        }
        i := i + 1;
      }
      assert answer.contents[i..] == [];
    }

    method SetRemoteNegotiationContent(remote: Option<Contents>, factory: AnswerFactory) returns (r: Option<Contents>)
      modifies this
      ensures if remote.None? then Model() == old(Model()) && r.None?
              else Outcome(Model(), r) == SetRemote(old(Model()), remote.value, factory)
    {
      hide Negotiation.GetAnswer, MatchAnswer;
      if remote.None? {
        return None;
      }
      if pendingOutgoingOffer.Some? {
        if remote.value.exchangeId == pendingOutgoingOffer.value {
          SetAnswer(remote.value);
          return None;
        } else if !isOutgoing {
          pendingOutgoingOffer := None;
          r := GetAnswer(remote.value, factory);
        } else {
          return None;
        }
      } else {
        r := GetAnswer(remote.value, factory);
      }
    }

    method GetCoordinatedState() returns (r: CoordinatedState)
      ensures r == Coordinated(Model())
    {
      hide FindDescription, Negotiation.OutgoingContents;
      var contents := [];
      var i := 0;
      ghost var p := Model();
      assert outgoingChannels[0..] == outgoingChannels;
      CoordinatedEnds(p);
      while i < |outgoingChannels|
        invariant 0 <= i <= |outgoingChannels|
        invariant contents + Negotiation.OutgoingContents(p, outgoingChannels[i..])
               == Negotiation.OutgoingContents(p, outgoingChannels)
      {
        CoordinatedStep(p, i, contents);
        var d := SearchDescriptions(outgoingChannelDescriptions, outgoingChannels[i].id);
        if d < |outgoingChannelDescriptions| {
          contents := contents + [outgoingChannels[i].content];
        }
        i := i + 1;
      }
      assert outgoingChannels[i..] == [];
      r := CoordinatedState(contents, incomingChannels);
    }
  }

  // --- Where the loops end

  lemma {:induction false} CurrentEnds(p: Peer)
    ensures CurrentDescription(p, []) == []
  {
  }

  lemma {:induction false} OptionsEnd(p: Peer)
    ensures AllKnownOptions(p, []) == []
  {
  }

  lemma {:induction false} LinesEnd(p: Peer, contents: seq<MediaContent>)
    ensures KnownLines(p, contents, []) == Rebuilt([], [])
  {
  }

  lemma SentEnds()
    ensures SentContents([]) == []
  {
  }

  lemma {:induction false} AcceptedEnds(offered: seq<MediaContent>)
    ensures AcceptedContents([], offered) == []
  {
  }

  lemma {:induction false} MatchEnds(descriptions: seq<PendingChannel>)
    ensures MatchAnswer(descriptions, []) == []
  {
  }

  lemma {:induction false} CoordinatedEnds(p: Peer)
    ensures Negotiation.OutgoingContents(p, []) == []
  {
  }

  // --- What the descriptions look at

  lemma {:induction false} CurrentLooksAt(p: Peer, q: Peer, order: seq<Id>)
    requires p.incoming == q.incoming && p.outgoing == q.outgoing
    ensures CurrentDescription(p, order) == CurrentDescription(q, order)
    decreases |order|
  {
    if order != [] {
      CurrentLooksAt(p, q, order[1..]);
    }
  }

  lemma {:induction false} OptionsLookAt(p: Peer, q: Peer, order: seq<Id>)
    requires p.incoming == q.incoming && p.descriptions == q.descriptions
    ensures AllKnownOptions(p, order) == AllKnownOptions(q, order)
    decreases |order|
  {
    if order != [] {
      OptionsLookAt(p, q, order[1..]);
    }
  }
}
