// What follows when the session-description factory cannot make an offer: the offer stays pending though it was never
// sent, and the side that made the call says nothing more.
module FailedOffer {
  import opened Prelude
  import opened Bytes
  import opened Negotiation

  /** What a host can do with a peer. */
  datatype Call =
    | Add(kind: Kind, extensions: seq<byte>)
    | Ask(newId: uint32, offerFactory: OfferFactory)
    | Take(contents: Contents, answerFactory: AnswerFactory)

  function Do(p: Peer, call: Call): Outcome {
    match call
    case Add(kind, extensions) => Outcome(AddOutgoingChannel(p, kind, extensions), None)
    case Ask(newId, factory) => GetPendingOffer(p, newId, factory)
    case Take(contents, factory) => SetRemote(p, contents, factory)
  }

  /** A peer after some calls, and all it sent. */
  datatype Done = Done(peer: Peer, sent: seq<Contents>)

  function DoAll(p: Peer, calls: seq<Call>): Done
    decreases |calls|
  {
    if calls == [] then Done(p, [])
    else
      var first := Do(p, calls[0]);
      var rest := DoAll(first.peer, calls[1..]);
      Done(rest.peer, (if first.sent.Some? then [first.sent.value] else []) + rest.sent)
  }

  /** An offer is due, and the factory cannot make it. */
  predicate OfferFails(p: Peer, newId: uint32, factory: OfferFactory) {
    && p.needNegotiation && p.pending.None?
    && factory(OfferOptions(p).options, CurrentDescription(p, p.order)).None?
  }

  /** An offer is pending, and nothing that comes in is its answer. */
  ghost predicate StillPends(p: Peer, id: uint32, calls: seq<Call>) {
    p.pending == Some(id) && forall k | 0 <= k < |calls| && calls[k].Take? :: calls[k].contents.exchangeId != id
  }

  ghost predicate TakesNothing(calls: seq<Call>) {
    forall k | 0 <= k < |calls| :: !calls[k].Take?
  }

  lemma {:induction false} PendingIsSilent(p: Peer, id: uint32, calls: seq<Call>)
    requires StillPends(p, id, calls) && (p.isOutgoing || TakesNothing(calls))
    ensures var r := DoAll(p, calls);
            && r.sent == [] && r.peer.pending == Some(id)
            && r.peer.outgoing == p.outgoing && r.peer.incoming == p.incoming
    decreases |calls|
  {
    if calls != [] {
      var next := Do(p, calls[0]).peer;
      assert StillPends(next, id, calls[1..]) && next.isOutgoing == p.isOutgoing;
      PendingIsSilent(next, id, calls[1..]);
    }
  }

  /** When the factory cannot make an offer of the side that made the call, then, whatever is done with that side, as
      long as nothing comes in under the id that nobody has seen: it never offers and never answers again, and
      nothing more is agreed on. */
  lemma {:induction false} CallerFallsSilent(p: Peer, newId: uint32, factory: OfferFactory, calls: seq<Call>)
    requires p.isOutgoing && OfferFails(p, newId, factory)
    requires forall k | 0 <= k < |calls| && calls[k].Take? :: calls[k].contents.exchangeId != newId
    ensures GetPendingOffer(p, newId, factory).sent.None?
    ensures var r := DoAll(GetPendingOffer(p, newId, factory).peer, calls);
            r.sent == [] && r.peer.outgoing == p.outgoing && r.peer.incoming == p.incoming
  {
    hide OfferOptions, CurrentDescription;
    var failed := GetPendingOffer(p, newId, factory).peer;
    assert StillPends(failed, newId, calls);
    hide DoAll, GetPendingOffer;
    PendingIsSilent(failed, newId, calls);
  }

  /** The side that was called is silent too, until the first contents that come in, which it is ready to answer. */
  lemma {:induction false} CalledIsSilentUntil(
      p: Peer, newId: uint32, factory: OfferFactory, calls: seq<Call>, take: Call)
    requires !p.isOutgoing && OfferFails(p, newId, factory) && TakesNothing(calls)
    requires take.Take? && take.contents.exchangeId != newId
    ensures var r := DoAll(GetPendingOffer(p, newId, factory).peer, calls);
            && r.sent == [] && r.peer.pending == Some(newId)
            && Do(r.peer, take) == GetAnswer(r.peer.(pending := None), take.contents, take.answerFactory)
            && Do(r.peer, take).peer.pending.None?
  {
    hide OfferOptions, CurrentDescription, RebuildOffer, AcceptedContents;
    var failed := GetPendingOffer(p, newId, factory).peer;
    assert StillPends(failed, newId, calls);
    PendingIsSilent(failed, newId, calls);
    CalledStays(failed, calls);
  }

  lemma {:induction false} CalledStays(p: Peer, calls: seq<Call>)
    ensures DoAll(p, calls).peer.isOutgoing == p.isOutgoing
    decreases |calls|
  {
    hide OfferOptions, CurrentDescription, RebuildOffer, AcceptedContents;
    if calls != [] {
      CalledStays(Do(p, calls[0]).peer, calls[1..]);
    }
  }
}
