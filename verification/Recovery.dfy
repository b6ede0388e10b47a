// When all that is in flight is lost: whether the queue of an endpoint can still empty, decided by the
// messages that are too long to be resent and by what the other side is about to acknowledge.
module Recovery {
  import opened Bytes
  import opened Wire
  import opened Connection
  import opened Delivery
  import opened Sending
  import opened Link
  import opened Oversize
  import opened Progress

  // --- Calls as steps of a run

  lemma {:induction false} PingIsSteps(s: System, atLeft: bool, now: int)
    ensures Ping(s, atLeft, now)
         == Run(s, [Step.SendService(!atLeft, CAUSE_NONE, now), Arrive(atLeft, |Sender(s, atLeft).sent|)])
  {
    hide Next;
    var steps := [Step.SendService(!atLeft, CAUSE_NONE, now), Arrive(atLeft, |Sender(s, atLeft).sent|)];
    assert steps[1..][1..] == [];
    assert Run(s, steps) == Run(Next(s, steps[0]), steps[1..]) == Run(Next(Next(s, steps[0]), steps[1]), []);
  }

  lemma {:induction false} RunConcat(s: System, a: seq<Step>, b: seq<Step>)
    ensures Run(s, a + b) == Run(Run(s, a), b)
    decreases |a|
  {
    hide Next;
    if a == [] {
      assert a + b == b;
    } else {
      assert (a + b)[1..] == a[1..] + b;
      RunConcat(Next(s, a[0]), a[1..], b);
    }
  }

  /** Nothing sent before arrives. */
  ghost predicate InFlightIsLost(s: System, after: seq<Step>) {
    OnlyFrom(after, true, |s.right.sent|) && OnlyFrom(after, false, |s.left.sent|)
  }

  lemma {:induction false} LostBefore(s: System, first: seq<Step>, rest: seq<Step>)
    requires InFlightIsLost(s, first) && InFlightIsLost(Run(s, first), rest)
    ensures InFlightIsLost(s, first + rest)
  {
    hide Run;
    RunSentGrows(s, first, true);
    RunSentGrows(s, first, false);
  }

  /** Service calls whose packets arrive are a run in which nothing sent before arrives. */
  lemma {:induction false} CallsAreSteps(s: System, calls: seq<Call>) returns (steps: seq<Step>)
    ensures Run(s, steps) == PingAll(s, calls) && InFlightIsLost(s, steps)
    decreases |calls|
  {
    hide Ping, Next;
    if calls == [] {
      steps := [];
    } else {
      var atLeft, now := calls[0].atLeft, calls[0].now;
      var first := [Step.SendService(!atLeft, CAUSE_NONE, now), Arrive(atLeft, |Sender(s, atLeft).sent|)];
      PingIsSteps(s, atLeft, now);
      var rest := CallsAreSteps(Ping(s, atLeft, now), calls[1..]);
      hide Run;
      LostBefore(s, first, rest);
      RunConcat(s, first, rest);
      steps := first + rest;
    }
  }

  // --- The acknowledgements that wait

  ghost predicate DistinctSeqs(pending: seq<Pending>) {
    forall i, j | 0 <= i < j < |pending| :: pending[i].seqNum != pending[j].seqNum
  }

  lemma {:induction false} AckMessageRemoves(pending: seq<Pending>, seqNum: uint32)
    requires DistinctSeqs(pending)
    ensures DistinctSeqs(AckMessage(pending, seqNum))
    ensures forall p | p in AckMessage(pending, seqNum) :: p in pending && p.seqNum != seqNum
  {
    if pending != [] {
      AckMessageRemoves(pending[1..], seqNum);
      assert pending == [pending[0]] + pending[1..];
      assert forall p | p in pending[1..] :: p.seqNum != pending[0].seqNum;
    }
  }

  lemma {:induction false} AckAllRemoves(pending: seq<Pending>, acks: seq<uint32>)
    requires DistinctSeqs(pending)
    ensures forall p | p in AckAll(pending, acks) :: p in pending && p.seqNum !in acks
    decreases |acks|
  {
    hide AckMessage, DistinctSeqs;
    if acks != [] {
      AckMessageRemoves(pending, acks[0]);
      AckAllRemoves(AckMessage(pending, acks[0]), acks[1..]);
      assert acks == [acks[0]] + acks[1..];
      NotBack(AckMessage(pending, acks[0]), acks[1..]);
    }
  }

  lemma {:induction false} NotBack(pending: seq<Pending>, acks: seq<uint32>)
    ensures forall p | p in AckAll(pending, acks) :: p in pending
  {
    AckAllWithin(pending, acks);
  }

  lemma {:induction false} AckAllConcat(pending: seq<Pending>, a: seq<uint32>, b: seq<uint32>)
    ensures AckAll(pending, a + b) == AckAll(AckAll(pending, a), b)
    decreases |a|
  {
    hide AckMessage;
    if a == [] {
      assert a + b == b;
    } else {
      assert (a + b)[1..] == a[1..] + b;
      AckAllConcat(AckMessage(pending, a[0]), a[1..], b);
    }
  }

  /** The other side makes service calls until nothing waits to be acknowledged. */
  lemma DrainReceiver(s: System, atLeft: bool, now: int) returns (calls: seq<Call>)
    requires Ready(s)
    requires Receiver(s, atLeft).conn.counter + |Receiver(s, atLeft).conn.acksToSend| <= MAX_ALLOWED_COUNTER
    ensures var s' := PingAll(s, calls);
            var x, x', y, y' := Sender(s, atLeft), Sender(s', atLeft), Receiver(s, atLeft), Receiver(s', atLeft);
            && Ready(s') && x'.queued == x.queued && y'.queued == y.queued && x'.conn.kind == x.conn.kind
            && x'.conn.pending == AckAll(x.conn.pending, y.conn.acksToSend)
            && y'.conn.counter <= y.conn.counter + |y.conn.acksToSend| && x'.conn.counter == x.conn.counter
    decreases |Receiver(s, atLeft).conn.acksToSend|
  {
    hide Ready, Ping;
    var x, y := Sender(s, atLeft), Receiver(s, atLeft);
    if y.conn.acksToSend == [] {
      calls := [];
    } else {
      PingBrings(s, atLeft, now);
      assert AcksTaken(y.conn) > 0;
      hide AcksTaken, AckAll;
      var written, kept := y.conn.acksToSend[..AcksTaken(y.conn)], y.conn.acksToSend[AcksTaken(y.conn)..];
      assert y.conn.acksToSend == written + kept;
      AckAllConcat(x.conn.pending, written, kept);
      var rest := DrainReceiver(Ping(s, !atLeft, now), atLeft, now);
      calls := [Call(!atLeft, now)] + rest;
      PingFirst(s, Call(!atLeft, now), rest);
    }
  }

  lemma QueueIsDistinct(form: Form, x: Side, y: Side)
    requires Good(form, x, y, false)
    ensures DistinctSeqs(x.conn.pending)
  {
    forall i, j | 0 <= i < j < |x.conn.pending|
      ensures x.conn.pending[i].seqNum != x.conn.pending[j].seqNum
    {
      FrontDiffers(form, x, y, j);
      assert Entries(x.conn.pending[..j])[i].seqNum == x.conn.pending[i].seqNum;
    }
  }

  // --- Whether the queue can empty

  /** The other side is about to acknowledge every message that is too long to be resent. */
  ghost predicate OversizeIsCovered(x: Conn, y: Conn) {
    forall i | 0 <= i < |x.pending| && IsOversize(x.kind, x.pending[i]) :: x.pending[i].seqNum in y.acksToSend
  }

  ghost predicate SentBy(x: Conn, now: int) {
    forall i | 0 <= i < |x.pending| :: x.pending[i].lastSent <= now
  }

  lemma CoveredCanGo(x: Conn, y: Conn, x': Conn, now: int)
    requires DistinctSeqs(x.pending) && OversizeIsCovered(x, y) && SentBy(x, now)
    requires x'.kind == x.kind && x'.pending == AckAll(x.pending, y.acksToSend)
    ensures AllCanGo(x', now)
  {
    hide AckAll, IsOversize, DistinctSeqs;
    AckAllRemoves(x.pending, y.acksToSend);
    forall i | 0 <= i < |x'.pending|
      ensures CanGo(x'.kind, x'.pending[i], now)
    {
      var p := x'.pending[i];
      assert p in x'.pending;
      var j :| 0 <= j < |x.pending| && x.pending[j] == p;
    }
  }

  lemma CoveredEmpties(s: System, atLeft: bool, now: int) returns (calls: seq<Call>)
    requires Ready(s) && SentBy(Sender(s, atLeft).conn, now) && 0 <= now
    requires OversizeIsCovered(Sender(s, atLeft).conn, Receiver(s, atLeft).conn)
    requires Sender(s, atLeft).conn.counter + (|Sender(s, atLeft).conn.pending| + 1) * Round(s) <= MAX_ALLOWED_COUNTER
    requires Receiver(s, atLeft).conn.counter + (|Sender(s, atLeft).conn.pending| + 1) * Round(s) <= MAX_ALLOWED_COUNTER
    ensures Sender(PingAll(s, calls), atLeft).conn.pending == []
  {
    hide Ready, Ping, PingAll, Good, Orderly, AckAll, AllCanGo, OversizeIsCovered, SentBy, DistinctSeqs;
    var x, y := Sender(s, atLeft), Receiver(s, atLeft);
    ReadySides(s, atLeft);
    AcksAreFew(s.form, x, y);
    QueueIsDistinct(s.form, x, y);
    OneLess(|x.conn.pending|, |x.conn.pending| + 1, Round(s));
    OneLess(0, |x.conn.pending| + 1, Round(s));
    var first := DrainReceiver(s, atLeft, now);
    var s1 := PingAll(s, first);
    CoveredCanGo(x.conn, y.conn, Sender(s1, atLeft).conn, now);
    AckAllWithin(x.conn.pending, y.conn.acksToSend);
    AtMostTimes(|Sender(s1, atLeft).conn.pending|, |x.conn.pending|, Round(s));
    var rest := QueueEmpties(s1, atLeft, now);
    calls := first + rest;
    PingConcat(s, first, rest);
  }

  lemma AtMostTimes(p: nat, q: nat, n: nat)
    requires p <= q
    ensures p * n <= q * n
  {
    if p < q {
      OneLess(p, q, n);
    }
  }

  lemma {:induction false} UncoveredStays(form: Form, kind: Kind, before: seq<Step>, after: seq<Step>, atLeft: bool)
    requires InFlightIsLost(Run(Start(form, kind), before), after)
    requires var s := Run(Start(form, kind), before);
             !OversizeIsCovered(Sender(s, atLeft).conn, Receiver(s, atLeft).conn)
    ensures Sender(Run(Run(Start(form, kind), before), after), atLeft).conn.pending != []
  {
    hide Run, Start, IsOversize, OnlyFrom;
    var s := Run(Start(form, kind), before);
    var x, y := Sender(s, atLeft).conn, Receiver(s, atLeft).conn;
    var i :| 0 <= i < |x.pending| && IsOversize(x.kind, x.pending[i]) && x.pending[i].seqNum !in y.acksToSend;
    OversizeBlocks(form, kind, before, after, atLeft, i);
  }

  lemma {:induction false} TimeGoesOn(pending: seq<Pending>) returns (now: int)
    ensures 0 <= now && forall i | 0 <= i < |pending| :: pending[i].lastSent <= now
  {
    if pending == [] {
      now := 0;
    } else {
      now := TimeGoesOn(pending[1..]);
      now := if now < pending[0].lastSent then pending[0].lastSent else now;
      assert forall i | 0 < i < |pending| :: pending[i] == pending[1..][i - 1];
    }
  }

  /** From any reachable state with counters left, when all that is in flight is lost: some continuation empties
      the queue exactly when the other side is about to acknowledge every message in it that is too long to
      be resent. */
  lemma {:induction false} RecoversIff(form: Form, kind: Kind, before: seq<Step>, atLeft: bool)
    requires var s := Run(Start(form, kind), before);
             var x, y := Sender(s, atLeft).conn, Receiver(s, atLeft).conn;
             && x.counter + (|x.pending| + 1) * Round(s) <= MAX_ALLOWED_COUNTER
             && y.counter + (|x.pending| + 1) * Round(s) <= MAX_ALLOWED_COUNTER
    ensures var s := Run(Start(form, kind), before);
            (exists after :: InFlightIsLost(s, after) && Sender(Run(s, after), atLeft).conn.pending == [])
            <==> OversizeIsCovered(Sender(s, atLeft).conn, Receiver(s, atLeft).conn)
  {
    hide Run, Start, Ready, OversizeIsCovered, InFlightIsLost, PingAll;
    StartIsReady(form, kind);
    RunKeepsReady(Start(form, kind), before);
    var s := Run(Start(form, kind), before);
    if OversizeIsCovered(Sender(s, atLeft).conn, Receiver(s, atLeft).conn) {
      var now := TimeGoesOn(Sender(s, atLeft).conn.pending);
      var calls := CoveredEmpties(s, atLeft, now);
      var after := CallsAreSteps(s, calls);
      assert InFlightIsLost(s, after) && Sender(Run(s, after), atLeft).conn.pending == [];
    } else {
      forall after | InFlightIsLost(s, after)
        ensures Sender(Run(s, after), atLeft).conn.pending != []
      {
        UncoveredStays(form, kind, before, after, atLeft);
      }
    }
  }
}
