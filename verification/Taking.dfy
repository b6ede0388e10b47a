// What a call takes and what it refuses, and what is bounded or in order over every run: packets, queue, requests
// and acknowledgements.
module Taking {
  import opened Bytes
  import opened Wire
  import opened ReplayWindow
  import opened Connection
  import opened Delivery
  import opened Sending
  import opened Endpoint
  import opened Acknowledgements
  import Link

  /** The most that goes out at once: 16 KiB in signaling, what a UDP packet of 1500 bytes leaves otherwise. */
  function MostBytes(kind: Kind): nat {
    match kind
    case Signaling => 16384
    case Transport => 1452
  }

  predicate Single(c: Conn, requiresAck: bool) {
    !requiresAck && c.pending == [] && c.acksToSend == []
  }

  /** A message goes out or is queued: it fits by itself, a counter is left, and there is room in the queue. */
  predicate Takes(c: Conn, payload: Payload, requiresAck: bool) {
    && 16 + 4 + |PayloadBytes(payload, Single(c, requiresAck))| <= MostBytes(c.kind)
    && c.counter < 0x3FFF_FFFF
    && (requiresAck ==> |c.pending| < 65536)
  }

  /** A service call sends a packet exactly if anything waits and a counter is left. */
  lemma ServiceIsSentIff(c: Conn, cause: nat, now: int)
    ensures var r := PrepareService(c, cause, now);
            && (r.packet != [] <==> (c.pending != [] || c.acksToSend != []) && c.counter < 0x3FFF_FFFF)
            && (r.packet != [] ==> r.packet[0].Empty? && CounterFromSeq(r.packet[0].seqNum) == c.counter + 1)
            && r.conn.counter == c.counter + (if r.packet != [] then 1 else 0)
            && SameMessages(c.pending, r.conn.pending)
  {
    hide CountAcks, CountResends;
  }

  /** A message that needs an acknowledgement is queued behind the others exactly if it is taken, under the next
      counter; otherwise the queue stays as it is and there is no packet. */
  lemma QueuedIff(c: Conn, payload: Payload, now: int)
    ensures var r := PrepareMessage(c, payload, true, now);
            if Takes(c, payload, true) then
              && |r.conn.pending| == |c.pending| + 1 && SameMessages(c.pending, r.conn.pending[..|c.pending|])
              && var p := r.conn.pending[|c.pending|];
                 p.payload == payload && p.Counter() == c.counter + 1 && RequiresAck(p.seqNum)
            else r.conn.pending == c.pending && r.packet == []
  {
    hide PayloadBytes, CountAcks, CountResends, PrepareService;
    if c.counter < MAX_ALLOWED_COUNTER {
      var main := Msg(MakeSeq(c.counter + 1, true, false), payload);
      PayloadInside(main.seqNum, payload);
      var all := MakeDue(c.pending + [Pending(main.seqNum, payload, now)]);
      ServiceIsSentIff(c.(counter := c.counter + 1, pending := all), CAUSE_NONE, now);
    }
  }

  /** A message that needs no acknowledgement goes out at once, in front, exactly if it is taken; nothing is queued. */
  lemma SentIff(c: Conn, payload: Payload, now: int)
    ensures var r := PrepareMessage(c, payload, false, now);
            && (r.packet != [] <==> Takes(c, payload, false))
            && (r.packet != [] ==>
                  r.packet[0] == Msg(MakeSeq(c.counter + 1, false, Single(c, false)), payload))
            && SameMessages(c.pending, r.conn.pending)
  {
    hide PayloadBytes, CountAcks, CountResends;
    if c.counter < MAX_ALLOWED_COUNTER {
      PayloadInside(MakeSeq(c.counter + 1, false, Single(c, false)), payload);
    }
  }

  // --- Over every run

  lemma ArrivalShrinks(c: Conn, form: Form, bytes: seq<byte>)
    ensures |HandleIncoming(c, form, bytes).conn.pending| <= |c.pending|
  {
    ArrivalResendFlag(c, form, bytes);
  }

  lemma HandleBounds(h: Host, e: Event)
    requires |h.conn.pending| <= 65536
    ensures |Handle(h, e).conn.pending| <= 65536
  {
    hide PrepareMessage, PrepareService, HandleIncoming, ProcessedItems, Takes;
    match e
    case SendMessage(payload, requiresAck, now) =>
      if requiresAck {
        QueuedIff(h.conn, payload, now);
        TakesWithRoom(h.conn, payload);
      } else {
        SentIff(h.conn, payload, now);
      }
    case SendService(cause, now) =>
      ServiceIsSentIff(h.conn, cause, now);
    case Incoming(form, bytes) =>
      ArrivalShrinks(h.conn, form, bytes);
  }

  lemma TakesWithRoom(c: Conn, payload: Payload)
    ensures Takes(c, payload, true) ==> |c.pending| < 65536
  {
  }

  lemma {:induction false} RunBounds(h: Host, events: seq<Event>)
    requires |h.conn.pending| <= 65536
    ensures |HandleAll(h, events).conn.pending| <= 65536
    decreases |events|
  {
    hide Handle;
    if events != [] {
      HandleBounds(h, events[0]);
      RunBounds(Handle(h, events[0]), events[1..]);
    }
  }

  /** Whatever comes in, the queue never holds more than 65536 messages. */
  lemma {:induction false} QueueIsBounded(kind: Kind, events: seq<Event>)
    ensures |HandleAll(NewHost(kind), events).conn.pending| <= 65536
  {
    RunBounds(NewHost(kind), events);
  }

  /** The requests an endpoint can make: for acknowledgements of new messages at once, for those of repeated ones and
      for resends after 5 seconds, or after one where packets travel directly. */
  predicate IsTimed(kind: Kind, r: Request) {
    || r == Request(0, CAUSE_NONE)
    || (r.delayMs == (match kind case Signaling => 5000 case Transport => 1000)
        && (r.cause == CAUSE_ACKS || r.cause == CAUSE_RESEND))
  }

  ghost predicate AllTimed(c: Conn) {
    forall i | 0 <= i < |c.requests| :: IsTimed(c.kind, c.requests[i])
  }

  lemma ServiceTimed(c: Conn, cause: nat, now: int)
    requires AllTimed(c)
    ensures var c' := PrepareService(c, cause, now).conn; AllTimed(c') && c'.kind == c.kind
  {
    hide CountAcks, CountResends;
  }

  lemma MessageTimed(c: Conn, payload: Payload, requiresAck: bool, now: int)
    requires AllTimed(c)
    ensures var c' := PrepareMessage(c, payload, requiresAck, now).conn; AllTimed(c') && c'.kind == c.kind
  {
    hide CountAcks, CountResends, PrepareService, ItemBytes;
    if c.counter < MAX_ALLOWED_COUNTER {
      var main := Msg(MakeSeq(c.counter + 1, requiresAck, Single(c, requiresAck)), payload);
      var all := MakeDue(c.pending + [Pending(main.seqNum, payload, now)]);
      ServiceTimed(c.(counter := c.counter + 1, pending := all), CAUSE_NONE, now);
    }
  }

  lemma ArrivalTimed(c: Conn, form: Form, bytes: seq<byte>)
    requires AllTimed(c)
    ensures var c' := HandleIncoming(c, form, bytes).conn; AllTimed(c') && c'.kind == c.kind
  {
    hide ParsePacket, ApplyAll, Accepts, Register;
    if |bytes| >= 5 {
      var counter := CounterFromSeq(ReadU32(bytes).value);
      var start := Cursor(c.(incoming := Register(c.incoming, counter)), counter, false, true, false, []);
      ApplyAllOnlyReceives(start, ParsePacket(form, bytes).items);
    }
  }

  lemma HandleTimed(h: Host, e: Event)
    requires AllTimed(h.conn)
    ensures AllTimed(Handle(h, e).conn) && Handle(h, e).conn.kind == h.conn.kind
  {
    hide PrepareMessage, PrepareService, HandleIncoming, ProcessedItems, AllTimed;
    match e
    case SendMessage(payload, requiresAck, now) => MessageTimed(h.conn, payload, requiresAck, now);
    case SendService(cause, now) => ServiceTimed(h.conn, cause, now);
    case Incoming(form, bytes) => ArrivalTimed(h.conn, form, bytes);
  }

  lemma {:induction false} RunTimed(h: Host, events: seq<Event>)
    requires AllTimed(h.conn)
    ensures AllTimed(HandleAll(h, events).conn) && HandleAll(h, events).conn.kind == h.conn.kind
    decreases |events|
  {
    hide Handle, AllTimed;
    if events != [] {
      HandleTimed(h, events[0]);
      RunTimed(Handle(h, events[0]), events[1..]);
    }
  }

  /** Over any run with any bytes coming in: only such requests are made. */
  lemma {:induction false} RequestsAreTimed(kind: Kind, events: seq<Event>)
    ensures var h := HandleAll(NewHost(kind), events);
            forall i | 0 <= i < |h.conn.requests| :: IsTimed(kind, h.conn.requests[i])
  {
    RunTimed(NewHost(kind), events);
  }

  // --- Acknowledgements in order

  /** The acknowledgements written so far, and then those waiting. */
  function InOrder(h: Host): seq<uint32> {
    h.written + h.conn.acksToSend
  }

  lemma {:induction false} AbsorbedBehind(l: Ledger, entries: seq<Entry>)
    ensures l.acksToSend <= AbsorbAll(l, entries).acksToSend
    decreases |entries|
  {
    hide RegisterSentAck, AlreadyAcked;
    if entries != [] {
      AbsorbedBehind(Absorb(l, entries[0]), entries[1..]);
    }
  }

  lemma ArrivalBehind(c: Conn, form: Form, bytes: seq<byte>)
    ensures c.acksToSend <= HandleIncoming(c, form, bytes).conn.acksToSend
  {
    hide ParsePacket, ApplyAll, Accepts, Register, AbsorbAll, Carried;
    if |bytes| >= 5 {
      var counter := CounterFromSeq(ReadU32(bytes).value);
      var start := Cursor(c.(incoming := Register(c.incoming, counter)), counter, false, true, false, []);
      var items := ParsePacket(form, bytes).items;
      ApplyAbsorbs(start, items, []);
      AbsorbedBehind(LedgerOf(start, []), Carried(items));
    }
  }

  lemma EmittedInOrder(h: Host, r: Prepared)
    requires Sends(h.conn, r)
    ensures InOrder(Emitted(h, r)) == InOrder(h)
  {
    hide AcksIn;
    if r.packet != [] {
      assert h.written + AcksIn(r.packet) + r.conn.acksToSend == h.written + (AcksIn(r.packet) + r.conn.acksToSend);
    }
  }

  lemma HandleInOrder(h: Host, e: Event)
    ensures InOrder(h) <= InOrder(Handle(h, e))
  {
    hide PrepareMessage, PrepareService, HandleIncoming, ProcessedItems, Emitted, Sends;
    match e
    case SendMessage(payload, requiresAck, now) =>
      MessageSends(h.conn, payload, requiresAck, now);
      EmittedInOrder(h, PrepareMessage(h.conn, payload, requiresAck, now));
    case SendService(cause, now) =>
      ServiceSends(h.conn, cause, now);
      var r := PrepareService(h.conn, cause, now);
      EmittedInOrder(h, r);
      EmittedInOrder(h.(servedAcks := h.servedAcks + 1), r);
      EmittedInOrder(h.(servedResend := h.servedResend + 1), r);
    case Incoming(form, bytes) =>
      ArrivalBehind(h.conn, form, bytes);
  }

  /** Over any run from any state: what is written or waits only grows at its end, so that acknowledgements leave in
      the order in which their messages were met. */
  lemma {:induction false} AcksLeaveInOrder(h: Host, events: seq<Event>)
    ensures InOrder(h) <= InOrder(HandleAll(h, events))
    decreases |events|
  {
    hide Handle, InOrder;
    if events != [] {
      HandleInOrder(h, events[0]);
      AcksLeaveInOrder(Handle(h, events[0]), events[1..]);
    }
  }

  // --- Packets

  /** Over any run and network every packet emitted is at most as long as may go out, its key included. */
  lemma {:induction false} PacketsAreShort(form: Form, kind: Kind, steps: seq<Link.Step>, byLeft: bool, k: nat)
    requires k < |Link.Sender(Link.Run(Link.Start(form, kind), steps), !byLeft).sent|
    ensures var x := Link.Sender(Link.Run(Link.Start(form, kind), steps), !byLeft);
            16 + |PacketBytes(x.sent[k])| <= MostBytes(x.conn.kind)
  {
    hide PacketBytes, Link.Run, Link.Start, ParsePacket;
    Link.EmittedPacketsParse(form, kind, steps, byLeft, k);
  }
}
