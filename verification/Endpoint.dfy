// One endpoint over any run of calls, whatever bytes come in: its timers, its
// acknowledgements, its counters and its resends.
module Endpoint {
  import opened Bytes
  import opened Wire
  import opened ReplayWindow
  import opened Connection
  import opened Delivery
  import opened Sending

  // --- The calls, and what the host records about them

  datatype Event =
    | SendMessage(payload: Payload, requiresAck: bool, now: int)
    | SendService(cause: nat, now: int)
    | Incoming(form: Form, bytes: seq<byte>)

  datatype Host = Host(
    conn: Conn,
    servedAcks: nat,             // answered requests with the cause of acknowledgements
    servedResend: nat,           // answered requests with the cause of resends
    processed: seq<uint32>,      // the messages requiring an acknowledgement that were met in packets
    written: seq<uint32>,        // the acknowledgements put into packets
    counters: seq<nat>)          // the counters of the packets emitted

  function Count(requests: seq<Request>, cause: nat): nat {
    if requests == [] then 0
    else Count(requests[..|requests| - 1], cause) + (if requests[|requests| - 1].cause == cause then 1 else 0)
  }

  function Outstanding(h: Host, cause: nat): int {
    Count(h.conn.requests, cause) - (if cause == CAUSE_ACKS then h.servedAcks else h.servedResend)
  }

  /** The host answers a request with a cause once. */
  predicate MayServe(h: Host, cause: nat) {
    cause == CAUSE_ACKS || cause == CAUSE_RESEND ==> Outstanding(h, cause) > 0
  }

  function Emitted(h: Host, r: Prepared): Host {
    if r.packet == [] then h.(conn := r.conn)
    else h.(conn := r.conn,
            written := h.written + AcksIn(r.packet),
            counters := h.counters + [CounterFromSeq(r.packet[0].seqNum)])
  }

  function SeqsOf(entries: seq<Entry>): seq<uint32> {
    if entries == [] then [] else [entries[0].seqNum] + SeqsOf(entries[1..])
  }

  /** The items of a packet that are processed: those before an error, if its counter is new. */
  function ProcessedItems(c: Conn, form: Form, bytes: seq<byte>): seq<Item> {
    if |bytes| < 5 || MAX_INCOMING_PACKET_SIZE < MSG_KEY_SIZE + |bytes|
       || !Accepts(c.incoming, CounterFromSeq(ReadU32(bytes).value))
    then []
    else ParsePacket(form, bytes).items
  }

  function Handle(h: Host, e: Event): Host {
    match e
    case SendMessage(payload, requiresAck, now) => Emitted(h, PrepareMessage(h.conn, payload, requiresAck, now))
    case SendService(cause, now) =>
      if !MayServe(h, cause) then h
      else
        var served :=
          if cause == CAUSE_ACKS then h.(servedAcks := h.servedAcks + 1)
          else if cause == CAUSE_RESEND then h.(servedResend := h.servedResend + 1)
          else h;
        Emitted(served, PrepareService(h.conn, cause, now))
    case Incoming(form, bytes) =>
      h.(conn := HandleIncoming(h.conn, form, bytes).conn,
         processed := h.processed + SeqsOf(Carried(ProcessedItems(h.conn, form, bytes))))
  }

  function HandleAll(h: Host, events: seq<Event>): Host
    decreases |events|
  {
    if events == [] then h else HandleAll(Handle(h, events[0]), events[1..])
  }

  function NewHost(kind: Kind): Host {
    Host(NewConn(kind), 0, 0, [], [], [])
  }

  // --- What an incoming packet leaves alone

  ghost predicate OnlyReceived(c: Conn, c': Conn) {
    && c'.kind == c.kind && c'.counter == c.counter && c'.requests == c.requests
    && c'.resendTimer == c.resendTimer && c'.acksTimer == c.acksTimer
    && |c'.pending| <= |c.pending|
  }

  lemma {:induction false} AckMessageShrinks(pending: seq<Pending>, seqNum: uint32)
    ensures |AckMessage(pending, seqNum)| <= |pending|
  {
    if pending != [] {
      AckMessageShrinks(pending[1..], seqNum);
    }
  }

  lemma {:induction false} ApplyAllOnlyReceives(c: Cursor, items: seq<Item>)
    ensures OnlyReceived(c.conn, ApplyAll(c, items).conn)
    decreases |items|
  {
    hide RegisterSentAck, AlreadyAcked, PostponeAck, AckMessage, Register, Accepts;
    if items != [] {
      AckMessageShrinks(c.conn.pending, items[0].seqNum);
      ApplyAllOnlyReceives(Apply(c, items[0]), items[1..]);
    }
  }

  // --- Timers

  /** Each flag stands for exactly one outstanding request, and two waiting messages keep the resend timer on. */
  ghost predicate TimersOk(c: Conn, servedAcks: int, servedResend: int) {
    && Count(c.requests, CAUSE_ACKS) - servedAcks == (if c.acksTimer then 1 else 0)
    && Count(c.requests, CAUSE_RESEND) - servedResend == (if c.resendTimer then 1 else 0)
    && (|c.pending| >= 2 && c.counter < MAX_ALLOWED_COUNTER ==> c.resendTimer)
  }

  lemma {:induction false} CountPush(requests: seq<Request>, r: Request, cause: nat)
    ensures Count(requests + [r], cause) == Count(requests, cause) + (if r.cause == cause then 1 else 0)
  {
    assert (requests + [r])[..|requests|] == requests;
  }

  lemma AppendAdditionalTimers(c: Conn, size: nat, now: int, servedAcks: int, servedResend: int)
    requires Count(c.requests, CAUSE_ACKS) - servedAcks == (if c.acksTimer then 1 else 0)
    requires Count(c.requests, CAUSE_RESEND) - servedResend == (if c.resendTimer then 1 else 0)
    ensures var c' := AppendAdditional(c, size, now).conn;
            && TimersOk(c', servedAcks, servedResend)
            && |c'.pending| == |c.pending| && c'.counter == c.counter && c'.kind == c.kind
  {
    hide Count, CountAcks, CountResends;
    var request := Request(MaxDelayBeforeMessageResend(c.kind), CAUSE_RESEND);
    CountPush(c.requests, request, CAUSE_ACKS);
    CountPush(c.requests, request, CAUSE_RESEND);
  }

  lemma ServiceTimers(c: Conn, cause: nat, now: int, servedAcks: int, servedResend: int)
    requires var c' := ClearTimer(c, cause);
             && Count(c'.requests, CAUSE_ACKS) - servedAcks == (if c'.acksTimer then 1 else 0)
             && Count(c'.requests, CAUSE_RESEND) - servedResend == (if c'.resendTimer then 1 else 0)
    ensures TimersOk(PrepareService(c, cause, now).conn, servedAcks, servedResend)
  {
    hide Count, AppendAdditional;
    var c' := ClearTimer(c, cause);
    if HaveAdditional(c') && CounterLeft(c', false) {
      AppendAdditionalTimers(c'.(counter := c'.counter + 1), EMPTY_SERIALIZED_SIZE, now, servedAcks, servedResend);
    }
  }

  lemma MainTimers(c: Conn, main: Item, requiresAck: bool, now: int, servedAcks: int, servedResend: int)
    requires main.Msg? && TimersOk(c, servedAcks, servedResend)
    ensures TimersOk(PrepareMain(c, main, requiresAck, now).conn, servedAcks, servedResend)
  {
    hide Count, AppendAdditional, PrepareService, ItemBytes;
    AppendAdditionalTimers(c, |ItemBytes(main)|, now, servedAcks, servedResend);
    var queued := Pending(main.seqNum, main.payload, now);
    ServiceTimers(c.(pending := MakeDue(c.pending + [queued])), CAUSE_NONE, now, servedAcks, servedResend);
  }

  lemma ArrivalTimers(c: Conn, form: Form, bytes: seq<byte>, servedAcks: int, servedResend: int)
    requires TimersOk(c, servedAcks, servedResend)
    ensures TimersOk(HandleIncoming(c, form, bytes).conn, servedAcks, servedResend)
  {
    hide Count, ParsePacket, ApplyAll, Accepts, Register;
    if |bytes| >= 5 && MSG_KEY_SIZE + |bytes| <= MAX_INCOMING_PACKET_SIZE {
      var counter := CounterFromSeq(ReadU32(bytes).value);
      var start := Cursor(c.(incoming := Register(c.incoming, counter)), counter, false, true, false, []);
      var end := ApplyAll(start, ParsePacket(form, bytes).items);
      ApplyAllOnlyReceives(start, ParsePacket(form, bytes).items);
      var now, later := Request(0, CAUSE_NONE), Request(MaxDelayBeforeAckResend(c.kind), CAUSE_ACKS);
      CountPush(c.requests, now, CAUSE_ACKS);
      CountPush(c.requests, now, CAUSE_RESEND);
      CountPush(c.requests, later, CAUSE_ACKS);
      CountPush(c.requests, later, CAUSE_RESEND);
    }
  }

  lemma HandleTimers(h: Host, e: Event)
    requires TimersOk(h.conn, h.servedAcks, h.servedResend)
    ensures TimersOk(Handle(h, e).conn, Handle(h, e).servedAcks, Handle(h, e).servedResend)
  {
    hide Count, PrepareMain, PrepareService, HandleIncoming, ProcessedItems;
    match e
    case SendMessage(payload, requiresAck, now) =>
      if CounterLeft(h.conn, requiresAck) {
        var main := Msg(MakeSeq(h.conn.counter + 1, requiresAck, !HaveAdditional(h.conn) && !requiresAck), payload);
        MainTimers(h.conn.(counter := h.conn.counter + 1), main, requiresAck, now, h.servedAcks, h.servedResend);
      }
    case SendService(cause, now) =>
      if MayServe(h, cause) {
        ServiceTimers(h.conn, cause, now, Handle(h, e).servedAcks, Handle(h, e).servedResend);
      }
    case Incoming(form, bytes) =>
      ArrivalTimers(h.conn, form, bytes, h.servedAcks, h.servedResend);
  }

  lemma {:induction false} RunTimers(h: Host, events: seq<Event>)
    requires TimersOk(h.conn, h.servedAcks, h.servedResend)
    ensures var h' := HandleAll(h, events); TimersOk(h'.conn, h'.servedAcks, h'.servedResend)
    decreases |events|
  {
    hide Handle, TimersOk;
    if events != [] {
      HandleTimers(h, events[0]);
      RunTimers(Handle(h, events[0]), events[1..]);
    }
  }

  /** Over any run: a timer flag is up exactly when one request of its cause is unanswered, never two;
      and with two or more messages waiting and counters left, a resend is always requested. */
  lemma {:induction false} TimersAreExact(kind: Kind, events: seq<Event>)
    ensures var h := HandleAll(NewHost(kind), events);
            && Outstanding(h, CAUSE_ACKS) == (if h.conn.acksTimer then 1 else 0)
            && Outstanding(h, CAUSE_RESEND) == (if h.conn.resendTimer then 1 else 0)
            && (|h.conn.pending| >= 2 && h.conn.counter < MAX_ALLOWED_COUNTER ==> Outstanding(h, CAUSE_RESEND) == 1)
  {
    RunTimers(NewHost(kind), events);
  }

  // --- A message that waits without a resend request

  /** A message that is not sent in the single form fits. */
  predicate MainFits(kind: Kind, payload: Payload) {
    MSG_KEY_SIZE + 4 + |PayloadBytes(payload, false)| <= PacketLimit(kind)
  }

  /** Sending a message that needs an acknowledgement, from any state: a resend is requested exactly when
      one was already or others were waiting and a second counter was left, for only then is the queue
      put behind something. */
  lemma ResendRequestedIff(c: Conn, payload: Payload, now: int)
    ensures PrepareMessage(c, payload, true, now).conn.resendTimer
       <==> || c.resendTimer
            || (c.pending != [] && CounterLeft(c, true) && MainFits(c.kind, payload) && c.counter + 1 < MAX_ALLOWED_COUNTER)
  {
    hide PayloadBytes, CountAcks, CountResends;
    PayloadInside(MakeSeq(if c.counter == MAX_ALLOWED_COUNTER then 0 else c.counter + 1, true, false), payload);
  }

  /** Messages are put behind something: behind a message or a service that has a counter left. */
  predicate Appends(h: Host, e: Event) {
    h.conn.pending != [] && match e
      case SendMessage(payload, requiresAck, _) =>
        && CounterLeft(h.conn, requiresAck) && MainFits(h.conn.kind, payload)
        && (requiresAck ==> h.conn.counter + 1 < MAX_ALLOWED_COUNTER)
      case SendService(cause, _) => MayServe(h, cause) && CounterLeft(h.conn, false)
      case Incoming(_, _) => false
  }

  /** A message is put into an empty queue while no resend is requested. */
  predicate QueuesAlone(h: Host, e: Event) {
    && e.SendMessage? && e.requiresAck
    && h.conn.pending == [] && !h.conn.resendTimer
    && CounterLeft(h.conn, true) && MainFits(h.conn.kind, e.payload)
  }

  predicate ServesResend(h: Host, e: Event) {
    e.SendService? && e.cause == CAUSE_RESEND && MayServe(h, CAUSE_RESEND)
  }

  /** What one call makes of the resend flag, and how a queue comes to be non-empty. */
  ghost predicate ResendStep(h: Host, e: Event, c': Conn) {
    && c'.resendTimer == (Appends(h, e) || (h.conn.resendTimer && !ServesResend(h, e)))
    && (h.conn.pending == [] && !h.conn.resendTimer && c'.pending != [] ==> QueuesAlone(h, e))
    && (QueuesAlone(h, e) ==> c'.pending != [])
    && h.conn.counter <= c'.counter
  }

  lemma ServiceResendFlag(c: Conn, cause: nat, now: int)
    ensures var c' := PrepareService(c, cause, now).conn;
            && c'.resendTimer == ((c.pending != [] && CounterLeft(c, false)) || (c.resendTimer && cause != CAUSE_RESEND))
            && |c'.pending| == |c.pending| && c.counter <= c'.counter
  {
    hide CountAcks, CountResends;
  }

  lemma MessageResendFlag(c: Conn, payload: Payload, requiresAck: bool, now: int)
    ensures var c' := PrepareMessage(c, payload, requiresAck, now).conn;
            var taken := CounterLeft(c, requiresAck) && MainFits(c.kind, payload);
            && c.counter <= c'.counter
            && (c.pending != [] ==>
                  c'.resendTimer == (c.resendTimer || (taken && (requiresAck ==> c.counter + 1 < MAX_ALLOWED_COUNTER))))
            && (c.pending == [] ==> c'.resendTimer == c.resendTimer && (c'.pending != [] <==> requiresAck && taken))
  {
    hide PayloadBytes, CountAcks, CountResends, PrepareService;
    if c.counter < MAX_ALLOWED_COUNTER {
      var single := !HaveAdditional(c) && !requiresAck;
      var c1, main := c.(counter := c.counter + 1), Msg(MakeSeq(c.counter + 1, requiresAck, single), payload);
      PayloadInside(main.seqNum, payload);
      ServiceResendFlag(c1.(pending := MakeDue(c.pending + [Pending(main.seqNum, payload, now)])), CAUSE_NONE, now);
    }
  }

  lemma HandleResendFlag(h: Host, e: Event)
    ensures ResendStep(h, e, Handle(h, e).conn)
  {
    hide PrepareMessage, PrepareService, HandleIncoming, ProcessedItems, MainFits, Count;
    match e
    case SendMessage(payload, requiresAck, now) =>
      MessageResendFlag(h.conn, payload, requiresAck, now);
    case SendService(cause, now) =>
      ServiceResendFlag(h.conn, cause, now);
    case Incoming(form, bytes) =>
      ArrivalResendFlag(h.conn, form, bytes);
  }

  lemma ArrivalResendFlag(c: Conn, form: Form, bytes: seq<byte>)
    ensures var c' := HandleIncoming(c, form, bytes).conn;
            c'.resendTimer == c.resendTimer && |c'.pending| <= |c.pending| && c'.counter == c.counter
  {
    hide ParsePacket, ApplyAll, Accepts, Register;
    if |bytes| >= 5 && MSG_KEY_SIZE + |bytes| <= MAX_INCOMING_PACKET_SIZE {
      var counter := CounterFromSeq(ReadU32(bytes).value);
      var start := Cursor(c.(incoming := Register(c.incoming, counter)), counter, false, true, false, []);
      ApplyAllOnlyReceives(start, ParsePacket(form, bytes).items);
    }
  }

  lemma {:induction false} HandleAllLast(h: Host, events: seq<Event>)
    requires events != []
    ensures HandleAll(h, events) == Handle(HandleAll(h, events[..|events| - 1]), events[|events| - 1])
    decreases |events|
  {
    hide Handle;
    if |events| > 1 {
      assert events[1..][..|events| - 2] == events[..|events| - 1][1..];
      HandleAllLast(Handle(h, events[0]), events[1..]);
    }
  }

  function Before(h: Host, events: seq<Event>, k: nat): Host
    requires k <= |events|
  {
    HandleAll(h, events[..k])
  }

  /** Call number k was the last to put a message into an empty queue without a resend request, and nothing
      was put behind anything since. */
  ghost predicate LeftAloneSince(h: Host, events: seq<Event>, k: nat) {
    && k < |events|
    && QueuesAlone(Before(h, events, k), events[k])
    && (forall j | k < j < |events| :: !QueuesAlone(Before(h, events, j), events[j]))
    && (forall j | k < j < |events| :: !Appends(Before(h, events, j), events[j]))
  }

  lemma LeftAloneExtends(h: Host, events: seq<Event>, k: nat)
    requires events != []
    ensures var n := |events| - 1;
            k < n ==> (LeftAloneSince(h, events, k)
                  <==> && LeftAloneSince(h, events[..n], k)
                       && !QueuesAlone(Before(h, events, n), events[n]) && !Appends(Before(h, events, n), events[n]))
    ensures LeftAloneSince(h, events, |events| - 1) <==> QueuesAlone(Before(h, events, |events| - 1), events[|events| - 1])
  {
    hide HandleAll, QueuesAlone, Appends;
    var n := |events| - 1;
    assert forall j | 0 <= j <= n :: events[..n][..j] == events[..j];
    assert forall j | 0 <= j <= n :: Before(h, events[..n], j) == Before(h, events, j);
  }

  /** Nothing was put behind anything since: the flag is still down. */
  lemma {:induction false} AloneHasNoFlag(h: Host, events: seq<Event>, k: nat)
    requires LeftAloneSince(h, events, k)
    ensures !HandleAll(h, events).conn.resendTimer
    decreases |events|
  {
    hide Handle, HandleAll, QueuesAlone, Appends, LeftAloneSince;
    var n := |events| - 1;
    AloneIsInside(h, events, k);
    LeftAloneExtends(h, events, k);
    HandleAllLast(h, events);
    HandleResendFlag(Before(h, events, n), events[n]);
    if k < n {
      AloneHasNoFlag(h, events[..n], k);
    } else {
      AloneAppendsNothing(Before(h, events, n), events[n]);
    }
  }

  lemma AloneIsInside(h: Host, events: seq<Event>, k: nat)
    requires LeftAloneSince(h, events, k)
    ensures k < |events|
  {
  }

  lemma AloneAppendsNothing(h: Host, e: Event)
    requires QueuesAlone(h, e)
    ensures !Appends(h, e) && !h.conn.resendTimer
  {
  }

  /** A queue that waits without a flag was left alone. */
  lemma {:induction false} NoFlagIsAlone(h: Host, events: seq<Event>)
    requires h.conn.pending == [] && HandleAll(h, events).conn.counter < MAX_ALLOWED_COUNTER
    requires HandleAll(h, events).conn.pending != [] && !HandleAll(h, events).conn.resendTimer
    ensures exists k :: LeftAloneSince(h, events, k)
    decreases |events|
  {
    hide Handle, HandleAll, QueuesAlone, Appends, LeftAloneSince;
    assert events != [] by { HandleNothing(h); }
    var n := |events| - 1;
    var before := Before(h, events, n);
    HandleAllLast(h, events);
    HandleResendFlag(before, events[n]);
    if before.conn.pending == [] {
      FlagStays(before, events[n]);
      LeftAloneExtends(h, events, n);
      assert LeftAloneSince(h, events, n);
    } else {
      FlagStays(before, events[n]);
      assert !QueuesAlone(before, events[n]) by { AloneIsFirst(before, events[n]); }
      NoFlagIsAlone(h, events[..n]);
      var k :| LeftAloneSince(h, events[..n], k);
      AloneIsInside(h, events[..n], k);
      LeftAloneExtends(h, events, k);
    }
  }

  lemma AloneIsFirst(h: Host, e: Event)
    ensures QueuesAlone(h, e) ==> h.conn.pending == []
  {
  }

  lemma {:induction false} HandleNothing(h: Host)
    ensures HandleAll(h, []) == h
  {
  }

  /** The flag of a queue that is not empty goes down only without a counter left. */
  lemma FlagStays(h: Host, e: Event)
    requires Handle(h, e).conn.pending != [] && !Handle(h, e).conn.resendTimer
    requires Handle(h, e).conn.counter < MAX_ALLOWED_COUNTER
    ensures !h.conn.resendTimer && !Appends(h, e)
  {
    HandleResendFlag(h, e);
    hide Appends, QueuesAlone, PrepareMessage, HandleIncoming, ProcessedItems, Count;
    if ServesResend(h, e) {
      ServiceResendFlag(h.conn, CAUSE_RESEND, e.now);
    }
  }

  /** Over any run that leaves a counter: exactly one message waits without a resend request just when
      one waits that was put into an empty queue with none requested and nothing was put behind
      anything since. */
  lemma {:induction false} LoneWithoutRequestIff(kind: Kind, events: seq<Event>)
    requires HandleAll(NewHost(kind), events).conn.counter < MAX_ALLOWED_COUNTER
    ensures var h := HandleAll(NewHost(kind), events);
            |h.conn.pending| == 1 && Outstanding(h, CAUSE_RESEND) == 0
            <==> h.conn.pending != [] && exists k :: LeftAloneSince(NewHost(kind), events, k)
  {
    hide LeftAloneSince, Outstanding, HandleAll;
    TimersAreExact(kind, events);
    var h := HandleAll(NewHost(kind), events);
    if h.conn.pending != [] && !h.conn.resendTimer {
      NoFlagIsAlone(NewHost(kind), events);
    }
    if k :| LeftAloneSince(NewHost(kind), events, k) {
      AloneHasNoFlag(NewHost(kind), events, k);
    }
  }

  /** Two is the least number from which on a resend is always requested: a message sent by a new endpoint
      is queued without one. */
  lemma LoneMessageHasNoTimer(kind: Kind, payload: Payload, now: int)
    requires MainFits(kind, payload)
    ensures var c := PrepareMessage(NewConn(kind), payload, true, now).conn;
            |c.pending| == 1 && !c.resendTimer && c.requests == []
  {
    hide PayloadBytes;
    PayloadInside(MakeSeq(1, true, false), payload);
  }
}
