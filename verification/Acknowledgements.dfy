// Over any run of calls of one endpoint: acknowledgements are conserved and
// drained, counters ascend, and which waiting messages a service call resends.
module Acknowledgements {
  import opened Prelude
  import opened Bytes
  import opened Wire
  import opened ReplayWindow
  import opened Connection
  import opened Delivery
  import opened Sending
  import opened Endpoint

  // --- Conservation

  /** What a prepareForSending call does to counters and acknowledgements. */
  ghost predicate Sends(c: Conn, r: Prepared) {
    && c.counter <= r.conn.counter
    && (r.packet == [] ==> r.conn.acksToSend == c.acksToSend)
    && (r.packet != [] ==>
          && c.counter < r.conn.counter
          && CounterFromSeq(r.packet[0].seqNum) == r.conn.counter
          && AcksIn(r.packet) + r.conn.acksToSend == c.acksToSend)
  }

  lemma {:induction false} ResendItemsHoldNone(pending: seq<Pending>)
    ensures AcksIn(ResendItems(pending)) == []
  {
    if pending != [] {
      assert ResendItems(pending)[1..] == ResendItems(pending[1..]);
      ResendItemsHoldNone(pending[1..]);
    }
  }

  lemma AppendedAcks(c: Conn, main: Item, now: int)
    requires !main.Ack?
    ensures var r := AppendAdditional(c, |ItemBytes(main)|, now);
            && AcksIn([main] + r.packet) + r.conn.acksToSend == c.acksToSend
            && r.conn.counter == c.counter
  {
    hide AppendAdditional, ItemBytes, AckItems, ResendItems;
    var size := |ItemBytes(main)|;
    AppendAdditionalEffect(c, size, now);
    var a, k := AckCount(c, size), ResendCount(c, size, now);
    var acks, resends := AckItems(c.acksToSend[..a]), ResendItems(c.pending[..k]);
    AcksInConcat([main], acks + resends);
    AcksInConcat(acks, resends);
    AckItemsCarry(c.acksToSend[..a]);
    AckItemsOnWire(c.acksToSend[..a]);
    ResendItemsHoldNone(c.pending[..k]);
    assert AcksIn([main]) == [] by { assert [main][1..] == []; }
  }

  lemma ServiceSends(c: Conn, cause: nat, now: int)
    ensures Sends(c, PrepareService(c, cause, now))
  {
    hide AppendAdditional, AcksIn;
    var c' := ClearTimer(c, cause);
    if HaveAdditional(c') && CounterLeft(c', false) {
      AppendedAcks(c'.(counter := c'.counter + 1), Empty(MakeSeq(c'.counter + 1, false, false)), now);
    }
  }

  lemma MainSends(c: Conn, main: Item, requiresAck: bool, now: int)
    requires main.Msg? && CounterFromSeq(main.seqNum) == c.counter > 0
    ensures Sends(c.(counter := c.counter - 1), PrepareMain(c, main, requiresAck, now))
  {
    hide AppendAdditional, PrepareService, AcksIn, ItemBytes, Fits;
    AppendedAcks(c, main, now);
    var queued := Pending(main.seqNum, main.payload, now);
    ServiceSends(c.(pending := MakeDue(c.pending + [queued])), CAUSE_NONE, now);
  }

  lemma MessageSends(c: Conn, payload: Payload, requiresAck: bool, now: int)
    ensures Sends(c, PrepareMessage(c, payload, requiresAck, now))
  {
    hide PrepareMain, AcksIn;
    if CounterLeft(c, requiresAck) {
      var c1 := c.(counter := c.counter + 1);
      var main := Msg(MakeSeq(c1.counter, requiresAck, !HaveAdditional(c) && !requiresAck), payload);
      MainSends(c1, main, requiresAck, now);
      assert c1.(counter := c1.counter - 1) == c;
    }
  }

  lemma PostponeAckContents(acks: seq<uint32>, s: uint32)
    requires NoRepeats(acks)
    ensures NoRepeats(PostponeAck(acks, s))
    ensures forall t :: t in PostponeAck(acks, s) <==> t == s || t in acks
  {
  }

  lemma {:induction false} AbsorbedAcks(l: Ledger, entries: seq<Entry>)
    requires NoRepeats(l.acksToSend)
    ensures NoRepeats(AbsorbAll(l, entries).acksToSend)
    ensures forall t :: t in AbsorbAll(l, entries).acksToSend <==> t in l.acksToSend || t in SeqsOf(entries)
    decreases |entries|
  {
    hide RegisterSentAck, AlreadyAcked, PostponeAck, NoRepeats;
    if entries != [] {
      PostponeAckContents(l.acksToSend, entries[0].seqNum);
      AbsorbedAcks(Absorb(l, entries[0]), entries[1..]);
    }
  }

  /** Every message met is waiting to be acknowledged or was acknowledged in a packet, and nothing
      else is; nothing waits twice. */
  ghost predicate Conserved(h: Host) {
    && (forall s :: s in h.processed <==> s in h.conn.acksToSend || s in h.written)
    && NoRepeats(h.conn.acksToSend)
  }

  /** The counters of the packets emitted ascend and are used up. */
  ghost predicate CountersOk(h: Host) {
    Ascending(h.counters) && forall i | 0 <= i < |h.counters| :: h.counters[i] <= h.conn.counter
  }

  lemma EmittedKeeps(h: Host, r: Prepared)
    requires Conserved(h) && CountersOk(h) && Sends(h.conn, r)
    ensures Conserved(Emitted(h, r)) && CountersOk(Emitted(h, r))
  {
    hide AcksIn;
    if r.packet != [] {
      var acks, kept := AcksIn(r.packet), r.conn.acksToSend;
      assert acks + kept == h.conn.acksToSend;
      assert forall s :: s in h.conn.acksToSend <==> s in acks || s in kept;
      assert NoRepeats(kept) by {
        assert forall i | 0 <= i < |kept| :: kept[i] == h.conn.acksToSend[|acks| + i];
      }
    }
  }

  lemma ArrivalKeeps(h: Host, form: Form, bytes: seq<byte>)
    requires Conserved(h) && CountersOk(h)
    ensures Conserved(Handle(h, Incoming(form, bytes))) && CountersOk(Handle(h, Incoming(form, bytes)))
  {
    hide ParsePacket, ApplyAll, Accepts, Register, Carried, AbsorbAll, AcksIn, AckAll, NoRepeats, Ascending;
    var items := ProcessedItems(h.conn, form, bytes);
    NothingCarried();
    if |bytes| >= 5 && MSG_KEY_SIZE + |bytes| <= MAX_INCOMING_PACKET_SIZE
       && Accepts(h.conn.incoming, CounterFromSeq(ReadU32(bytes).value)) {
      var counter := CounterFromSeq(ReadU32(bytes).value);
      var start := Cursor(h.conn.(incoming := Register(h.conn.incoming, counter)), counter, false, true, false, []);
      ApplyAbsorbs(start, items, []);
      AbsorbedAcks(LedgerOf(start, []), Carried(items));
    }
  }

  lemma NothingCarried()
    ensures SeqsOf(Carried([])) == []
  {
  }

  lemma HandleKeeps(h: Host, e: Event)
    requires Conserved(h) && CountersOk(h)
    ensures Conserved(Handle(h, e)) && CountersOk(Handle(h, e))
  {
    hide PrepareMessage, PrepareService, HandleIncoming, ProcessedItems, Emitted, Conserved, CountersOk;
    match e
    case SendMessage(payload, requiresAck, now) =>
      MessageSends(h.conn, payload, requiresAck, now);
      EmittedKeeps(h, PrepareMessage(h.conn, payload, requiresAck, now));
    case SendService(cause, now) =>
      if MayServe(h, cause) {
        ServiceSends(h.conn, cause, now);
        var served :=
          if cause == CAUSE_ACKS then h.(servedAcks := h.servedAcks + 1)
          else if cause == CAUSE_RESEND then h.(servedResend := h.servedResend + 1)
          else h;
        ServedKeeps(h, h.servedAcks, h.servedResend);
        ServedKeeps(h, h.servedAcks + 1, h.servedResend);
        ServedKeeps(h, h.servedAcks, h.servedResend + 1);
        EmittedKeeps(served, PrepareService(h.conn, cause, now));
      }
    case Incoming(form, bytes) =>
      ArrivalKeeps(h, form, bytes);
  }

  lemma ServedKeeps(h: Host, acks: nat, resend: nat)
    requires Conserved(h) && CountersOk(h)
    ensures Conserved(h.(servedAcks := acks, servedResend := resend))
    ensures CountersOk(h.(servedAcks := acks, servedResend := resend))
  {
  }

  lemma {:induction false} RunKeeps(h: Host, events: seq<Event>)
    requires Conserved(h) && CountersOk(h)
    ensures Conserved(HandleAll(h, events)) && CountersOk(HandleAll(h, events))
    decreases |events|
  {
    hide Handle, Conserved, CountersOk;
    if events != [] {
      HandleKeeps(h, events[0]);
      RunKeeps(Handle(h, events[0]), events[1..]);
    }
  }

  /** Over any run, whatever comes in: the seqs of the messages requiring an acknowledgement that
      were met are exactly those waiting or written into an emitted packet, and the counters of
      the emitted packets ascend strictly below 2^30. */
  lemma {:induction false} AcksAreConserved(kind: Kind, events: seq<Event>)
    ensures var h := HandleAll(NewHost(kind), events);
            && (forall s :: s in h.processed <==> s in h.conn.acksToSend || s in h.written)
            && NoRepeats(h.conn.acksToSend)
            && Ascending(h.counters)
            && (forall i | 0 <= i < |h.counters| :: h.counters[i] < 0x4000_0000)
  {
    RunKeeps(NewHost(kind), events);
  }

  // --- Draining

  function Min(a: int, b: int): int {
    if a < b then a else b
  }

  /** The acknowledgements behind a main part: as many as there are five bytes for. */
  lemma {:induction false} CountAcksIsQuotient(kind: Kind, size: nat, acks: seq<uint32>)
    requires MSG_KEY_SIZE + size <= PacketLimit(kind)
    ensures CountAcks(kind, size, acks)
         == Min(|acks|, (PacketLimit(kind) - MSG_KEY_SIZE - size) / ACK_SERIALIZED_SIZE)
    decreases |acks|
  {
    if acks != [] && Fits(kind, size, ACK_SERIALIZED_SIZE) {
      CountAcksIsQuotient(kind, size + ACK_SERIALIZED_SIZE, acks[1..]);
    }
  }

  function AcksPerService(kind: Kind): nat {
    (PacketLimit(kind) - MSG_KEY_SIZE - EMPTY_SERIALIZED_SIZE) / ACK_SERIALIZED_SIZE
  }

  /** A service call writes the oldest acknowledgements, up to what a packet holds. */
  lemma ServiceWritesAcks(c: Conn, cause: nat, now: int)
    requires c.counter < MAX_ALLOWED_COUNTER
    ensures var r := PrepareService(c, cause, now);
            && r.conn.acksToSend == c.acksToSend[Min(|c.acksToSend|, AcksPerService(c.kind))..]
            && r.conn.kind == c.kind && r.conn.counter <= c.counter + 1
  {
    hide AppendAdditional, CountAcks;
    var c' := ClearTimer(c, cause);
    if HaveAdditional(c') {
      CountAcksIsQuotient(c.kind, EMPTY_SERIALIZED_SIZE, c.acksToSend);
      AppendAdditionalEffect(c'.(counter := c'.counter + 1), EMPTY_SERIALIZED_SIZE, now);
    }
  }

  function Services(c: Conn, n: nat, now: int): Conn
    decreases n
  {
    if n == 0 then c else Services(PrepareService(c, CAUSE_NONE, now).conn, n - 1, now)
  }

  /** Enough service calls write all waiting acknowledgements. */
  lemma {:induction false} ServicesDrainAcks(c: Conn, n: nat, now: int)
    requires c.counter + n <= MAX_ALLOWED_COUNTER
    requires |c.acksToSend| <= n * AcksPerService(c.kind)
    ensures Services(c, n, now).acksToSend == []
    decreases n
  {
    hide PrepareService;
    if n > 0 {
      ServiceWritesAcks(c, CAUSE_NONE, now);
      assert n * AcksPerService(c.kind) == AcksPerService(c.kind) + (n - 1) * AcksPerService(c.kind);
      ServicesDrainAcks(PrepareService(c, CAUSE_NONE, now).conn, n - 1, now);
    }
  }

  // --- Resending

  /** Behind a main part of size bytes the first message of the queue is resent exactly when it is due
      and fits behind the acknowledgements. */
  lemma HeadIsAppendedIff(c: Conn, size: nat, now: int)
    requires c.pending != []
    ensures c.pending[0].AsItem() in AppendAdditional(c, size, now).packet
       <==> && Due(c.kind, c.pending[0], now)
            && Fits(c.kind, size + ACK_SERIALIZED_SIZE * AckCount(c, size), |ItemBytes(c.pending[0].AsItem())|)
  {
    var head, k := c.pending[0].AsItem(), ResendCount(c, size, now);
    assert k > 0 <==> && Due(c.kind, c.pending[0], now)
                      && Fits(c.kind, size + ACK_SERIALIZED_SIZE * AckCount(c, size), |ItemBytes(head)|);
    hide AppendAdditional, CountAcks, CountResends, Due, Fits, ItemBytes, SameMessages, AckCount, ResendCount;
    AppendAdditionalEffect(c, size, now);
    var acks, resends := AckItems(c.acksToSend[..AckCount(c, size)]), ResendItems(c.pending[..k]);
    if k > 0 {
      assert resends[0] == head;
    } else {
      assert resends == [];
    }
  }

  /** A service call resends the first message of the queue exactly when it is due and fits behind the
      five-byte empty part and the acknowledgements, as many as there are five bytes for. */
  lemma HeadIsResentIff(c: Conn, cause: nat, now: int)
    requires c.counter < MAX_ALLOWED_COUNTER && c.pending != []
    ensures c.pending[0].AsItem() in PrepareService(c, cause, now).packet
       <==> && Due(c.kind, c.pending[0], now)
            && MSG_KEY_SIZE + EMPTY_SERIALIZED_SIZE + ACK_SERIALIZED_SIZE * Min(|c.acksToSend|, AcksPerService(c.kind))
               + |ItemBytes(c.pending[0].AsItem())| <= PacketLimit(c.kind)
  {
    hide AppendAdditional, CountAcks, ItemBytes, Due;
    var c1 := ClearTimer(c, cause).(counter := c.counter + 1);
    CountAcksIsQuotient(c.kind, EMPTY_SERIALIZED_SIZE, c.acksToSend);
    HeadIsAppendedIff(c1, EMPTY_SERIALIZED_SIZE, now);
    var rest := AppendAdditional(c1, EMPTY_SERIALIZED_SIZE, now).packet;
    var packet := PrepareService(c, cause, now).packet;
    assert packet[0].Empty? && packet[1..] == rest;
  }
}
