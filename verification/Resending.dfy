// How much of the queue goes behind what is sent, and when: as much as is due and fits, all of it when a
// message is queued behind others, and nothing that was sent a moment ago.
module Resending {
  import opened Bytes
  import opened Wire
  import opened Connection
  import opened Delivery
  import opened Sending
  import opened HandingUp
  import Acknowledgements
  import Progress

  /** The bytes of these messages. */
  function Size(pending: seq<Pending>): nat
    decreases |pending|
  {
    if pending == [] then 0 else Size(pending[..|pending| - 1]) + |ItemBytes(pending[|pending| - 1].AsItem())|
  }

  /** A message that was never sent, or that is to go at once, may go; another one when 3 seconds have passed since
      it was sent, or 300 milliseconds where packets travel directly. */
  predicate MayGo(kind: Kind, p: Pending, now: int) {
    if p.lastSent == 0 then 0 <= now
    else now - p.lastSent >= (match kind case Signaling => 3000 case Transport => 300)
  }

  /** The first k messages go behind size bytes: all may, they fit, and the next one may not or does not fit. */
  ghost predicate GoesBehind(kind: Kind, size: nat, pending: seq<Pending>, now: int, k: nat) {
    && k <= |pending|
    && (forall j | 0 <= j < k :: MayGo(kind, pending[j], now))
    && (k > 0 ==> MSG_KEY_SIZE + size + Size(pending[..k]) <= PacketLimit(kind))
    && (k < |pending| ==>
          !MayGo(kind, pending[k], now) || PacketLimit(kind) < MSG_KEY_SIZE + size + Size(pending[..k + 1]))
  }

  lemma {:induction false} SizeFromFront(pending: seq<Pending>)
    requires pending != []
    ensures Size(pending) == |ItemBytes(pending[0].AsItem())| + Size(pending[1..])
    decreases |pending|
  {
    hide ItemBytes;
    var n := |pending| - 1;
    if n == 0 {
      assert pending[..0] == [] && pending[1..] == [];
    } else {
      SizeFromFront(pending[..n]);
      assert pending[..n][1..] == pending[1..][..n - 1];
    }
  }

  lemma MayGoWhenDue(kind: Kind, p: Pending, now: int)
    ensures MayGo(kind, p, now) <==> Due(kind, p, now)
  {
  }

  lemma NothingHasNoSize(pending: seq<Pending>)
    ensures Size(pending[..0]) == 0
  {
  }

  lemma OneIsItsSize(pending: seq<Pending>)
    requires pending != []
    ensures Size(pending[..1]) == |ItemBytes(pending[0].AsItem())|
  {
    hide ItemBytes;
    assert pending[..1][..0] == [];
  }

  lemma GoesBehindFirst(kind: Kind, size: nat, pending: seq<Pending>, now: int, k: nat)
    requires pending != [] && MayGo(kind, pending[0], now)
    requires MSG_KEY_SIZE + size + |ItemBytes(pending[0].AsItem())| <= PacketLimit(kind)
    requires GoesBehind(kind, size + |ItemBytes(pending[0].AsItem())|, pending[1..], now, k)
    ensures GoesBehind(kind, size, pending, now, k + 1)
  {
    hide ItemBytes, MayGo, PacketLimit;
    var rest := pending[1..];
    assert pending[..k + 1][1..] == rest[..k];
    SizeFromFront(pending[..k + 1]);
    if k < |rest| {
      assert pending[..k + 2][1..] == rest[..k + 1];
      SizeFromFront(pending[..k + 2]);
    }
    NothingHasNoSize(rest);
    hide Size;
    assert forall j | 0 < j < |pending| :: pending[j] == rest[j - 1];
  }

  lemma GoesBehindNone(kind: Kind, size: nat, pending: seq<Pending>, now: int)
    requires pending == [] || !MayGo(kind, pending[0], now)
             || PacketLimit(kind) < MSG_KEY_SIZE + size + |ItemBytes(pending[0].AsItem())|
    ensures GoesBehind(kind, size, pending, now, 0)
  {
    hide ItemBytes, MayGo, PacketLimit;
    if pending != [] {
      OneIsItsSize(pending);
    }
  }

  lemma {:induction false} CountIsGreatest(kind: Kind, size: nat, pending: seq<Pending>, now: int)
    ensures GoesBehind(kind, size, pending, now, CountResends(kind, size, pending, now))
    decreases |pending|
  {
    hide ItemBytes, MayGo, Due, GoesBehind;
    if pending != [] {
      MayGoWhenDue(kind, pending[0], now);
    }
    if CountResends(kind, size, pending, now) > 0 {
      var amount := |ItemBytes(pending[0].AsItem())|;
      CountIsGreatest(kind, size + amount, pending[1..], now);
      GoesBehindFirst(kind, size, pending, now, CountResends(kind, size + amount, pending[1..], now));
    } else {
      GoesBehindNone(kind, size, pending, now);
    }
  }

  /** No other number of messages goes. */
  lemma GreatestIsOne(kind: Kind, size: nat, pending: seq<Pending>, now: int, k: nat, m: nat)
    requires GoesBehind(kind, size, pending, now, k) && GoesBehind(kind, size, pending, now, m)
    ensures k == m
  {
    hide MayGo, PacketLimit, Size;
    if k < m {
      SizeGrows(pending, k + 1, m);
    } else if m < k {
      SizeGrows(pending, m + 1, k);
    }
  }

  lemma {:induction false} SizeGrows(pending: seq<Pending>, k: nat, m: nat)
    requires k <= m <= |pending|
    ensures Size(pending[..k]) <= Size(pending[..m])
    decreases m
  {
    hide ItemBytes;
    if k < m {
      SizeGrows(pending, k, m - 1);
      assert pending[..m][..m - 1] == pending[..m - 1];
    }
  }

  /** The acknowledgements in front of the messages of a service packet. */
  function Ahead(c: Conn): nat {
    EMPTY_SERIALIZED_SIZE + ACK_SERIALIZED_SIZE * Progress.AcksTaken(c)
  }

  lemma AppendMarks(c: Conn, size: nat, now: int)
    ensures AppendAdditional(c, size, now).conn.pending == MarkSent(c.pending, ResendCount(c, size, now), now)
  {
    hide CountAcks, CountResends;
  }

  /** Any service call with something to send: its packet, and what becomes of the queue. */
  lemma ServiceSendsGreatest(c: Conn, cause: nat, now: int) returns (k: nat)
    requires HaveAdditional(c) && c.counter < MAX_ALLOWED_COUNTER
    ensures GoesBehind(c.kind, Ahead(c), c.pending, now, k)
    ensures var r, acks := PrepareService(c, cause, now), c.acksToSend[..Progress.AcksTaken(c)];
            && r.packet == [Empty(MakeSeq(c.counter + 1, false, false))] + (AckItems(acks) + ResendItems(c.pending[..k]))
            && |r.conn.pending| == |c.pending|
            && (forall i | 0 <= i < k :: r.conn.pending[i] == c.pending[i].(lastSent := now))
            && (forall i | k <= i < |c.pending| :: r.conn.pending[i] == c.pending[i])
            && r.conn.counter == c.counter + 1 && r.conn.kind == c.kind
  {
    hide CountAcks, CountResends, GoesBehind, AppendAdditional, SameMessages;
    var c1 := ClearTimer(c, cause).(counter := c.counter + 1);
    Acknowledgements.CountAcksIsQuotient(c.kind, EMPTY_SERIALIZED_SIZE, c.acksToSend);
    k := CountResends(c.kind, Ahead(c), c.pending, now);
    CountIsGreatest(c.kind, Ahead(c), c.pending, now);
    AppendAdditionalEffect(c1, EMPTY_SERIALIZED_SIZE, now);
    AppendMarks(c1, EMPTY_SERIALIZED_SIZE, now);
    assert ResendCount(c1, EMPTY_SERIALIZED_SIZE, now) == k;
  }

  /** A message that is sent at once, because it needs no acknowledgement or nothing is queued: in front of the oldest
      acknowledgements, as many as fit, and these of the longest beginning of the queue that may go and fits. */
  lemma MessageSendsGreatest(c: Conn, payload: Payload, requiresAck: bool, now: int) returns (a: nat, k: nat)
    requires CounterLeft(c, requiresAck) && (requiresAck ==> c.pending == [])
    requires Fits(c.kind, |ItemBytes(MainOf(c, payload, requiresAck))|, 0)
    ensures var main := MainOf(c, payload, requiresAck);
            var space := PacketLimit(c.kind) - MSG_KEY_SIZE - |ItemBytes(main)|;
            && space >= 0 && a == (if |c.acksToSend| < space / 5 then |c.acksToSend| else space / 5)
            && GoesBehind(c.kind, |ItemBytes(main)| + 5 * a, c.pending, now, k)
    ensures var r, main := PrepareMessage(c, payload, requiresAck, now), MainOf(c, payload, requiresAck);
            && r.packet == [main] + (AckItems(c.acksToSend[..a]) + ResendItems(c.pending[..k]))
            && r.conn.acksToSend == c.acksToSend[a..] && r.conn.counter == c.counter + 1
            && (requiresAck ==> r.conn.pending == [Pending(main.seqNum, payload, now)])
            && (!requiresAck ==> r.conn.pending == MarkSent(c.pending, k, now))
  {
    hide CountAcks, CountResends, GoesBehind, AppendAdditional, SameMessages, ItemBytes;
    var main := MainOf(c, payload, requiresAck);
    var size, c1 := |ItemBytes(main)|, c.(counter := c.counter + 1);
    Acknowledgements.CountAcksIsQuotient(c.kind, size, c.acksToSend);
    a, k := AckCount(c1, size), ResendCount(c1, size, now);
    CountIsGreatest(c.kind, size + 5 * a, c.pending, now);
    AppendAdditionalEffect(c1, size, now);
    AppendMarks(c1, size, now);
    if requiresAck {
      assert AppendAdditional(c1, size, now).conn.pending == [];
    }
  }

  /** The item under which a message goes out: alone in its packet in the single form. */
  function MainOf(c: Conn, payload: Payload, requiresAck: bool): Item
    requires c.counter < MAX_ALLOWED_COUNTER
  {
    Msg(MakeSeq(c.counter + 1, requiresAck, !requiresAck && c.pending == [] && c.acksToSend == []), payload)
  }

  lemma {:induction false} ResendsCarryAll(pending: seq<Pending>)
    requires QueueRequired(pending)
    ensures Carried(PacketOnWire(ResendItems(pending))) == Entries(pending)
  {
    hide EntryOf, CarriedBy, ItemOnWire;
    if pending != [] {
      var items := PacketOnWire(ResendItems(pending));
      assert items[1..] == PacketOnWire(ResendItems(pending[1..]));
      ResendsCarryAll(pending[1..]);
      ResendItemCarries(pending[0]);
      assert Entries(pending) == [EntryOf(pending[0])] + Entries(pending[1..]);
    }
  }

  lemma EmptyPartCarries(s: uint32, acks: seq<uint32>, pending: seq<Pending>)
    requires QueueRequired(pending)
    ensures Carried(PacketOnWire([Empty(s)] + (AckItems(acks) + ResendItems(pending)))) == Entries(pending)
  {
    var main := Empty(s);
    assert CarriedBy(ItemOnWire(main)) == [];
    hide CarriedBy, ItemOnWire, EntryOf;
    var a, r := AckItems(acks), ResendItems(pending);
    PacketOnWireConcat([main], a + r);
    PacketOnWireConcat(a, r);
    CarriedConcat(PacketOnWire(a), PacketOnWire(r));
    AckItemsCarry(acks);
    ResendsCarryAll(pending);
    MainCarries(main, PacketOnWire(a) + PacketOnWire(r));
    assert [] + Entries(pending) == Entries(pending);
  }

  lemma BehindOthers(c: Conn, payload: Payload, now: int)
    requires c.pending != [] && CounterLeft(c, true)
    requires Fits(c.kind, |ItemBytes(Msg(MakeSeq(c.counter + 1, true, false), payload))|, 0)
    ensures var all := c.pending + [Pending(MakeSeq(c.counter + 1, true, false), payload, now)];
            var due := c.(counter := c.counter + 1, pending := MakeDue(all));
            && PrepareMessage(c, payload, true, now) == PrepareService(due, CAUSE_NONE, now)
            && |due.pending| == |all| && SameMessages(all, due.pending)
            && (forall i | 0 <= i < |all| :: due.pending[i].lastSent == 0)
  {
    hide PrepareService, ItemBytes;
  }

  /** A message that is queued behind others, from any state: what is sent at once carries the queue from its
      front on, the new message included, as far as it fits, which nothing but its size ends. */
  lemma QueuedIsSentAtOnce(c: Conn, payload: Payload, now: int) returns (k: nat)
    requires c.pending != [] && QueueRequired(c.pending) && 0 <= now
    requires CounterLeft(c, true) && c.counter + 1 < MAX_ALLOWED_COUNTER
    requires Fits(c.kind, |ItemBytes(Msg(MakeSeq(c.counter + 1, true, false), payload))|, 0)
    ensures var all := c.pending + [Pending(MakeSeq(c.counter + 1, true, false), payload, now)];
            && k <= |all|
            && Carried(PacketOnWire(PrepareMessage(c, payload, true, now).packet)) == Entries(all[..k])
            && (k > 0 ==> MSG_KEY_SIZE + Ahead(c) + Size(all[..k]) <= PacketLimit(c.kind))
            && (k < |all| ==> PacketLimit(c.kind) < MSG_KEY_SIZE + Ahead(c) + Size(all[..k + 1]))
            && (MSG_KEY_SIZE + Ahead(c) + Size(all) <= PacketLimit(c.kind) ==> k == |all|)
  {
    hide PrepareService, PrepareMessage, ItemBytes, SameMessages, EntryOf, PacketOnWire, Carried, MakeDue, Fits;
    var all := c.pending + [Pending(MakeSeq(c.counter + 1, true, false), payload, now)];
    var due := c.(counter := c.counter + 1, pending := MakeDue(all));
    BehindOthers(c, payload, now);
    k := ServiceSendsGreatest(due, CAUSE_NONE, now);
    assert Ahead(due) == Ahead(c);
    SameSizes(all, due.pending, k);
    if k < |all| {
      SameSizes(all, due.pending, k + 1);
      SizeGrows(all, k + 1, |all|);
      assert all[..|all|] == all;
    }
    DueIsRequired(c.pending, Pending(MakeSeq(c.counter + 1, true, false), payload, now));
    EmptyPartCarries(MakeSeq(due.counter + 1, false, false), due.acksToSend[..Progress.AcksTaken(due)], due.pending[..k]);
    SamePrefix(all, due.pending, k);
    SameMessagesSameEntries(all[..k], due.pending[..k]);
  }

  lemma SamePrefix(a: seq<Pending>, b: seq<Pending>, k: nat)
    requires SameMessages(a, b) && k <= |a|
    ensures SameMessages(a[..k], b[..k])
  {
  }

  lemma {:induction false} SameSizes(a: seq<Pending>, b: seq<Pending>, k: nat)
    requires SameMessages(a, b) && k <= |a|
    ensures k <= |b| && Size(a[..k]) == Size(b[..k])
  {
    hide ItemBytes;
    if k > 0 {
      SameSizes(a, b, k - 1);
      assert a[..k][..k - 1] == a[..k - 1] && b[..k][..k - 1] == b[..k - 1];
      assert a[k - 1].AsItem() == b[k - 1].AsItem();
    }
  }

  // --- Not too soon

  /** A service call sends no message at all while the first was sent a moment ago. */
  lemma TooSoonForService(c: Conn, cause: nat, now: int)
    requires c.pending != [] && c.pending[0].lastSent != 0
    requires now - c.pending[0].lastSent < (match c.kind case Signaling => 3000 case Transport => 300)
    ensures forall i | 0 <= i < |PrepareService(c, cause, now).packet| :: !PrepareService(c, cause, now).packet[i].Msg?
  {
    if c.counter < MAX_ALLOWED_COUNTER {
      var k := ServiceSendsGreatest(c, cause, now);
      hide PrepareService, ItemBytes, PacketLimit;
      assert !MayGo(c.kind, c.pending[0], now);
      assert k == 0;
      var acks := AckItems(c.acksToSend[..Progress.AcksTaken(c)]);
      assert ResendItems(c.pending[..0]) == [] && acks + [] == acks;
    }
  }

  lemma MessagesAreResends(packet: Packet, c: Conn, k: nat)
    requires k <= |c.pending| && exists i :: 0 <= i < |packet| && packet[i].Msg?
    requires var acks := c.acksToSend[..Progress.AcksTaken(c)];
             packet != [] && packet[0].Empty? && packet[1..] == AckItems(acks) + ResendItems(c.pending[..k])
    ensures k > 0
  {
    var rest := packet[1..];
    var i :| 0 <= i < |packet| && packet[i].Msg?;
    assert packet[i] == rest[i - 1];
  }

  /** Two service calls within that time, with anything coming in between that leaves the first message where it
      is: if the first call sends messages, the second sends none. */
  lemma SecondServiceIsTooSoon(c: Conn, cause: nat, now: int, between: Conn, cause': nat, now': int)
    requires HaveAdditional(c) && c.counter < MAX_ALLOWED_COUNTER && c.pending != [] && now != 0
    requires now' - now < (match c.kind case Signaling => 3000 case Transport => 300)
    requires between.kind == c.kind && between.pending != []
    requires between.pending[0] == PrepareService(c, cause, now).conn.pending[0]
    requires exists i :: 0 <= i < |PrepareService(c, cause, now).packet| && PrepareService(c, cause, now).packet[i].Msg?
    ensures forall i | 0 <= i < |PrepareService(between, cause', now').packet| ::
              !PrepareService(between, cause', now').packet[i].Msg?
  {
    var k := ServiceSendsGreatest(c, cause, now);
    hide PrepareService, GoesBehind;
    MessagesAreResends(PrepareService(c, cause, now).packet, c, k);
    TooSoonForService(between, cause', now');
  }

  /** A message sent with an empty queue counts as sent then. */
  lemma SentAloneIsMarked(c: Conn, payload: Payload, now: int)
    requires c.pending == [] && CounterLeft(c, true)
    requires Fits(c.kind, |ItemBytes(Msg(MakeSeq(c.counter + 1, true, false), payload))|, 0)
    ensures PrepareMessage(c, payload, true, now).conn.pending
         == [Pending(MakeSeq(c.counter + 1, true, false), payload, now)]
  {
    hide ItemBytes, CountAcks;
  }
}
