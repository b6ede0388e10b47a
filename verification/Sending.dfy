// What the prepareForSending calls put into a packet: the shape the parser
// accepts, within the size limit, with a prefix of the queue.
module Sending {
  import opened Bytes
  import opened Wire
  import opened Connection
  import opened Delivery
  import Messages

  /** The messages of a queue as the other side will see them. */
  function Entries(pending: seq<Pending>): (list: seq<Entry>)
    ensures |list| == |pending|
    ensures forall i | 0 <= i < |pending| :: list[i] == EntryOf(pending[i])
  {
    seq(|pending|, i requires 0 <= i < |pending| => EntryOf(pending[i]))
  }

  function EntryOf(p: Pending): Entry {
    Entry(p.seqNum, PayloadOnWire(p.payload))
  }

  /** The same queue up to the times of sending. */
  ghost predicate SameMessages(a: seq<Pending>, b: seq<Pending>) {
    |a| == |b| && forall i | 0 <= i < |a| :: a[i].AsItem() == b[i].AsItem()
  }

  lemma SameMessagesSameEntries(a: seq<Pending>, b: seq<Pending>)
    requires SameMessages(a, b)
    ensures Entries(a) == Entries(b)
  {
    hide PayloadOnWire;
    forall i | 0 <= i < |a|
      ensures Entries(a)[i] == Entries(b)[i]
    {
      assert a[i].AsItem() == b[i].AsItem();
    }
  }

  ghost predicate PendingOk(form: Form, p: Pending) {
    RequiresAck(p.seqNum) && !IsSingle(p.seqNum) && Travels(form, p.payload, false)
  }

  ghost predicate QueueTravels(form: Form, pending: seq<Pending>) {
    forall i | 0 <= i < |pending| :: PendingOk(form, pending[i])
  }

  ghost predicate NoneSingle(acks: seq<uint32>) {
    forall i | 0 <= i < |acks| :: !IsSingle(acks[i])
  }

  function AckCount(c: Conn, size: nat): (a: nat)
    ensures a <= |c.acksToSend|
  {
    CountAcks(c.kind, size, c.acksToSend)
  }

  function ResendCount(c: Conn, size: nat, now: int): (k: nat)
    ensures k <= |c.pending|
  {
    CountResends(c.kind, size + ACK_SERIALIZED_SIZE * AckCount(c, size), c.pending, now)
  }

  /** What appendAdditionalMessages leaves of the endpoint, and what it appends. */
  lemma AppendAdditionalEffect(c: Conn, size: nat, now: int)
    ensures var r, a, k := AppendAdditional(c, size, now), AckCount(c, size), ResendCount(c, size, now);
            && r.packet == AckItems(c.acksToSend[..a]) + ResendItems(c.pending[..k])
            && r.conn.acksToSend == c.acksToSend[a..]
            && r.conn.kind == c.kind && r.conn.counter == c.counter
            && r.conn.incoming == c.incoming && r.conn.acksSent == c.acksSent
            && SameMessages(c.pending, r.conn.pending)
            && Entries(r.conn.pending) == Entries(c.pending)
  {
    hide CountAcks, CountResends, PayloadOnWire;
    var r, k := AppendAdditional(c, size, now), ResendCount(c, size, now);
    if c.pending == [] {
      assert c.pending[..k] == [] && ResendItems([]) == [];
      assert r.packet + [] == r.packet;
    } else {
      assert r.conn.pending == MarkSent(c.pending, k, now);
    }
    SameMessagesSameEntries(c.pending, r.conn.pending);
  }

  // --- What the appended items carry

  lemma PacketOnWireConcat(a: Packet, b: Packet)
    ensures PacketOnWire(a + b) == PacketOnWire(a) + PacketOnWire(b)
  {
    hide ItemOnWire;
  }

  lemma {:induction false} AckItemsCarry(acks: seq<uint32>)
    ensures Carried(PacketOnWire(AckItems(acks))) == []
    ensures AcksIn(PacketOnWire(AckItems(acks))) == acks
  {
    if acks != [] {
      var items := PacketOnWire(AckItems(acks));
      assert items[1..] == PacketOnWire(AckItems(acks[1..]));
      assert items[0] == Ack(acks[0]);
      AckItemsCarry(acks[1..]);
    }
  }

  lemma AckItemsOnWire(acks: seq<uint32>)
    ensures PacketOnWire(AckItems(acks)) == AckItems(acks)
  {
  }

  lemma ResendItemCarries(p: Pending)
    requires RequiresAck(p.seqNum)
    ensures CarriedBy(ItemOnWire(p.AsItem())) == [EntryOf(p)]
    ensures !ItemOnWire(p.AsItem()).Ack?
  {
  }

  lemma {:induction false} ResendItemsCarry(form: Form, pending: seq<Pending>)
    requires QueueTravels(form, pending)
    ensures Carried(PacketOnWire(ResendItems(pending))) == Entries(pending)
    ensures AcksIn(PacketOnWire(ResendItems(pending))) == []
  {
    hide Travels, ItemOnWire, CarriedBy, EntryOf;
    if pending != [] {
      var items := PacketOnWire(ResendItems(pending));
      assert items[1..] == PacketOnWire(ResendItems(pending[1..]));
      ResendItemsCarry(form, pending[1..]);
      ResendItemCarries(pending[0]);
      assert Entries(pending) == [EntryOf(pending[0])] + Entries(pending[1..]);
    }
  }

  /** The whole packet: the main part, then acknowledgements, then a prefix of the queue. */
  lemma PacketCarries(form: Form, main: Item, acks: seq<uint32>, pending: seq<Pending>)
    requires QueueTravels(form, pending) && !main.Ack?
    ensures var wire := PacketOnWire([main] + (AckItems(acks) + ResendItems(pending)));
            Carried(wire) == CarriedBy(ItemOnWire(main)) + Entries(pending) && AcksIn(wire) == acks
  {
    hide CarriedBy, QueueTravels, ItemOnWire;
    var a, p := AckItems(acks), ResendItems(pending);
    PacketOnWireConcat([main], a + p);
    PacketOnWireConcat(a, p);
    var wa, wp := PacketOnWire(a), PacketOnWire(p);
    CarriedConcat(wa, wp);
    AcksInConcat(wa, wp);
    AckItemsCarry(acks);
    ResendItemsCarry(form, pending);
    MainCarries(main, wa + wp);
  }

  lemma {:induction false} MainCarries(main: Item, rest: seq<Item>)
    requires !main.Ack?
    ensures Carried(PacketOnWire([main]) + rest) == CarriedBy(ItemOnWire(main)) + Carried(rest)
    ensures AcksIn(PacketOnWire([main]) + rest) == AcksIn(rest)
  {
    hide CarriedBy;
    var items := PacketOnWire([main]) + rest;
    assert items[0] == ItemOnWire(main) && items[1..] == rest;
  }

  // --- Sizes

  lemma {:induction false} AckItemsSize(acks: seq<uint32>)
    ensures |PacketBytes(AckItems(acks))| == ACK_SERIALIZED_SIZE * |acks|
  {
    if acks != [] {
      assert AckItems(acks)[1..] == AckItems(acks[1..]);
      AckItemsSize(acks[1..]);
    }
  }

  lemma {:induction false} AcksFit(kind: Kind, size: nat, acks: seq<uint32>)
    requires MSG_KEY_SIZE + size <= PacketLimit(kind)
    ensures MSG_KEY_SIZE + size + ACK_SERIALIZED_SIZE * CountAcks(kind, size, acks) <= PacketLimit(kind)
    decreases |acks|
  {
    if acks != [] && Fits(kind, size, ACK_SERIALIZED_SIZE) {
      AcksFit(kind, size + ACK_SERIALIZED_SIZE, acks[1..]);
    }
  }

  lemma {:induction false} ResendsFit(kind: Kind, size: nat, pending: seq<Pending>, now: int)
    requires MSG_KEY_SIZE + size <= PacketLimit(kind)
    ensures MSG_KEY_SIZE + size + |PacketBytes(ResendItems(pending[..CountResends(kind, size, pending, now)]))|
         <= PacketLimit(kind)
    decreases |pending|
  {
    hide ItemBytes, Due, PacketLimit;
    var k := CountResends(kind, size, pending, now);
    if k > 0 {
      var behind := size + |ItemBytes(pending[0].AsItem())|;
      ResendsFit(kind, behind, pending[1..], now);
      var items := ResendItems(pending[..k]);
      assert items[1..] == ResendItems(pending[1..][..k - 1]);
      assert items[0] == pending[0].AsItem();
    } else {
      assert pending[..k] == [] && ResendItems([]) == [];
    }
  }

  lemma PacketFits(c: Conn, main: Item, now: int)
    requires MSG_KEY_SIZE + |ItemBytes(main)| <= PacketLimit(c.kind)
    ensures MSG_KEY_SIZE + |PacketBytes([main] + AppendAdditional(c, |ItemBytes(main)|, now).packet)|
         <= PacketLimit(c.kind)
  {
    hide ItemBytes, PacketLimit, CountAcks, CountResends, AppendAdditional, PacketBytes;
    var size := |ItemBytes(main)|;
    var a, k := AckCount(c, size), ResendCount(c, size, now);
    AppendAdditionalEffect(c, size, now);
    var acks, resends := AckItems(c.acksToSend[..a]), ResendItems(c.pending[..k]);
    AcksFit(c.kind, size, c.acksToSend);
    AckItemsSize(c.acksToSend[..a]);
    ResendsFit(c.kind, size + ACK_SERIALIZED_SIZE * a, c.pending, now);
    PacketBytesConcat(acks, resends);
    PacketBytesConcat([main], acks + resends);
    OneItemPacket(main);
  }

  lemma OneItemPacket(item: Item)
    ensures PacketBytes([item]) == ItemBytes(item)
  {
    hide ItemBytes;
    assert [item][1..] == [];
    assert PacketBytes([item]) == ItemBytes(item) + PacketBytes([]);
  }

  // --- Shape

  /** What a caller may hand over; data of any length, for the size limit is checked here. */
  ghost predicate CanSend(form: Form, payload: Payload, requiresAck: bool) {
    match form
    case RawForm => payload.Raw?
    case TypedForm =>
      && payload.Typed?
      && Messages.Sendable(payload.message, true)
      && requiresAck == Messages.RequiresAck(payload.message)
  }

  lemma SmallTravels(form: Form, payload: Payload, requiresAck: bool, single: bool)
    requires CanSend(form, payload, requiresAck)
    requires |PayloadBytes(payload, single)| <= MAX_SIGNALING_PACKET_SIZE
    ensures Travels(form, payload, single)
  {
    if form.TypedForm? {
      DataIsInside(payload.message, single);
    }
  }

  lemma DataIsInside(m: Messages.Message, single: bool)
    ensures m.AudioData? || m.VideoData? || m.UnstructuredData? ==> |m.data| <= |Messages.MessageBytes(m, single)|
  {
  }

  lemma PayloadInside(seqNum: uint32, payload: Payload)
    ensures |ItemBytes(Msg(seqNum, payload))| == 4 + |PayloadBytes(payload, IsSingle(seqNum))|
  {
    hide PayloadBytes;
  }

  lemma AdditionalItems(form: Form, acks: seq<uint32>, pending: seq<Pending>)
    requires QueueTravels(form, pending) && NoneSingle(acks)
    ensures forall i | 0 <= i < |acks| + |pending| ::
              AdditionalItem(form, (AckItems(acks) + ResendItems(pending))[i])
  {
    hide Travels;
    var items := AckItems(acks) + ResendItems(pending);
    forall i | 0 <= i < |acks| + |pending|
      ensures AdditionalItem(form, items[i])
    {
      if i >= |acks| {
        assert items[i] == pending[i - |acks|].AsItem();
        assert PendingOk(form, pending[i - |acks|]);
      }
    }
  }

  lemma PacketIsWellFormed(form: Form, main: Item, acks: seq<uint32>, pending: seq<Pending>)
    requires QueueTravels(form, pending) && NoneSingle(acks)
    requires !main.Ack? && (main.Msg? ==> Travels(form, main.payload, IsSingle(main.seqNum)))
    requires IsSingle(main.seqNum) ==> acks == [] && pending == []
    ensures WellFormed(form, [main] + (AckItems(acks) + ResendItems(pending)))
  {
    AdditionalItems(form, acks, pending);
    hide Travels, AdditionalItem, QueueTravels, NoneSingle;
    var rest := AckItems(acks) + ResendItems(pending);
    var items := [main] + rest;
    assert forall i | 1 <= i < |items| :: items[i] == rest[i - 1];
  }
}
