// A message within five bytes of the packet limit: it is accepted and queued, but never goes behind
// anything. It is sent once if the queue was empty, and otherwise not at all; from then on it blocks what
// is queued behind it, unless an acknowledgement for it is already on its way.
module Oversize {
  import opened Bytes
  import opened Wire
  import opened ReplayWindow
  import opened Connection
  import opened Delivery
  import opened Channel
  import opened Sending
  import opened Link
  import Acknowledgements

  /** Too long to go behind even the shortest main part. */
  predicate IsOversize(kind: Kind, p: Pending) {
    PacketLimit(kind) < MSG_KEY_SIZE + EMPTY_SERIALIZED_SIZE + |ItemBytes(p.AsItem())|
  }

  /** Behind whatever is sent, no message of the queue goes out while the first is too long. */
  lemma OversizeHeadIsNeverAppended(c: Conn, size: nat, now: int)
    requires size >= EMPTY_SERIALIZED_SIZE && c.pending != [] && IsOversize(c.kind, c.pending[0])
    ensures AppendAdditional(c, size, now).packet == AckItems(c.acksToSend[..AckCount(c, size)])
    ensures |AppendAdditional(c, size, now).conn.pending| == |c.pending|
    ensures AppendAdditional(c, size, now).conn.pending[0].AsItem() == c.pending[0].AsItem()
    ensures AppendAdditional(c, size, now).conn.kind == c.kind
  {
    assert ResendCount(c, size, now) == 0;
    hide AppendAdditional, CountAcks, CountResends, ItemBytes, AckCount, ResendCount;
    AppendAdditionalEffect(c, size, now);
    var acks := AckItems(c.acksToSend[..AckCount(c, size)]);
    assert ResendItems(c.pending[..0]) == [] && acks + [] == acks;
  }

  /** Such messages are accepted: one of the greatest size is sent by a new endpoint and waits. */
  lemma OversizeCanWait(kind: Kind, now: int) returns (payload: Payload)
    ensures var r := PrepareMessage(NewConn(kind), payload, true, now);
            var p := Pending(MakeSeq(1, true, false), payload, now);
            && r.packet == [p.AsItem()] && r.conn.pending == [p] && IsOversize(kind, p)
            && r.conn.kind == kind && CanSend(RawForm, payload, true)
  {
    payload := Raw(seq(PacketLimit(kind) - MSG_KEY_SIZE - 9, _ => 0));
    PayloadInside(MakeSeq(1, true, false), payload);
    assert |PayloadBytes(payload, false)| == PacketLimit(kind) - MSG_KEY_SIZE - 4;
    hide PayloadBytes, ItemBytes;
    var item := Msg(MakeSeq(1, true, false), payload);
    assert AckItems([]) == [] && [item] + [] == [item];
    assert [] + [Pending(item.seqNum, payload, now)] == [Pending(item.seqNum, payload, now)];
  }

  // --- One endpoint whose queue holds such a message

  /** The message p is in the queue and too long, and everything in front of it is one of front. */
  ghost predicate StuckIn(pending: seq<Pending>, kind: Kind, p: Item, front: seq<Entry>) {
    && pending != []
    && if pending[0].AsItem() == p then IsOversize(kind, pending[0])
       else EntryOf(pending[0]) in front && StuckIn(pending[1..], kind, p, front)
  }

  lemma {:induction false} StuckAt(pending: seq<Pending>, kind: Kind, i: nat, front: seq<Entry>)
    requires i < |pending| && IsOversize(kind, pending[i])
    requires forall j | 0 <= j < i :: EntryOf(pending[j]) in front
    ensures StuckIn(pending, kind, pending[i].AsItem(), front)
    decreases |pending|
  {
    hide EntryOf, ItemBytes;
    if i > 0 {
      StuckAt(pending[1..], kind, i - 1, front);
    }
  }

  lemma {:induction false} StuckAppend(
      pending: seq<Pending>, more: seq<Pending>, kind: Kind, p: Item, front: seq<Entry>)
    requires StuckIn(pending, kind, p, front)
    ensures StuckIn(pending + more, kind, p, front)
    decreases |pending|
  {
    hide EntryOf, IsOversize;
    if pending[0].AsItem() != p {
      StuckAppend(pending[1..], more, kind, p, front);
      assert (pending + more)[1..] == pending[1..] + more;
    }
  }

  lemma {:induction false} StuckSame(a: seq<Pending>, b: seq<Pending>, kind: Kind, p: Item, front: seq<Entry>)
    requires StuckIn(a, kind, p, front) && SameMessages(a, b)
    ensures StuckIn(b, kind, p, front)
    decreases |a|
  {
    hide PayloadOnWire, ItemBytes;
    assert a[0].AsItem() == b[0].AsItem();
    if a[0].AsItem() != p {
      assert forall i | 0 <= i < |a[1..]| :: a[1..][i] == a[i + 1] && b[1..][i] == b[i + 1];
      StuckSame(a[1..], b[1..], kind, p, front);
    }
  }

  lemma {:induction false} StuckAck(pending: seq<Pending>, kind: Kind, p: Item, front: seq<Entry>, seqNum: uint32)
    requires StuckIn(pending, kind, p, front) && seqNum != p.seqNum
    ensures StuckIn(AckMessage(pending, seqNum), kind, p, front)
    decreases |pending|
  {
    hide EntryOf, IsOversize;
    if pending[0].AsItem() != p {
      StuckAck(pending[1..], kind, p, front, seqNum);
    }
  }

  lemma {:induction false} StuckAckAll(pending: seq<Pending>, kind: Kind, p: Item, front: seq<Entry>, acks: seq<uint32>)
    requires StuckIn(pending, kind, p, front) && p.seqNum !in acks
    ensures StuckIn(AckAll(pending, acks), kind, p, front)
    decreases |acks|
  {
    hide StuckIn, AckMessage;
    if acks != [] {
      StuckAck(pending, kind, p, front, acks[0]);
      StuckAckAll(AckMessage(pending, acks[0]), kind, p, front, acks[1..]);
    }
  }

  /** What is resent ends in front of it. */
  lemma {:induction false} ResendsEndInFront(
      kind: Kind, size: nat, pending: seq<Pending>, now: int, p: Item, front: seq<Entry>)
    requires StuckIn(pending, kind, p, front) && size >= EMPTY_SERIALIZED_SIZE
    ensures forall j | 0 <= j < CountResends(kind, size, pending, now) :: EntryOf(pending[j]) in front
    decreases |pending|
  {
    hide EntryOf, ItemBytes, Due;
    if pending[0].AsItem() != p {
      ResendsEndInFront(kind, size + |ItemBytes(pending[0].AsItem())|, pending[1..], now, p, front);
    }
  }

  /** All messages requiring an acknowledgement that the packet carries are among front. */
  ghost predicate CarriesOnly(packet: Packet, front: seq<Entry>) {
    forall e | e in Carried(PacketOnWire(packet)) :: e in front
  }

  lemma {:induction false} ResendsCarryOnly(pending: seq<Pending>, front: seq<Entry>)
    requires forall j | 0 <= j < |pending| :: EntryOf(pending[j]) in front
    ensures CarriesOnly(ResendItems(pending), front)
  {
    hide PayloadOnWire;
    if pending != [] {
      var items := PacketOnWire(ResendItems(pending));
      assert items[1..] == PacketOnWire(ResendItems(pending[1..]));
      ResendsCarryOnly(pending[1..], front);
      assert CarriedBy(items[0]) == [] || CarriedBy(items[0]) == [EntryOf(pending[0])];
    }
  }

  lemma PacketCarriesOnly(main: Item, acks: seq<uint32>, pending: seq<Pending>, front: seq<Entry>)
    requires !main.Ack? && !IsRequired(main)
    requires forall j | 0 <= j < |pending| :: EntryOf(pending[j]) in front
    ensures CarriesOnly([main] + (AckItems(acks) + ResendItems(pending)), front)
  {
    assert CarriedBy(ItemOnWire(main)) == [];
    ResendsCarryOnly(pending, front);
    hide CarriedBy, ItemOnWire, EntryOf;
    var a, r := AckItems(acks), ResendItems(pending);
    PacketOnWireConcat([main], a + r);
    PacketOnWireConcat(a, r);
    CarriedConcat(PacketOnWire(a), PacketOnWire(r));
    AckItemsCarry(acks);
    MainCarries(main, PacketOnWire(a) + PacketOnWire(r));
  }

  /** Behind a main part of any size. */
  lemma {:induction false} AppendStuck(c: Conn, main: Item, now: int, p: Item, front: seq<Entry>)
    requires StuckIn(c.pending, c.kind, p, front) && !main.Ack? && !IsRequired(main)
    ensures var r := AppendAdditional(c, |ItemBytes(main)|, now);
            StuckIn(r.conn.pending, r.conn.kind, p, front) && CarriesOnly([main] + r.packet, front)
  {
    hide AppendAdditional, StuckIn, CarriesOnly, ItemBytes, SameMessages, AckCount, EntryOf;
    var size := |ItemBytes(main)|;
    AppendAdditionalEffect(c, size, now);
    StuckSame(c.pending, AppendAdditional(c, size, now).conn.pending, c.kind, p, front);
    var k := ResendCount(c, size, now);
    ResendsEndInFront(c.kind, size + ACK_SERIALIZED_SIZE * AckCount(c, size), c.pending, now, p, front);
    PacketCarriesOnly(main, c.acksToSend[..AckCount(c, size)], c.pending[..k], front);
  }

  lemma NothingCarriesOnly(front: seq<Entry>)
    ensures CarriesOnly([], front)
  {
  }

  lemma {:induction false} ServiceStuck(c: Conn, cause: nat, now: int, p: Item, front: seq<Entry>)
    requires StuckIn(c.pending, c.kind, p, front)
    ensures var r := PrepareService(c, cause, now);
            StuckIn(r.conn.pending, r.conn.kind, p, front) && CarriesOnly(r.packet, front)
  {
    hide AppendAdditional, StuckIn, CarriesOnly;
    NothingCarriesOnly(front);
    var c' := ClearTimer(c, cause);
    if CounterLeft(c', false) {
      AppendStuck(c'.(counter := c'.counter + 1), Empty(MakeSeq(c'.counter + 1, false, false)), now, p, front);
    }
  }

  lemma {:induction false} StuckIsSome(pending: seq<Pending>, kind: Kind, p: Item, front: seq<Entry>)
    requires StuckIn(pending, kind, p, front)
    ensures pending != []
  {
  }

  lemma {:induction false} MessageStuck(
      c: Conn, payload: Payload, requiresAck: bool, now: int, p: Item, front: seq<Entry>)
    requires StuckIn(c.pending, c.kind, p, front)
    ensures var r := PrepareMessage(c, payload, requiresAck, now);
            StuckIn(r.conn.pending, r.conn.kind, p, front) && CarriesOnly(r.packet, front)
  {
    hide AppendAdditional, PrepareService, StuckIn, CarriesOnly, ItemBytes;
    NothingCarriesOnly(front);
    StuckIsSome(c.pending, c.kind, p, front);
    if CounterLeft(c, requiresAck) {
      var c1, main := c.(counter := c.counter + 1), Msg(MakeSeq(c.counter + 1, requiresAck, false), payload);
      if requiresAck {
        var more := c.pending + [Pending(main.seqNum, payload, now)];
        StuckAppend(c.pending, [Pending(main.seqNum, payload, now)], c.kind, p, front);
        StuckSame(more, MakeDue(more), c.kind, p, front);
        ServiceStuck(c1.(pending := MakeDue(more)), CAUSE_NONE, now, p, front);
      } else {
        AppendStuck(c1, main, now, p, front);
      }
    }
  }

  // --- Whole runs

  /** p is stuck in the queue of x and y will not acknowledge it: not in what waits to be acknowledged, nor in
      its packets from number m on; the packets of x from number n on carry only what is in front of it, and
      since its log was that long, y has handed up nothing else. */
  ghost predicate Stuck(x: Side, y: Side, n: nat, m: nat, p: Item, front: seq<Entry>, log: seq<Entry>) {
    && StuckIn(x.conn.pending, x.conn.kind, p, front)
    && (forall e | e in front :: e.seqNum != p.seqNum)
    && p.seqNum !in y.conn.acksToSend
    && n <= |x.sent| && (forall k | n <= k < |x.sent| :: CarriesOnly(x.sent[k], front))
    && m <= |y.sent| && (forall k | m <= k < |y.sent| :: p.seqNum !in AcksIn(PacketOnWire(y.sent[k])))
    && log <= y.delivered && (forall k | |log| <= k < |y.delivered| :: y.delivered[k] in front)
  }

  /** A prepareForSending call of the sender. */
  lemma SenderSends(
      x: Side, y: Side, payload: Payload, requiresAck: bool, cause: nat, now: int,
      n: nat, m: nat, p: Item, front: seq<Entry>, log: seq<Entry>)
    requires Stuck(x, y, n, m, p, front, log)
    ensures Stuck(ActService(x, cause, now), y, n, m, p, front, log)
    ensures Stuck(ActMessage(x, payload, requiresAck, now), y, n, m, p, front, log)
  {
    hide PrepareService, PrepareMessage, StuckIn, CarriesOnly, AcksIn, PacketOnWire;
    ServiceStuck(x.conn, cause, now, p, front);
    MessageStuck(x.conn, payload, requiresAck, now, p, front);
  }

  lemma {:induction false} AcksOnWire(items: Packet)
    ensures AcksIn(PacketOnWire(items)) == AcksIn(items)
  {
    if items != [] {
      assert PacketOnWire(items)[1..] == PacketOnWire(items[1..]);
      AcksOnWire(items[1..]);
    }
  }

  lemma RecordStuck(
      x: Side, y: Side, r: Prepared, n: nat, m: nat, p: Item, front: seq<Entry>, log: seq<Entry>)
    requires Stuck(x, y, n, m, p, front, log) && Acknowledgements.Sends(y.conn, r)
    ensures Stuck(x, Record(y, r), n, m, p, front, log)
  {
    hide StuckIn, CarriesOnly, AcksIn, PacketOnWire;
    AcksOnWire(r.packet);
    if r.packet != [] {
      assert forall s | s in AcksIn(r.packet) || s in r.conn.acksToSend :: s in AcksIn(r.packet) + r.conn.acksToSend;
    }
  }

  /** One of the receiver. */
  lemma ReceiverSends(
      x: Side, y: Side, payload: Payload, requiresAck: bool, cause: nat, now: int,
      n: nat, m: nat, p: Item, front: seq<Entry>, log: seq<Entry>)
    requires Stuck(x, y, n, m, p, front, log)
    ensures Stuck(x, ActService(y, cause, now), n, m, p, front, log)
    ensures Stuck(x, ActMessage(y, payload, requiresAck, now), n, m, p, front, log)
  {
    Acknowledgements.ServiceSends(y.conn, cause, now);
    Acknowledgements.MessageSends(y.conn, payload, requiresAck, now);
    RecordStuck(x, y, PrepareService(y.conn, cause, now), n, m, p, front, log);
    RecordStuck(x, y, PrepareMessage(y.conn, payload, requiresAck, now), n, m, p, front, log);
    hide PrepareService, PrepareMessage, StuckIn, CarriesOnly, AcksIn, PacketOnWire, Acknowledgements.Sends;
  }

  /** What is absorbed: only acknowledgements for it are added, only messages of it handed up. */
  lemma {:induction false} AbsorbsOnly(l: Ledger, entries: seq<Entry>)
    ensures var l' := AbsorbAll(l, entries);
            && (forall s | s in l'.acksToSend :: s in l.acksToSend || HasSeq(entries, s))
            && l.log <= l'.log && (forall k | |l.log| <= k < |l'.log| :: l'.log[k] in entries)
    decreases |entries|
  {
    hide RegisterSentAck, AlreadyAcked;
    if entries != [] {
      var l1, rest := Absorb(l, entries[0]), entries[1..];
      AbsorbsOnly(l1, rest);
      assert HasSeq(entries, entries[0].seqNum);
      forall s | HasSeq(rest, s)
        ensures HasSeq(entries, s)
      {
        var k :| 0 <= k < |rest| && rest[k].seqNum == s;
        assert entries[k + 1].seqNum == s;
      }
    }
  }

  /** What the receiver may become when it takes messages that are all in front. */
  lemma ReceiverTakes(
      x: Side, y: Side, y': Side, carried: seq<Entry>,
      n: nat, m: nat, p: Item, front: seq<Entry>, log: seq<Entry>)
    requires Stuck(x, y, n, m, p, front, log) && y'.sent == y.sent && forall e | e in carried :: e in front
    requires forall s | s in y'.conn.acksToSend :: s in y.conn.acksToSend || HasSeq(carried, s)
    requires y.delivered <= y'.delivered && forall k | |y.delivered| <= k < |y'.delivered| :: y'.delivered[k] in carried
    ensures Stuck(x, y', n, m, p, front, log)
  {
    NotAmong(carried, front, p.seqNum);
    hide StuckIn, CarriesOnly, AcksIn, PacketOnWire, HasSeq;
  }

  /** A packet of the sender arrives. */
  lemma ReceiverArrival(
      form: Form, x: Side, y: Side, index: nat, n: nat, m: nat, p: Item, front: seq<Entry>, log: seq<Entry>)
    requires SideOk(form, x) && Stuck(x, y, n, m, p, front, log) && n <= index < |x.sent|
    ensures Stuck(x, ActArrive(y, form, x.sent[index], index), n, m, p, front, log)
  {
    var packet := x.sent[index];
    assert PacketOk(form, x.conn.kind, packet);
    assert CarriesOnly(packet, front);
    hide SideOk, PacketBytes, WellFormed, HandleIncoming, AbsorbAll, AckAll, AcksIn, Carried, Required;
    hide PacketOnWire, Stuck, HasSeq;
    ArrivalOfPacket(form, y.conn, packet, y.delivered);
    NothingRequired();
    assert y.delivered + [] == y.delivered;
    var carried := Carried(PacketOnWire(packet));
    AbsorbsOnly(Ledger(y.conn.acksSent, y.conn.acksToSend, true, y.delivered), carried);
    ReceiverTakes(x, y, ActArrive(y, form, packet, index), carried, n, m, p, front, log);
  }

  lemma NotAmong(carried: seq<Entry>, front: seq<Entry>, seqNum: uint32)
    requires (forall e | e in carried :: e in front) && (forall e | e in front :: e.seqNum != seqNum)
    ensures !HasSeq(carried, seqNum)
  {
  }

  /** A packet of the receiver arrives. */
  lemma SenderArrival(
      form: Form, x: Side, y: Side, index: nat, n: nat, m: nat, p: Item, front: seq<Entry>, log: seq<Entry>)
    requires SideOk(form, y) && Stuck(x, y, n, m, p, front, log) && m <= index < |y.sent|
    ensures Stuck(ActArrive(x, form, y.sent[index], index), y, n, m, p, front, log)
  {
    var packet := y.sent[index];
    assert PacketOk(form, y.conn.kind, packet);
    hide SideOk, PacketBytes, WellFormed, HandleIncoming, AbsorbAll, AckAll, AcksIn, Carried, Required;
    hide PacketOnWire, StuckIn, CarriesOnly;
    ArrivalOfPacket(form, x.conn, packet, x.delivered);
    StuckAckAll(x.conn.pending, x.conn.kind, p, front, AcksIn(PacketOnWire(packet)));
  }

  lemma StuckStep(
      s: System, step: Step, atLeft: bool, n: nat, m: nat, p: Item, front: seq<Entry>, log: seq<Entry>)
    requires Safe(s, false) && Stuck(Sender(s, atLeft), Receiver(s, atLeft), n, m, p, front, log)
    requires step.Arrive? ==> (if step.atLeft == atLeft then n else m) <= step.index
    ensures Stuck(Sender(Next(s, step), atLeft), Receiver(Next(s, step), atLeft), n, m, p, front, log)
  {
    hide Good, SideOk, Stuck, ActService, ActMessage, ActArrive, CanSend;
    var x, y := Sender(s, atLeft), Receiver(s, atLeft);
    assert Good(s.form, x, y, false) && Good(s.form, y, x, false);
    GoodHasSide(s.form, x, y, false);
    GoodHasSide(s.form, y, x, false);
    hide Safe;
    match step
    case SendMessage(_, payload, requiresAck, now) =>
      SenderSends(x, y, payload, requiresAck, CAUSE_NONE, now, n, m, p, front, log);
      ReceiverSends(x, y, payload, requiresAck, CAUSE_NONE, now, n, m, p, front, log);
    case SendService(_, cause, now) =>
      SenderSends(x, y, Raw([]), false, cause, now, n, m, p, front, log);
      ReceiverSends(x, y, Raw([]), false, cause, now, n, m, p, front, log);
    case Arrive(_, index) =>
      if step.atLeft == atLeft && index < |x.sent| {
        ReceiverArrival(s.form, x, y, index, n, m, p, front, log);
      } else if step.atLeft != atLeft && index < |y.sent| {
        SenderArrival(s.form, x, y, index, n, m, p, front, log);
      }
  }

  /** No packet before number n arrives on that side. */
  ghost predicate OnlyFrom(steps: seq<Step>, atLeft: bool, n: nat) {
    forall i | 0 <= i < |steps| && steps[i].Arrive? && steps[i].atLeft == atLeft :: n <= steps[i].index
  }

  lemma {:induction false} StuckRun(
      s: System, steps: seq<Step>, atLeft: bool, n: nat, m: nat, p: Item, front: seq<Entry>, log: seq<Entry>)
    requires Safe(s, false) && Stuck(Sender(s, atLeft), Receiver(s, atLeft), n, m, p, front, log)
    requires OnlyFrom(steps, atLeft, n) && OnlyFrom(steps, !atLeft, m)
    ensures var s' := Run(s, steps);
            Stuck(Sender(s', atLeft), Receiver(s', atLeft), n, m, p, front, log)
    decreases |steps|
  {
    hide Safe, Stuck, Next;
    if steps != [] {
      StuckStep(s, steps[0], atLeft, n, m, p, front, log);
      StepKeepsSafe(s, steps[0], false);
      StuckRun(Next(s, steps[0]), steps[1..], atLeft, n, m, p, front, log);
    }
  }

  // --- It blocks what is behind it

  lemma {:induction false} StuckIsThere(pending: seq<Pending>, kind: Kind, p: Item, front: seq<Entry>)
    requires StuckIn(pending, kind, p, front)
    ensures exists j :: 0 <= j < |pending| && pending[j].AsItem() == p
    decreases |pending|
  {
    hide EntryOf, IsOversize;
    if pending[0].AsItem() != p {
      StuckIsThere(pending[1..], kind, p, front);
      var j :| 0 <= j < |pending[1..]| && pending[1..][j].AsItem() == p;
      assert pending[j + 1].AsItem() == p;
    }
  }

  /** What was not handed up is not acknowledged. */
  lemma NotAcknowledged(form: Form, x: Side, y: Side, seqNum: uint32)
    requires Good(form, x, y, false) && !HasSeq(y.delivered, seqNum)
    ensures seqNum !in y.conn.acksToSend
    ensures forall k | 0 <= k < |y.sent| :: seqNum !in AcksIn(PacketOnWire(y.sent[k]))
  {
    GoodParts(form, x, y, false);
    hide AcksIn, PacketOnWire, GapFree, NothingLost, AllBacked, PacketsAscend, SideOk, HasSeq, HasCounter, QueueOk;
    hide Keeps;
    var ch := Towards(x, y);
    assert Honest(ReceiverLedger(ch)) && AcksOk(ch);
    forall k | 0 <= k < |y.sent|
      ensures seqNum !in AcksIn(PacketOnWire(y.sent[k]))
    {
      assert AllDelivered(ch.ackPackets[k], ch.delivered);
    }
  }

  lemma NotHandedUp(form: Form, x: Side, y: Side, i: nat)
    requires Good(form, x, y, false) && i < |x.conn.pending| && EntryOf(x.conn.pending[i]) !in y.delivered
    ensures !HasSeq(y.delivered, x.conn.pending[i].seqNum)
  {
    GoodParts(form, x, y, false);
    hide Backed, Honest, NothingLost, AllBacked, PacketsAscend, SideOk, AcksOk, HasSeq, GapFree, Keeps;
    var ch, e := Towards(x, y), EntryOf(x.conn.pending[i]);
    assert ch.pending[i] == e && e in ch.queued;
    if HasSeq(ch.delivered, e.seqNum) {
      SeqIsDelivered(ch, e, e.seqNum);
    }
  }

  lemma FrontDiffers(form: Form, x: Side, y: Side, i: nat)
    requires Good(form, x, y, false) && i < |x.conn.pending|
    ensures forall e | e in Entries(x.conn.pending[..i]) :: e.seqNum != x.conn.pending[i].seqNum
  {
    GoodParts(form, x, y, false);
    hide Backed, Honest, NothingLost, AllBacked, PacketsAscend, SideOk, AcksOk, GapFree, Keeps, PayloadOnWire, Within;
    var pending := Towards(x, y).pending;
    assert AscendingEntries(pending);
    forall e | e in Entries(x.conn.pending[..i])
      ensures e.seqNum != x.conn.pending[i].seqNum
    {
      var j :| 0 <= j < i && Entries(x.conn.pending[..i])[j] == e;
      assert pending[j] == e && pending[i].seqNum == x.conn.pending[i].seqNum;
      assert pending[j].Counter() < pending[i].Counter();
    }
  }

  /** y does not acknowledge the message any more: it was not handed up, or no acknowledgement waits and those
      sent are lost. */
  ghost predicate Unacknowledged(x: Side, y: Side, i: nat, after: seq<Step>, atLeft: bool)
    requires i < |x.conn.pending|
  {
    || EntryOf(x.conn.pending[i]) !in y.delivered
    || (x.conn.pending[i].seqNum !in y.conn.acksToSend && OnlyFrom(after, !atLeft, |y.sent|))
  }

  lemma StartsStuck(form: Form, x: Side, y: Side, i: nat) returns (m: nat)
    requires Good(form, x, y, false) && i < |x.conn.pending| && IsOversize(x.conn.kind, x.conn.pending[i])
    requires EntryOf(x.conn.pending[i]) !in y.delivered || x.conn.pending[i].seqNum !in y.conn.acksToSend
    ensures m == if EntryOf(x.conn.pending[i]) !in y.delivered then 0 else |y.sent|
    ensures Stuck(x, y, |x.sent|, m, x.conn.pending[i].AsItem(), Entries(x.conn.pending[..i]), y.delivered)
  {
    FrontDiffers(form, x, y, i);
    var p, front := x.conn.pending[i], Entries(x.conn.pending[..i]);
    m := |y.sent|;
    if EntryOf(p) !in y.delivered {
      m := 0;
      NotHandedUp(form, x, y, i);
      NotAcknowledged(form, x, y, p.seqNum);
    }
    hide Good, HasSeq, AcksIn, PacketOnWire, CarriesOnly, IsOversize, EntryOf;
    forall j | 0 <= j < i
      ensures EntryOf(x.conn.pending[j]) in front
    {
      assert front[j] == EntryOf(x.conn.pending[..i][j]);
    }
    StuckAt(x.conn.pending, x.conn.kind, i, front);
    hide StuckIn;
  }

  /** From any reachable state with a message in a queue that is too long, and over any run in which no packet
      sent so far arrives behind it and it is not acknowledged by one: it stays in the queue, and nothing
      requiring an acknowledgement is handed up but what is in front of it. */
  lemma {:induction false} OversizeBlocks(
      form: Form, kind: Kind, before: seq<Step>, after: seq<Step>, atLeft: bool, i: nat)
    requires var s := Run(Start(form, kind), before);
             var x, y := Sender(s, atLeft), Receiver(s, atLeft);
             && i < |x.conn.pending| && IsOversize(x.conn.kind, x.conn.pending[i])
             && OnlyFrom(after, atLeft, |x.sent|) && Unacknowledged(x, y, i, after, atLeft)
    ensures var s := Run(Start(form, kind), before);
            var s' := Run(s, after);
            var x, x' := Sender(s, atLeft).conn, Sender(s', atLeft).conn;
            var log, log' := Receiver(s, atLeft).delivered, Receiver(s', atLeft).delivered;
            && (exists j :: 0 <= j < |x'.pending| && x'.pending[j].AsItem() == x.pending[i].AsItem())
            && log <= log' && (forall k | |log| <= k < |log'| :: log'[k] in Entries(x.pending[..i]))
  {
    StartIsSafe(form, kind, false);
    RunKeepsSafe(Start(form, kind), before, false);
    var s := Run(Start(form, kind), before);
    var x, y := Sender(s, atLeft), Receiver(s, atLeft);
    assert Good(s.form, x, y, false);
    hide Run, Start, Safe, Good, IsOversize, EntryOf, Entries, StuckIn;
    var m := StartsStuck(s.form, x, y, i);
    var p, front := x.conn.pending[i].AsItem(), Entries(x.conn.pending[..i]);
    assert OnlyFrom(after, !atLeft, m);
    hide OnlyFrom;
    StuckRun(s, after, atLeft, |x.sent|, m, p, front, y.delivered);
    var x' := Sender(Run(s, after), atLeft);
    StuckIsThere(x'.conn.pending, x'.conn.kind, p, front);
  }

  // --- Whether it is ever sent

  /** The guards under which a message requiring an acknowledgement is taken into the queue. */
  predicate IsTaken(c: Conn, payload: Payload) {
    CounterLeft(c, true) && Fits(c.kind, |ItemBytes(Msg(MakeSeq(c.counter + 1, true, false), payload))|, 0)
  }

  function TakenAs(c: Conn, payload: Payload, now: int): Pending
    requires c.counter < MAX_ALLOWED_COUNTER
  {
    Pending(MakeSeq(c.counter + 1, true, false), payload, now)
  }

  lemma TakenIsQueued(x: Side, payload: Payload, now: int)
    requires IsTaken(x.conn, payload)
    ensures ActMessage(x, payload, true, now).queued == x.queued + [EntryOf(TakenAs(x.conn, payload, now))]
  {
    hide AppendAdditional, PrepareService, ItemBytes, EntryOf, AckCount, ResendCount, Entries;
    var c1, p := x.conn.(counter := x.conn.counter + 1), TakenAs(x.conn, payload, now);
    if x.conn.pending == [] {
      AppendAdditionalEffect(c1, |ItemBytes(p.AsItem())|, now);
      var r := PrepareMessage(x.conn, payload, true, now);
      assert r.conn.pending == [p] && r.conn.pending[0..] == [p];
      OneEntry(p);
    } else {
      var due := MakeDue(x.conn.pending + [p]);
      ServiceKeepsQueue(c1.(pending := due), CAUSE_NONE, now);
      LastEntry(x.conn.pending, p, PrepareService(c1.(pending := due), CAUSE_NONE, now).conn.pending);
    }
  }

  lemma OneEntry(p: Pending)
    ensures Entries([p]) == [EntryOf(p)]
  {
  }

  /** What was queued so far is all that waits, was carried and was handed up. */
  lemma AllIsQueued(form: Form, x: Side, y: Side)
    requires Good(form, x, y, false)
    ensures forall j | 0 <= j < |x.conn.pending| :: EntryOf(x.conn.pending[j]) in x.queued
    ensures forall e | e in x.queued :: e.Counter() <= x.conn.counter
    ensures forall k | 0 <= k < |y.delivered| :: y.delivered[k] in x.queued
    ensures forall k | 0 <= k < |x.sent| :: CarriesOnly(x.sent[k], x.queued)
  {
    GoodParts(form, x, y, false);
    hide Honest, NothingLost, PacketsAscend, SideOk, AcksOk, Keeps, PayloadOnWire, AllBefore, Carried, PacketOnWire;
    hide AscendingEntries;
    var ch := Towards(x, y);
    assert QueueOk(ch) && GapFree(ch.queued, ch.delivered) && AllBacked(ch);
    forall j | 0 <= j < |x.conn.pending|
      ensures EntryOf(x.conn.pending[j]) in x.queued
    {
      assert ch.pending[j] in ch.queued;
    }
    forall k | 0 <= k < |x.sent|
      ensures CarriesOnly(x.sent[k], x.queued)
    {
      assert Backed(ch.packets[k], ch.queued, ch.delivered);
    }
  }

  /** Behind others it is put into the queue, and the queue behind an empty part. */
  lemma BehindIsService(x: Side, payload: Payload, now: int)
    requires x.conn.pending != [] && IsTaken(x.conn, payload)
    ensures var p := TakenAs(x.conn, payload, now);
            var c := x.conn.(counter := x.conn.counter + 1, pending := MakeDue(x.conn.pending + [p]));
            var x', r := ActMessage(x, payload, true, now), PrepareService(c, CAUSE_NONE, now);
            x'.conn == r.conn && (x'.sent == x.sent || x'.sent == x.sent + [r.packet])
  {
    hide PrepareService, ItemBytes, Entries;
  }

  /** A seq above all that were queued is neither in front nor acknowledged. */
  lemma NewIsUnknown(form: Form, x: Side, y: Side, seqNum: uint32)
    requires Good(form, x, y, false) && CounterFromSeq(seqNum) > x.conn.counter
    ensures forall e | e in x.queued :: e.seqNum != seqNum
    ensures seqNum !in y.conn.acksToSend
    ensures forall k | 0 <= k < |y.sent| :: seqNum !in AcksIn(PacketOnWire(y.sent[k]))
  {
    AllIsQueued(form, x, y);
    hide Good, AcksIn, PacketOnWire, CarriesOnly, EntryOf;
    assert !HasSeq(y.delivered, seqNum);
    NotAcknowledged(form, x, y, seqNum);
  }

  lemma {:induction false} LastIsStuck(pending: seq<Pending>, p: Pending, kind: Kind, front: seq<Entry>)
    requires IsOversize(kind, p) && forall j | 0 <= j < |pending| :: EntryOf(pending[j]) in front
    ensures StuckIn(MakeDue(pending + [p]), kind, p.AsItem(), front)
  {
    hide EntryOf, IsOversize, StuckIn;
    var more := pending + [p];
    assert forall j | 0 <= j < |pending| :: more[j] == pending[j];
    StuckAt(more, kind, |pending|, front);
    StuckSame(more, MakeDue(more), kind, p.AsItem(), front);
  }

  /** Taken behind others, it is stuck at once, whatever arrives of what was sent before. */
  lemma TakenBehind(form: Form, x: Side, y: Side, payload: Payload, now: int)
    requires Good(form, x, y, false) && x.conn.pending != [] && IsTaken(x.conn, payload)
    requires IsOversize(x.conn.kind, TakenAs(x.conn, payload, now))
    ensures Stuck(ActMessage(x, payload, true, now), y, 0, 0, TakenAs(x.conn, payload, now).AsItem(), x.queued, [])
  {
    hide Good, AcksIn, PacketOnWire, CarriesOnly, PrepareService, EntryOf, IsOversize, ActMessage, IsTaken, StuckIn;
    var p := TakenAs(x.conn, payload, now);
    var c := x.conn.(counter := x.conn.counter + 1, pending := MakeDue(x.conn.pending + [p]));
    AllIsQueued(form, x, y);
    NewIsUnknown(form, x, y, p.seqNum);
    BehindIsService(x, payload, now);
    LastIsStuck(x.conn.pending, p, x.conn.kind, x.queued);
    hide MakeDue;
    ServiceStuck(c, CAUSE_NONE, now, p.AsItem(), x.queued);
  }

  lemma {:induction false} ItemIsCarried(packet: Packet, p: Pending)
    requires p.AsItem() in packet && RequiresAck(p.seqNum)
    ensures EntryOf(p) in Carried(PacketOnWire(packet))
  {
    var wire := PacketOnWire(packet);
    assert wire[1..] == PacketOnWire(packet[1..]);
    if packet[0] == p.AsItem() {
      assert CarriedBy(wire[0]) == [EntryOf(p)];
    } else {
      ItemIsCarried(packet[1..], p);
    }
  }

  lemma NotInPacket(packet: Packet, p: Pending, front: seq<Entry>)
    requires CarriesOnly(packet, front) && RequiresAck(p.seqNum) && forall e | e in front :: e.seqNum != p.seqNum
    ensures p.AsItem() !in packet
  {
    if p.AsItem() in packet {
      ItemIsCarried(packet, p);
    }
  }

  lemma StuckIsNotSent(x: Side, y: Side, m: nat, p: Pending, front: seq<Entry>, log: seq<Entry>)
    requires Stuck(x, y, 0, m, p.AsItem(), front, log) && RequiresAck(p.seqNum)
    ensures forall k | 0 <= k < |x.sent| :: p.AsItem() !in x.sent[k]
    ensures forall k | |log| <= k < |y.delivered| :: y.delivered[k] in front
  {
    hide StuckIn, AcksIn, CarriesOnly;
    forall k | 0 <= k < |x.sent|
      ensures p.AsItem() !in x.sent[k]
    {
      NotInPacket(x.sent[k], p, front);
    }
  }

  lemma StepSentGrows(s: System, step: Step, atLeft: bool)
    ensures Sender(s, atLeft).sent <= Sender(Next(s, step), atLeft).sent
  {
    hide PrepareService, PrepareMessage, HandleIncoming, CanSend, Entries;
  }

  lemma {:induction false} RunSentGrows(s: System, steps: seq<Step>, atLeft: bool)
    ensures Sender(s, atLeft).sent <= Sender(Run(s, steps), atLeft).sent
    decreases |steps|
  {
    hide Next;
    if steps != [] {
      StepSentGrows(s, steps[0], atLeft);
      RunSentGrows(Next(s, steps[0]), steps[1..], atLeft);
    }
  }

  lemma FirstIsSent(x: Side, payload: Payload, now: int)
    requires x.conn.pending == [] && IsTaken(x.conn, payload)
    ensures var x' := ActMessage(x, payload, true, now);
            |x'.sent| == |x.sent| + 1 && TakenAs(x.conn, payload, now).AsItem() in x'.sent[|x.sent|]
  {
    hide AppendAdditional, ItemBytes, Entries;
  }

  lemma SendSides(s: System, payload: Payload, now: int, atLeft: bool)
    requires CanSend(s.form, payload, true)
    ensures var s1 := Next(s, SendMessage(!atLeft, payload, true, now));
            && Sender(s1, atLeft) == ActMessage(Sender(s, atLeft), payload, true, now)
            && Receiver(s1, atLeft) == Receiver(s, atLeft)
  {
    hide CanSend, ActMessage;
  }

  ghost predicate WasSent(x: Side, item: Item) {
    exists k :: 0 <= k < |x.sent| && item in x.sent[k]
  }

  lemma FirstWasSent(s: System, payload: Payload, now: int, after: seq<Step>, atLeft: bool)
    requires CanSend(s.form, payload, true)
    requires Sender(s, atLeft).conn.pending == [] && IsTaken(Sender(s, atLeft).conn, payload)
    ensures var s2 := Run(Next(s, SendMessage(!atLeft, payload, true, now)), after);
            WasSent(Sender(s2, atLeft), TakenAs(Sender(s, atLeft).conn, payload, now).AsItem())
  {
    hide ActMessage, CanSend, Next, IsTaken, Run;
    var x, s1 := Sender(s, atLeft), Next(s, SendMessage(!atLeft, payload, true, now));
    SendSides(s, payload, now, atLeft);
    FirstIsSent(x, payload, now);
    RunSentGrows(s1, after, atLeft);
    assert TakenAs(x.conn, payload, now).AsItem() in Sender(Run(s1, after), atLeft).sent[|x.sent|];
  }

  lemma BehindWasNeverSent(s: System, payload: Payload, now: int, after: seq<Step>, atLeft: bool)
    requires Safe(s, false) && CanSend(s.form, payload, true)
    requires Sender(s, atLeft).conn.pending != [] && IsTaken(Sender(s, atLeft).conn, payload)
    requires IsOversize(Sender(s, atLeft).conn.kind, TakenAs(Sender(s, atLeft).conn, payload, now))
    ensures var s2 := Run(Next(s, SendMessage(!atLeft, payload, true, now)), after);
            && !WasSent(Sender(s2, atLeft), TakenAs(Sender(s, atLeft).conn, payload, now).AsItem())
            && forall e | e in Receiver(s2, atLeft).delivered :: e in Sender(s, atLeft).queued
  {
    hide Good, ActMessage, CanSend, Next, Stuck, IsTaken, IsOversize, Run;
    var x, y, step := Sender(s, atLeft), Receiver(s, atLeft), SendMessage(!atLeft, payload, true, now);
    var p, s1 := TakenAs(x.conn, payload, now), Next(s, step);
    assert Good(s.form, x, y, false);
    StepKeepsSafe(s, step, false);
    hide Safe;
    SendSides(s, payload, now, atLeft);
    TakenBehind(s.form, x, y, payload, now);
    StuckRun(s1, after, atLeft, 0, 0, p.AsItem(), x.queued, []);
    StuckIsNotSent(Sender(Run(s1, after), atLeft), Receiver(Run(s1, after), atLeft), 0, p, x.queued, []);
  }

  /** Over any run, at either side: a message that is too long to be resent and is taken into the queue is ever
      in a packet exactly when the queue was empty. If it was not, nothing but what had been queued before is
      ever handed up again, though nothing be lost. */
  lemma OversizeIsSentIff(
      form: Form, kind: Kind, before: seq<Step>, payload: Payload, now: int, after: seq<Step>, atLeft: bool)
    requires var x := Sender(Run(Start(form, kind), before), atLeft).conn;
             && CanSend(form, payload, true) && IsTaken(x, payload) && IsOversize(x.kind, TakenAs(x, payload, now))
    ensures var s := Run(Start(form, kind), before);
            var s1 := Next(s, SendMessage(!atLeft, payload, true, now));
            var s2 := Run(s1, after);
            var x, p := Sender(s, atLeft), TakenAs(Sender(s, atLeft).conn, payload, now);
            && Sender(s1, atLeft).queued == x.queued + [EntryOf(p)]
            && (WasSent(Sender(s2, atLeft), p.AsItem()) <==> x.conn.pending == [])
            && (x.conn.pending != [] ==> forall e | e in Receiver(s2, atLeft).delivered :: e in x.queued)
  {
    hide Run, Start, Safe, Next, CanSend, IsTaken, IsOversize, WasSent;
    StartIsSafe(form, kind, false);
    RunKeepsSafe(Start(form, kind), before, false);
    StartForm(form, kind, before);
    var s := Run(Start(form, kind), before);
    SendSides(s, payload, now, atLeft);
    TakenIsQueued(Sender(s, atLeft), payload, now);
    if Sender(s, atLeft).conn.pending == [] {
      FirstWasSent(s, payload, now, after, atLeft);
    } else {
      BehindWasNeverSent(s, payload, now, after, atLeft);
    }
  }

  lemma {:induction false} StartForm(form: Form, kind: Kind, steps: seq<Step>)
    ensures Run(Start(form, kind), steps).form == form
  {
    RunKeepsForm(Start(form, kind), steps);
  }

  // --- It happens

  lemma NothingNew(log: seq<Entry>, log': seq<Entry>)
    requires log <= log' && forall k | |log| <= k < |log'| :: log'[k] in Entries([])
    ensures log' == log
  {
    assert |log| < |log'| ==> log'[|log|] in Entries([]);
  }

  /** One lost packet is enough: the left sends such a message first, the packet is lost, and the right
      never hands up anything that requires an acknowledgement. */
  lemma OneLossBlocks(kind: Kind, now: int, after: seq<Step>) returns (payload: Payload)
    requires OnlyFrom(after, false, 1)
    ensures var s := Run(Start(RawForm, kind), [SendMessage(true, payload, true, now)]);
            && |s.left.sent| == 1 && |s.left.queued| == 1
            && Run(s, after).right.delivered == []
  {
    payload := OversizeCanWait(kind, now);
    hide PrepareMessage, CanSend, OnlyFrom, IsOversize;
    var start, step := Start(RawForm, kind), SendMessage(true, payload, true, now);
    var s := Next(start, step);
    assert [step][1..] == [];
    assert Run(start, [step]) == Run(s, []) == s;
    assert s.left.queued == Entries(s.left.conn.pending[0..]);
    assert s.left.sent == [PrepareMessage(NewConn(kind), payload, true, now).packet];
    assert s.right.delivered == [];
    OversizeBlocks(RawForm, kind, [step], after, false, 0);
    assert s.left.conn.pending[..0] == [];
    NothingNew([], Run(s, after).right.delivered);
  }

  /** A short message waits; one that is too long is taken behind it, and the packet that is sent for it holds
      only the short one. */
  lemma OversizeBehindIsNotSent(kind: Kind, now: int) returns (payload: Payload)
    requires 0 <= now
    ensures var first := PrepareMessage(NewConn(kind), Raw([7]), true, now).conn;
            var r := PrepareMessage(first, payload, true, now);
            && IsTaken(first, payload) && IsOversize(kind, TakenAs(first, payload, now))
            && |first.pending| == 1 && |r.conn.pending| == 2
            && r.conn.pending[1].AsItem() == TakenAs(first, payload, now).AsItem()
            && r.packet == [Empty(MakeSeq(3, false, false)), first.pending[0].AsItem()]
  {
    payload := Raw(seq(PacketLimit(kind) - MSG_KEY_SIZE - 9, _ => 0));
    var one, big := Msg(MakeSeq(1, true, false), Raw([7])), Msg(MakeSeq(2, true, false), payload);
    PayloadInside(one.seqNum, one.payload);
    PayloadInside(big.seqNum, payload);
    assert |ItemBytes(one)| == 10 && MSG_KEY_SIZE + |ItemBytes(big)| == PacketLimit(kind);
    hide PayloadBytes, ItemBytes;
    var p, q := Pending(one.seqNum, one.payload, now), Pending(big.seqNum, payload, now);
    var first := PrepareMessage(NewConn(kind), Raw([7]), true, now).conn;
    assert [] + [p] == [p];
    assert first == NewConn(kind).(counter := 1, pending := [p]);
    BehindOne(first, p, q, now);
  }

  lemma BehindOne(c: Conn, p: Pending, q: Pending, now: int)
    requires 0 <= now && c == NewConn(c.kind).(counter := 1, pending := [p]) && q == TakenAs(c, q.payload, now)
    requires |ItemBytes(p.AsItem())| == 10 && MSG_KEY_SIZE + |ItemBytes(q.AsItem())| == PacketLimit(c.kind)
    ensures var r := PrepareMessage(c, q.payload, true, now);
            && |r.conn.pending| == 2 && r.conn.pending[1].AsItem() == q.AsItem()
            && r.packet == [Empty(MakeSeq(3, false, false)), p.AsItem()]
  {
    hide ItemBytes;
    var due := MakeDue([p] + [q]);
    assert |due| == 2 && due[0].AsItem() == p.AsItem() && due[1].AsItem() == q.AsItem();
    var rest := due[1..];
    assert rest[0] == due[1];
    assert CountResends(c.kind, 15, rest, now) == 0;
    assert CountResends(c.kind, 5, due, now) == 1;
    assert ResendItems(due[..1]) == [p.AsItem()];
    assert AckItems([]) == [] && [] + [p.AsItem()] == [p.AsItem()];
    var c3 := c.(counter := 3, pending := due);
    assert AppendAdditional(c3, 5, now).packet == [p.AsItem()];
    assert PrepareMessage(c, q.payload, true, now) == PrepareService(c.(counter := 2, pending := due), CAUSE_NONE, now);
    assert [Empty(MakeSeq(3, false, false))] + [p.AsItem()] == [Empty(MakeSeq(3, false, false)), p.AsItem()];
  }

  lemma AbsorbsOne(e: Entry)
    ensures var l := AbsorbAll(Ledger([], [], true, []), [e]);
            l.log == [e] && l.acksToSend == [e.seqNum]
    ensures Accepts([], e.Counter())
  {
    assert [e][1..] == [];
  }

  /** It arrives at an endpoint that has nothing yet, which acknowledges it in its first packet. */
  lemma TakesAndAcknowledges(form: Form, kind: Kind, y: Side, p: Pending, now: int)
    requires y == StartSide(kind) && PacketOk(form, kind, [p.AsItem()]) && RequiresAck(p.seqNum)
    ensures var y' := ActService(ActArrive(y, form, [p.AsItem()], 0), CAUSE_NONE, now);
            y'.delivered == [EntryOf(p)] && y'.conn.acksToSend == [] && |y'.sent| == 1
  {
    var packet := [p.AsItem()];
    AbsorbsOne(EntryOf(p));
    assert Carried(PacketOnWire(packet)) == [EntryOf(p)] by {
      ResendItemCarries(p);
      assert PacketOnWire(packet)[1..] == [] && Carried([]) == [];
    }
    hide PacketBytes, WellFormed, HandleIncoming, AbsorbAll, AckAll, AcksIn, Carried, Required, PacketOnWire, EntryOf;
    hide Accepts, PrepareService;
    ArrivalOfPacket(form, y.conn, packet, []);
    var c := ActArrive(y, form, packet, 0).conn;
    Acknowledgements.ServiceWritesAcks(c, CAUSE_NONE, now);
    SomethingGoesOut(c, now);
  }

  lemma SomethingGoesOut(c: Conn, now: int)
    requires HaveAdditional(c) && CounterLeft(c, false)
    ensures PrepareService(c, CAUSE_NONE, now).packet != []
  {
    hide AppendAdditional;
  }

  /** The left sends such a message first, it is handed up, and the packet with its acknowledgement is lost:
      nothing else is ever handed up, though all that is sent from then on arrive. */
  lemma HandedUpBlocks(kind: Kind, now: int, after: seq<Step>) returns (payload: Payload)
    requires OnlyFrom(after, false, 1) && OnlyFrom(after, true, 1)
    ensures var s := Run(Start(RawForm, kind),
                         [SendMessage(true, payload, true, now), Arrive(false, 0), SendService(false, CAUSE_NONE, now)]);
            && |s.left.sent| == 1 && |s.right.sent| == 1 && |s.right.delivered| == 1
            && Run(s, after).right.delivered == s.right.delivered && Run(s, after).left.conn.pending != []
  {
    payload := OversizeCanWait(kind, now);
    hide PrepareMessage, CanSend, OnlyFrom, IsOversize, ActArrive, ActService, Safe;
    var p := Pending(MakeSeq(1, true, false), payload, now);
    var start := Start(RawForm, kind);
    var steps := [SendMessage(true, payload, true, now), Arrive(false, 0), SendService(false, CAUSE_NONE, now)];
    var s1 := Next(start, steps[0]);
    var s3 := Next(Next(s1, steps[1]), steps[2]);
    assert steps[1..][1..] == [steps[2]] && [steps[2]][1..] == [];
    assert Run(start, steps) == Run(s1, steps[1..]) == Run(Next(s1, steps[1]), [steps[2]]) == Run(s3, []) == s3;
    assert s1.left.sent == [[p.AsItem()]];
    StartIsSafe(RawForm, kind, false);
    StepKeepsSafe(start, steps[0], false);
    SafePacket(s1);
    TakesAndAcknowledges(RawForm, kind, s1.right, p, now);
    OversizeBlocks(RawForm, kind, steps, after, false, 0);
    assert s3.left.conn.pending[..0] == [];
    NothingNew(s3.right.delivered, Run(s3, after).right.delivered);
  }

  lemma SafePacket(s: System)
    requires Safe(s, false) && s.left.sent != []
    ensures PacketOk(s.form, s.left.conn.kind, s.left.sent[0])
  {
    hide Keeps, PacketOk, QueueTravels;
  }
}
