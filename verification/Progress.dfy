// When nothing is lost, the queue empties: service calls whose packets arrive get every waiting message
// that fits acknowledged, within a bound.
module Progress {
  import opened Prelude
  import opened Bytes
  import opened Wire
  import opened ReplayWindow
  import opened Connection
  import opened Delivery
  import opened Channel
  import opened Sending
  import opened Link
  import opened Oversize
  import Acknowledgements
  import Endpoint

  // --- What every reachable state keeps of counters and acknowledgements

  ghost predicate AtMost(list: seq<nat>, bound: nat) {
    forall c | c in list :: c <= bound
  }

  /** The window of y and the packets of x have no counter above the last that x used. */
  ghost predicate Orderly(x: Side, y: Side) {
    && AtMost(y.conn.incoming, x.conn.counter)
    && (forall k | 0 <= k < |x.sent| && x.sent[k] != [] :: CounterFromSeq(x.sent[k][0].seqNum) <= x.conn.counter)
    && NoRepeats(x.conn.acksToSend)
  }

  function LedgerOfSide(y: Side): Ledger {
    Ledger(y.conn.acksSent, y.conn.acksToSend, true, y.delivered)
  }

  ghost predicate Ready(s: System) {
    Safe(s, false) && Orderly(s.left, s.right) && Orderly(s.right, s.left)
  }

  lemma RegisterAtMost(list: seq<nat>, c: nat, bound: nat)
    requires AtMost(list, bound) && c <= bound
    ensures AtMost(Register(list, c), bound)
  {
    hide LowerBound, CountStale, Accepts;
    forall a | a in Register(list, c)
      ensures a <= bound
    {
      assert a == c || a in list;
    }
  }

  lemma {:induction false} ApplyAllAtMost(c: Cursor, items: seq<Item>, bound: nat)
    requires AtMost(c.conn.incoming, bound) && c.packetCounter <= bound
    ensures AtMost(ApplyAll(c, items).conn.incoming, bound)
    decreases |items|
  {
    hide RegisterSentAck, AlreadyAcked, PostponeAck, AckMessage, Register, Accepts, AtMost;
    if items != [] {
      if items[0].Msg? && CounterFromSeq(items[0].seqNum) <= c.packetCounter {
        RegisterAtMost(c.conn.incoming, CounterFromSeq(items[0].seqNum), bound);
      }
      ApplyAllAtMost(Apply(c, items[0]), items[1..], bound);
    }
  }

  lemma {:induction false} WindowAtMost(c: Conn, form: Form, packet: Packet, bound: nat)
    requires WellFormed(form, packet) && AtMost(c.incoming, bound) && CounterFromSeq(packet[0].seqNum) <= bound
    ensures AtMost(HandleIncoming(c, form, PacketBytes(packet)).conn.incoming, bound)
  {
    hide Accepts, Register, PacketBytes, ReadU32, ParsePacket, ApplyAll, WellFormed, AtMost;
    PacketRoundTrip(form, packet);
    PacketIsLong(form, packet);
    var counter := CounterFromSeq(packet[0].seqNum);
    RegisterAtMost(c.incoming, counter, bound);
    var start := Cursor(c.(incoming := Register(c.incoming, counter)), counter, false, true, false, []);
    ApplyAllAtMost(start, PacketOnWire(packet), bound);
  }

  lemma SuffixNoRepeats<T>(a: seq<T>, b: seq<T>)
    requires NoRepeats(a + b)
    ensures NoRepeats(b)
  {
    assert forall i | 0 <= i < |b| :: b[i] == (a + b)[|a| + i];
  }

  lemma RecordOrderly(x: Side, y: Side, r: Prepared)
    requires Orderly(x, y) && Orderly(y, x) && Acknowledgements.Sends(x.conn, r) && r.conn.incoming == x.conn.incoming
    ensures Orderly(Record(x, r), y) && Orderly(y, Record(x, r))
  {
    hide AcksIn, NoRepeats;
    if r.packet != [] {
      SuffixNoRepeats(AcksIn(r.packet), r.conn.acksToSend);
    }
  }

  lemma ServiceKeepsWindow(c: Conn, cause: nat, now: int)
    ensures PrepareService(c, cause, now).conn.incoming == c.incoming
  {
    hide CountAcks, CountResends;
  }

  lemma MessageKeepsWindow(c: Conn, payload: Payload, requiresAck: bool, now: int)
    ensures PrepareMessage(c, payload, requiresAck, now).conn.incoming == c.incoming
  {
    hide CountAcks, CountResends, ItemBytes, PrepareService;
    if c.counter < MAX_ALLOWED_COUNTER {
      var main := Msg(MakeSeq(c.counter + 1, requiresAck, !HaveAdditional(c) && !requiresAck), payload);
      var queued := Pending(main.seqNum, payload, now);
      ServiceKeepsWindow(c.(counter := c.counter + 1, pending := MakeDue(c.pending + [queued])), CAUSE_NONE, now);
    }
  }

  lemma SendingKeepsOrderly(x: Side, y: Side, payload: Payload, requiresAck: bool, cause: nat, now: int)
    requires Orderly(x, y) && Orderly(y, x)
    ensures Orderly(ActService(x, cause, now), y) && Orderly(y, ActService(x, cause, now))
    ensures Orderly(ActMessage(x, payload, requiresAck, now), y) && Orderly(y, ActMessage(x, payload, requiresAck, now))
  {
    hide PrepareService, PrepareMessage, NoRepeats, AtMost, Acknowledgements.Sends;
    Acknowledgements.ServiceSends(x.conn, cause, now);
    Acknowledgements.MessageSends(x.conn, payload, requiresAck, now);
    ServiceKeepsWindow(x.conn, cause, now);
    MessageKeepsWindow(x.conn, payload, requiresAck, now);
    RecordOrderly(x, y, PrepareService(x.conn, cause, now));
    RecordOrderly(x, y, PrepareMessage(x.conn, payload, requiresAck, now));
  }

  lemma ArrivalKeepsOrderly(form: Form, x: Side, y: Side, index: nat)
    requires Orderly(x, y) && Orderly(y, x) && SideOk(form, x) && index < |x.sent|
    ensures Orderly(x, ActArrive(y, form, x.sent[index], index)) && Orderly(ActArrive(y, form, x.sent[index], index), x)
  {
    var packet := x.sent[index];
    assert PacketOk(form, x.conn.kind, packet);
    assert packet != [];
    hide SideOk, HandleIncoming, PacketBytes, WellFormed, Accepts, AtMost, NoRepeats, AbsorbAll, Carried, AcksIn, Required;
    hide PacketOnWire, AckAll;
    WindowAtMost(y.conn, form, packet, x.conn.counter);
    ArrivalOfPacket(form, y.conn, packet, y.delivered);
    Acknowledgements.AbsorbedAcks(LedgerOfSide(y), Carried(PacketOnWire(packet)));
  }

  lemma StepKeepsReady(s: System, step: Step)
    requires Ready(s)
    ensures Ready(Next(s, step))
  {
    StepKeepsSafe(s, step, false);
    hide Orderly, Good, SideOk, ActMessage, ActService, ActArrive, CanSend;
    GoodHasSide(s.form, s.left, s.right, false);
    GoodHasSide(s.form, s.right, s.left, false);
    hide Safe;
    match step
    case SendMessage(byLeft, payload, requiresAck, now) =>
      SendingKeepsOrderly(s.left, s.right, payload, requiresAck, CAUSE_NONE, now);
      SendingKeepsOrderly(s.right, s.left, payload, requiresAck, CAUSE_NONE, now);
    case SendService(byLeft, cause, now) =>
      SendingKeepsOrderly(s.left, s.right, Raw([]), false, cause, now);
      SendingKeepsOrderly(s.right, s.left, Raw([]), false, cause, now);
    case Arrive(atLeft, index) =>
      if atLeft && index < |s.right.sent| {
        ArrivalKeepsOrderly(s.form, s.right, s.left, index);
      } else if !atLeft && index < |s.left.sent| {
        ArrivalKeepsOrderly(s.form, s.left, s.right, index);
      }
  }

  lemma {:induction false} RunKeepsReady(s: System, steps: seq<Step>)
    requires Ready(s)
    ensures Ready(Run(s, steps))
    decreases |steps|
  {
    hide Ready, Next;
    if steps != [] {
      StepKeepsReady(s, steps[0]);
      RunKeepsReady(Next(s, steps[0]), steps[1..]);
    }
  }

  lemma StartIsReady(form: Form, kind: Kind)
    ensures Ready(Start(form, kind))
  {
    StartIsSafe(form, kind, false);
  }

  // --- One service call whose packet arrives

  /** The side that sends towards that side makes a service call, and its packet arrives. */
  ghost function Ping(s: System, atLeft: bool, now: int): System {
    var index := |Sender(s, atLeft).sent|;
    Next(Next(s, Step.SendService(!atLeft, CAUSE_NONE, now)), Arrive(atLeft, index))
  }

  /** What it makes of the two. */
  ghost predicate PingMakes(s: System, atLeft: bool, now: int, s': System) {
    var x, y, x', y' := Sender(s, atLeft), Receiver(s, atLeft), Sender(s', atLeft), Receiver(s', atLeft);
    var r := PrepareService(x.conn, CAUSE_NONE, now);
    && x'.conn == r.conn && x'.queued == x.queued && x'.sent == x.sent + [r.packet] && y'.queued == y.queued
    && y'.conn.acksToSend == AbsorbAll(LedgerOfSide(y), Carried(PacketOnWire(r.packet))).acksToSend
    && y'.conn.pending == AckAll(y.conn.pending, AcksIn(PacketOnWire(r.packet)))
    && y'.conn.counter == y.conn.counter && y'.conn.kind == y.conn.kind
  }

  lemma NewIsAccepted(list: seq<nat>, bound: nat, c: nat)
    requires AtMost(list, bound) && bound < c
    ensures Accepts(list, c)
  {
    forall i | 0 <= i < |list|
      ensures list[i] < c
    {
      assert list[i] in list;
    }
  }

  lemma ServiceGoesOut(c: Conn, now: int)
    requires HaveAdditional(c) && c.counter < MAX_ALLOWED_COUNTER
    ensures var r := PrepareService(c, CAUSE_NONE, now);
            && r.packet != [] && r.conn.counter == c.counter + 1 && r.conn.kind == c.kind
            && CounterFromSeq(r.packet[0].seqNum) == c.counter + 1
  {
    hide CountAcks, CountResends;
  }

  lemma PingSides(s: System, atLeft: bool, now: int)
    requires |ActService(Sender(s, atLeft), CAUSE_NONE, now).sent| > |Sender(s, atLeft).sent|
    ensures var x, y := ActService(Sender(s, atLeft), CAUSE_NONE, now), Receiver(s, atLeft);
            var index := |Sender(s, atLeft).sent|;
            && Sender(Next(s, Step.SendService(!atLeft, CAUSE_NONE, now)), atLeft) == x
            && Next(s, Step.SendService(!atLeft, CAUSE_NONE, now)).form == s.form
            && Sender(Ping(s, atLeft, now), atLeft) == x
            && Receiver(Ping(s, atLeft, now), atLeft) == ActArrive(y, s.form, x.sent[index], index)
  {
    hide ActService, ActArrive;
  }

  lemma PingKeepsReady(s: System, atLeft: bool, now: int)
    requires Ready(s)
    ensures Ready(Ping(s, atLeft, now)) && Ready(Next(s, Step.SendService(!atLeft, CAUSE_NONE, now)))
  {
    hide Ready, Next;
    var first := Step.SendService(!atLeft, CAUSE_NONE, now);
    StepKeepsReady(s, first);
    StepKeepsReady(Next(s, first), Arrive(atLeft, |Sender(s, atLeft).sent|));
  }

  /** In every state both sides may emit what they have emitted. */
  lemma ReadyPacket(s: System, atLeft: bool, k: nat)
    requires Ready(s) && k < |Sender(s, atLeft).sent|
    ensures PacketOk(s.form, Sender(s, atLeft).conn.kind, Sender(s, atLeft).sent[k])
  {
    hide Keeps, PacketOk, QueueTravels, Orderly;
  }

  lemma ReadySides(s: System, atLeft: bool)
    requires Ready(s)
    ensures Orderly(Sender(s, atLeft), Receiver(s, atLeft)) && Orderly(Receiver(s, atLeft), Sender(s, atLeft))
    ensures Good(s.form, Sender(s, atLeft), Receiver(s, atLeft), false)
    ensures Good(s.form, Receiver(s, atLeft), Sender(s, atLeft), false)
  {
    hide Orderly, Good;
  }

  lemma Takes(form: Form, y: Side, kind: Kind, packet: Packet, index: nat)
    requires PacketOk(form, kind, packet) && packet != []
    requires Accepts(y.conn.incoming, CounterFromSeq(packet[0].seqNum))
    ensures var y' := ActArrive(y, form, packet, index);
            && y'.queued == y.queued && y'.conn.counter == y.conn.counter && y'.conn.kind == y.conn.kind
            && y'.conn.acksToSend == AbsorbAll(LedgerOfSide(y), Carried(PacketOnWire(packet))).acksToSend
            && y'.conn.pending == AckAll(y.conn.pending, AcksIn(PacketOnWire(packet)))
  {
    hide HandleIncoming, PacketBytes, WellFormed, Accepts, AbsorbAll, Carried, AcksIn, AckAll, PacketOnWire, Required;
    ArrivalOfPacket(form, y.conn, packet, y.delivered);
  }

  lemma ServiceSide(x: Side, now: int)
    ensures var r, x' := PrepareService(x.conn, CAUSE_NONE, now), ActService(x, CAUSE_NONE, now);
            && x'.conn == r.conn && x'.queued == x.queued
            && (r.packet != [] ==> x'.sent == x.sent + [r.packet])
  {
    hide PrepareService;
  }

  lemma OrderlyWindow(x: Side, y: Side)
    requires Orderly(x, y)
    ensures AtMost(y.conn.incoming, x.conn.counter) && NoRepeats(x.conn.acksToSend)
  {
  }

  /** The side that calls has a counter and something to send: its packet is taken. */
  lemma PingArrives(s: System, atLeft: bool, now: int)
    requires Ready(s) && HaveAdditional(Sender(s, atLeft).conn) && Sender(s, atLeft).conn.counter < MAX_ALLOWED_COUNTER
    ensures Ready(Ping(s, atLeft, now)) && PingMakes(s, atLeft, now, Ping(s, atLeft, now))
  {
    hide Ready, Good, PrepareService, Accepts, AbsorbAll, Carried, AcksIn, AckAll, PacketOnWire, Orderly, Ping, Next;
    hide ActService, ActArrive, PacketOk, AtMost, HaveAdditional;
    var x, y := Sender(s, atLeft), Receiver(s, atLeft);
    var s1 := Next(s, Step.SendService(!atLeft, CAUSE_NONE, now));
    var packet := PrepareService(x.conn, CAUSE_NONE, now).packet;
    ReadySides(s, atLeft);
    OrderlyWindow(x, y);
    NewIsAccepted(y.conn.incoming, x.conn.counter, x.conn.counter + 1);
    ServiceGoesOut(x.conn, now);
    PingKeepsReady(s, atLeft, now);
    ServiceSide(x, now);
    PingSides(s, atLeft, now);
    assert Sender(s1, atLeft).sent[|x.sent|] == packet;
    ReadyPacket(s1, atLeft, |x.sent|);
    Takes(s.form, y, Sender(s1, atLeft).conn.kind, packet, |x.sent|);
  }

  // --- What a service call carries

  /** A message that is sent by now and that a service call can carry. */
  predicate CanGo(kind: Kind, p: Pending, now: int) {
    p.lastSent <= now && !IsOversize(kind, p)
  }

  ghost predicate AllCanGo(c: Conn, now: int) {
    forall i | 0 <= i < |c.pending| :: CanGo(c.kind, c.pending[i], now)
  }

  function AcksTaken(c: Conn): (m: nat)
    ensures m <= |c.acksToSend|
    ensures c.acksToSend != [] ==> m > 0
  {
    Acknowledgements.Min(|c.acksToSend|, Acknowledgements.AcksPerService(c.kind))
  }

  function MessagesTaken(c: Conn, now: int): (k: nat)
    ensures k <= |c.pending|
  {
    CountResends(c.kind, EMPTY_SERIALIZED_SIZE + ACK_SERIALIZED_SIZE * AcksTaken(c), c.pending, now)
  }

  lemma ServiceCarries(form: Form, c: Conn, now: int)
    requires HaveAdditional(c) && c.counter < MAX_ALLOWED_COUNTER && QueueTravels(form, c.pending)
    ensures var r := PrepareService(c, CAUSE_NONE, now);
            && AcksIn(PacketOnWire(r.packet)) == c.acksToSend[..AcksTaken(c)]
            && Carried(PacketOnWire(r.packet)) == Entries(c.pending[..MessagesTaken(c, now)])
            && r.conn.acksToSend == c.acksToSend[AcksTaken(c)..]
            && SameMessages(c.pending, r.conn.pending)
  {
    hide AppendAdditional, CountAcks, CountResends, QueueTravels, SameMessages, Carried, AcksIn, PacketOnWire;
    var c1, main := c.(counter := c.counter + 1), Empty(MakeSeq(c.counter + 1, false, false));
    Acknowledgements.CountAcksIsQuotient(c.kind, EMPTY_SERIALIZED_SIZE, c.acksToSend);
    assert AckCount(c1, EMPTY_SERIALIZED_SIZE) == AcksTaken(c);
    assert ResendCount(c1, EMPTY_SERIALIZED_SIZE, now) == MessagesTaken(c, now);
    AppendAdditionalEffect(c1, EMPTY_SERIALIZED_SIZE, now);
    PrefixTravels(form, c, MessagesTaken(c, now));
    PacketCarries(form, main, c.acksToSend[..AcksTaken(c)], c.pending[..MessagesTaken(c, now)]);
    assert CarriedBy(ItemOnWire(main)) == [];
    assert [] + Entries(c.pending[..MessagesTaken(c, now)]) == Entries(c.pending[..MessagesTaken(c, now)]);
  }

  lemma ServiceKeepsAllCanGo(c: Conn, now: int)
    requires AllCanGo(c, now)
    ensures AllCanGo(PrepareService(c, CAUSE_NONE, now).conn, now)
  {
    hide CountAcks, CountResends, ItemBytes;
  }

  lemma HeadIsTaken(c: Conn, before: int, now: int)
    requires c.acksToSend == [] && c.pending != [] && AllCanGo(c, before)
    requires 0 <= now && before + MinDelayBeforeMessageResend(c.kind) <= now
    ensures MessagesTaken(c, now) > 0
  {
    hide ItemBytes;
    assert CanGo(c.kind, c.pending[0], before);
  }

  lemma {:induction false} AckAllWithin(pending: seq<Pending>, acks: seq<uint32>)
    ensures |AckAll(pending, acks)| <= |pending|
    ensures forall p | p in AckAll(pending, acks) :: p in pending
    decreases |acks|
  {
    hide AckMessage;
    if acks != [] {
      AckMessageWithin(pending, acks[0]);
      AckAllWithin(AckMessage(pending, acks[0]), acks[1..]);
    }
  }

  lemma {:induction false} AckMessageWithin(pending: seq<Pending>, seqNum: uint32)
    ensures |AckMessage(pending, seqNum)| <= |pending|
    ensures forall p | p in AckMessage(pending, seqNum) :: p in pending
  {
    if pending != [] {
      AckMessageWithin(pending[1..], seqNum);
    }
  }

  lemma {:induction false} AckAllKeepsHead(pending: seq<Pending>, acks: seq<uint32>)
    requires pending != [] && pending[0].seqNum !in acks
    ensures AckAll(pending, acks) != [] && AckAll(pending, acks)[0] == pending[0]
    decreases |acks|
  {
    if acks != [] {
      AckAllKeepsHead(AckMessage(pending, acks[0]), acks[1..]);
    }
  }

  lemma {:induction false} AckAllTakesHead(pending: seq<Pending>, acks: seq<uint32>)
    requires pending != [] && pending[0].seqNum in acks
    ensures |AckAll(pending, acks)| < |pending|
    decreases |acks|
  {
    if acks[0] == pending[0].seqNum {
      AckAllWithin(pending[1..], acks[1..]);
    } else {
      AckMessageWithin(pending[1..], acks[0]);
      AckAllTakesHead(AckMessage(pending, acks[0]), acks[1..]);
    }
  }

  lemma {:induction false} AcksKeepAllCanGo(c: Conn, acks: seq<uint32>, c': Conn, now: int)
    requires AllCanGo(c, now) && c'.kind == c.kind && c'.pending == AckAll(c.pending, acks)
    ensures AllCanGo(c', now)
  {
    hide CanGo, AckAll;
    AckAllWithin(c.pending, acks);
    forall i | 0 <= i < |c'.pending|
      ensures CanGo(c'.kind, c'.pending[i], now)
    {
      assert c'.pending[i] in c.pending;
    }
  }

  // --- How many acknowledgements can wait

  lemma {:induction false} Pigeonhole<T>(a: seq<T>, b: seq<T>)
    requires NoRepeats(a) && forall e | e in a :: e in b
    ensures |a| <= |b|
  {
    if a != [] {
      var n := |a| - 1;
      assert a[n] in a;
      var j :| 0 <= j < |b| && b[j] == a[n];
      var rest := b[..j] + b[j + 1..];
      forall e | e in a[..n]
        ensures e in rest
      {
        assert e in a && e != b[j];
        var i :| 0 <= i < |b| && b[i] == e;
        assert e == if i < j then rest[i] else rest[i - 1];
      }
      Pigeonhole(a[..n], rest);
    }
  }

  function Seqs(entries: seq<Entry>): (list: seq<uint32>)
    ensures |list| == |entries|
    ensures forall i | 0 <= i < |entries| :: list[i] == entries[i].seqNum
  {
    seq(|entries|, i requires 0 <= i < |entries| => entries[i].seqNum)
  }

  lemma AcksAreFew(form: Form, x: Side, y: Side)
    requires Good(form, x, y, false) && Orderly(y, x)
    ensures |y.conn.acksToSend| <= |x.queued|
  {
    GoodParts(form, x, y, false);
    hide AllBefore, NothingLost, AllBacked, PacketsAscend, AcksOk, SideOk, Keeps, HasCounter, QueueOk, NoRepeats;
    hide AtMost;
    forall s | s in y.conn.acksToSend
      ensures s in Seqs(x.queued)
    {
      assert HasSeq(Towards(x, y).delivered, s);
      var k :| 0 <= k < |y.delivered| && y.delivered[k].seqNum == s;
      assert y.delivered[k] in x.queued;
      var i :| 0 <= i < |x.queued| && x.queued[i] == y.delivered[k];
      assert Seqs(x.queued)[i] == s;
    }
    Pigeonhole(y.conn.acksToSend, Seqs(x.queued));
  }

  // --- Calls in a row

  /** A service call of the side that sends towards that side, whose packet arrives. */
  datatype Call = Call(atLeft: bool, now: int)

  ghost function PingAll(s: System, calls: seq<Call>): System
    decreases |calls|
  {
    if calls == [] then s else PingAll(Ping(s, calls[0].atLeft, calls[0].now), calls[1..])
  }

  lemma {:induction false} PingFirst(s: System, call: Call, calls: seq<Call>)
    ensures PingAll(s, [call] + calls) == PingAll(Ping(s, call.atLeft, call.now), calls)
  {
    hide Ping;
    assert ([call] + calls)[1..] == calls;
  }

  lemma {:induction false} PingConcat(s: System, a: seq<Call>, b: seq<Call>)
    ensures PingAll(s, a + b) == PingAll(PingAll(s, a), b)
    decreases |a|
  {
    hide Ping;
    if a == [] {
      assert a + b == b;
    } else {
      assert (a + b)[1..] == a[1..] + b;
      PingConcat(Ping(s, a[0].atLeft, a[0].now), a[1..], b);
    }
  }

  /** Nothing is queued, and the messages in one queue stay those that can go. */
  ghost predicate Goes(s: System, s': System, atLeft: bool, now: int) {
    && Ready(s')
    && Sender(s', atLeft).queued == Sender(s, atLeft).queued
    && Receiver(s', atLeft).queued == Receiver(s, atLeft).queued
    && AllCanGo(Sender(s', atLeft).conn, now)
  }

  /** The acknowledgements of the sending side go out. */
  lemma PingDrains(s: System, atLeft: bool, now: int)
    requires Ready(s) && AllCanGo(Sender(s, atLeft).conn, now)
    requires HaveAdditional(Sender(s, atLeft).conn) && Sender(s, atLeft).conn.counter < MAX_ALLOWED_COUNTER
    ensures var s' := Ping(s, atLeft, now);
            var c, c' := Sender(s, atLeft).conn, Sender(s', atLeft).conn;
            && Goes(s, s', atLeft, now)
            && c'.acksToSend == c.acksToSend[AcksTaken(c)..] && SameMessages(c.pending, c'.pending)
            && c'.counter == c.counter + 1 && Receiver(s', atLeft).conn.counter == Receiver(s, atLeft).conn.counter
  {
    hide Ready, PrepareService, Ping, AbsorbAll, Carried, AcksIn, AckAll, PacketOnWire, AllCanGo, SameMessages, AcksTaken;
    hide HaveAdditional, QueueTravels;
    var c := Sender(s, atLeft).conn;
    PingArrives(s, atLeft, now);
    ReadyTravels(s, atLeft);
    ServiceGoesOut(c, now);
    ServiceCarries(s.form, c, now);
    ServiceKeepsAllCanGo(c, now);
  }

  lemma ReadyTravels(s: System, atLeft: bool)
    requires Ready(s)
    ensures QueueTravels(s.form, Sender(s, atLeft).conn.pending)
  {
    hide Orderly, Keeps, QueueTravels, PacketOk;
  }

  lemma DrainAcks(s: System, atLeft: bool, now: int) returns (calls: seq<Call>)
    requires Ready(s) && AllCanGo(Sender(s, atLeft).conn, now)
    requires Sender(s, atLeft).conn.counter + |Sender(s, atLeft).conn.acksToSend| <= MAX_ALLOWED_COUNTER
    ensures var c, s' := Sender(s, atLeft).conn, PingAll(s, calls);
            var c' := Sender(s', atLeft).conn;
            && |calls| <= |c.acksToSend|
            && Goes(s, s', atLeft, now) && c'.acksToSend == [] && |c'.pending| == |c.pending|
            && c'.counter <= c.counter + |c.acksToSend|
            && Receiver(s', atLeft).conn.counter == Receiver(s, atLeft).conn.counter
    decreases |Sender(s, atLeft).conn.acksToSend|
  {
    hide Ready, Ping, AllCanGo;
    var c := Sender(s, atLeft).conn;
    if c.acksToSend == [] {
      calls := [];
    } else {
      PingDrains(s, atLeft, now);
      assert AcksTaken(c) > 0;
      hide SameMessages, AcksTaken;
      var s1 := Ping(s, atLeft, now);
      SameLength(c.pending, Sender(s1, atLeft).conn.pending);
      var rest := DrainAcks(s1, atLeft, now);
      calls := [Call(atLeft, now)] + rest;
      PingFirst(s, Call(atLeft, now), rest);
    }
  }

  lemma FirstSeq(pending: seq<Pending>, k: nat)
    requires 0 < k <= |pending|
    ensures pending[0].seqNum in Endpoint.SeqsOf(Entries(pending[..k]))
  {
    assert Entries(pending[..k])[0] == EntryOf(pending[0]);
  }

  /** With no acknowledgement in the way the first message is resent, and will be acknowledged. */
  lemma HeadGoesOut(s: System, atLeft: bool, before: int, now: int)
    requires Ready(s) && Sender(s, atLeft).conn.acksToSend == [] && Sender(s, atLeft).conn.pending != []
    requires AllCanGo(Sender(s, atLeft).conn, before) && 0 <= now && before + 3000 <= now
    requires Sender(s, atLeft).conn.counter < MAX_ALLOWED_COUNTER
    ensures var c, s' := Sender(s, atLeft).conn, Ping(s, atLeft, now);
            var c' := Sender(s', atLeft).conn;
            && Goes(s, s', atLeft, now) && |c'.pending| == |c.pending|
            && c'.pending[0].seqNum in Receiver(s', atLeft).conn.acksToSend
            && c'.counter == c.counter + 1 && Receiver(s', atLeft).conn.counter == Receiver(s, atLeft).conn.counter
  {
    var c := Sender(s, atLeft).conn;
    HeadIsTaken(c, before, now);
    LaterCanGo(c, before, now);
    hide Ready, PrepareService, Ping, AbsorbAll, Carried, AcksIn, AckAll, PacketOnWire, AllCanGo, AcksTaken;
    hide MessagesTaken, QueueTravels, NoRepeats, Endpoint.SeqsOf, SameMessages, Entries;
    PingDrains(s, atLeft, now);
    var c' := Sender(Ping(s, atLeft, now), atLeft).conn;
    SameLength(c.pending, c'.pending);
    SameHead(c.pending, c'.pending);
    PingArrives(s, atLeft, now);
    ReadyTravels(s, atLeft);
    ServiceCarries(s.form, c, now);
    FirstSeq(c.pending, MessagesTaken(c, now));
    ReadySides(s, atLeft);
    OrderlyWindow(Receiver(s, atLeft), Sender(s, atLeft));
    Acknowledgements.AbsorbedAcks(LedgerOfSide(Receiver(s, atLeft)), Entries(c.pending[..MessagesTaken(c, now)]));
  }

  lemma SameHead(a: seq<Pending>, b: seq<Pending>)
    requires SameMessages(a, b) && a != []
    ensures b != [] && a[0].seqNum == b[0].seqNum
  {
    assert a[0].AsItem() == b[0].AsItem();
  }

  lemma LaterCanGo(c: Conn, before: int, now: int)
    requires AllCanGo(c, before) && before <= now
    ensures AllCanGo(c, now)
  {
    hide ItemBytes;
    forall i | 0 <= i < |c.pending|
      ensures CanGo(c.kind, c.pending[i], now)
    {
      assert CanGo(c.kind, c.pending[i], before);
    }
  }

  /** A service call of the other side brings its oldest acknowledgements. */
  lemma PingBrings(s: System, atLeft: bool, now: int)
    requires Ready(s)
    requires Receiver(s, atLeft).conn.acksToSend != [] && Receiver(s, atLeft).conn.counter < MAX_ALLOWED_COUNTER
    ensures var s' := Ping(s, !atLeft, now);
            var x, x', y, y' := Sender(s, atLeft), Sender(s', atLeft), Receiver(s, atLeft), Receiver(s', atLeft);
            && Ready(s') && x'.queued == x.queued && y'.queued == y.queued && x'.conn.kind == x.conn.kind
            && x'.conn.pending == AckAll(x.conn.pending, y.conn.acksToSend[..AcksTaken(y.conn)])
            && y'.conn.acksToSend == y.conn.acksToSend[AcksTaken(y.conn)..]
            && y'.conn.counter == y.conn.counter + 1 && x'.conn.counter == x.conn.counter
  {
    hide Ready, PrepareService, Ping, AbsorbAll, Carried, AcksIn, AckAll, PacketOnWire, SameMessages, AcksTaken;
    hide QueueTravels;
    var y := Receiver(s, atLeft).conn;
    PingArrives(s, !atLeft, now);
    ReadyTravels(s, !atLeft);
    ServiceGoesOut(y, now);
    ServiceCarries(s.form, y, now);
  }

  lemma PingAcknowledges(s: System, atLeft: bool, now: int)
    requires Ready(s) && AllCanGo(Sender(s, atLeft).conn, now)
    requires Receiver(s, atLeft).conn.acksToSend != [] && Receiver(s, atLeft).conn.counter < MAX_ALLOWED_COUNTER
    ensures var s' := Ping(s, !atLeft, now);
            var c, c' := Sender(s, atLeft).conn, Sender(s', atLeft).conn;
            var y, y' := Receiver(s, atLeft).conn, Receiver(s', atLeft).conn;
            && Goes(s, s', atLeft, now)
            && c'.pending == AckAll(c.pending, y.acksToSend[..AcksTaken(y)])
            && y'.acksToSend == y.acksToSend[AcksTaken(y)..]
            && y'.counter == y.counter + 1 && c'.counter == c.counter
  {
    hide Ready, Ping, AckAll, AllCanGo, AcksTaken;
    var y := Receiver(s, atLeft).conn;
    PingBrings(s, atLeft, now);
    var c, c' := Sender(s, atLeft).conn, Sender(Ping(s, !atLeft, now), atLeft).conn;
    AcksKeepAllCanGo(c, y.acksToSend[..AcksTaken(y)], c', now);
  }

  /** The other side makes service calls until the first message is acknowledged. */
  lemma AcksComeBack(s: System, atLeft: bool, now: int) returns (calls: seq<Call>)
    requires Ready(s) && AllCanGo(Sender(s, atLeft).conn, now) && Sender(s, atLeft).conn.pending != []
    requires Sender(s, atLeft).conn.pending[0].seqNum in Receiver(s, atLeft).conn.acksToSend
    requires Receiver(s, atLeft).conn.counter + |Receiver(s, atLeft).conn.acksToSend| <= MAX_ALLOWED_COUNTER
    ensures var c, y, s' := Sender(s, atLeft).conn, Receiver(s, atLeft).conn, PingAll(s, calls);
            && |calls| <= |y.acksToSend|
            && Goes(s, s', atLeft, now) && |Sender(s', atLeft).conn.pending| < |c.pending|
            && Sender(s', atLeft).conn.counter == c.counter
            && Receiver(s', atLeft).conn.counter <= y.counter + |y.acksToSend|
    decreases |Receiver(s, atLeft).conn.acksToSend|
  {
    hide Ready, Ping, AllCanGo, AckAll;
    var c, y, s1 := Sender(s, atLeft).conn, Receiver(s, atLeft).conn, Ping(s, !atLeft, now);
    var call := Call(!atLeft, now);
    PingAcknowledges(s, atLeft, now);
    assert AcksTaken(y) > 0;
    hide AcksTaken;
    var written, rest := y.acksToSend[..AcksTaken(y)], y.acksToSend[AcksTaken(y)..];
    assert y.acksToSend == written + rest;
    if c.pending[0].seqNum in written {
      AckAllTakesHead(c.pending, written);
      calls := [call];
      PingFirst(s, call, []);
      assert [call] + [] == [call];
    } else {
      AckAllKeepsHead(c.pending, written);
      AckAllWithin(c.pending, written);
      var more := AcksComeBack(s1, atLeft, now);
      calls := [call] + more;
      PingFirst(s, call, more);
    }
  }

  /** The calls for one message: at most so many. */
  ghost function Round(s: System): nat {
    |s.left.queued| + |s.right.queued| + 1
  }

  /** One message leaves the queue. */
  lemma OneLeaves(s: System, atLeft: bool, now: int) returns (calls: seq<Call>)
    requires Ready(s) && AllCanGo(Sender(s, atLeft).conn, now) && Sender(s, atLeft).conn.pending != [] && 0 <= now
    requires Sender(s, atLeft).conn.counter + Round(s) <= MAX_ALLOWED_COUNTER
    requires Receiver(s, atLeft).conn.counter + Round(s) <= MAX_ALLOWED_COUNTER
    ensures var s' := PingAll(s, calls);
            && |calls| <= Round(s)
            && Goes(s, s', atLeft, now + 3000) && |Sender(s', atLeft).conn.pending| < |Sender(s, atLeft).conn.pending|
            && Sender(s', atLeft).conn.counter <= Sender(s, atLeft).conn.counter + Round(s)
            && Receiver(s', atLeft).conn.counter <= Receiver(s, atLeft).conn.counter + Round(s)
  {
    hide Ready, Ping, AllCanGo, PingAll, Good, Orderly;
    ReadySides(s, atLeft);
    AcksAreFew(s.form, Receiver(s, atLeft), Sender(s, atLeft));
    var first := DrainAcks(s, atLeft, now);
    var s1 := PingAll(s, first);
    HeadGoesOut(s1, atLeft, now, now + 3000);
    var s2 := Ping(s1, atLeft, now + 3000);
    ReadySides(s2, atLeft);
    AcksAreFew(s2.form, Sender(s2, atLeft), Receiver(s2, atLeft));
    var last := AcksComeBack(s2, atLeft, now + 3000);
    var call := Call(atLeft, now + 3000);
    calls := first + ([call] + last);
    PingConcat(s, first, [call] + last);
    PingFirst(s1, call, last);
  }

  lemma {:induction false} OneLess(p: nat, q: nat, n: nat)
    requires p < q
    ensures p * n + n <= q * n
    decreases q
  {
    assert q * n == (q - 1) * n + n;
    if p < q - 1 {
      OneLess(p, q - 1, n);
    }
  }

  lemma QueueEmpties(s: System, atLeft: bool, now: int) returns (calls: seq<Call>)
    requires Ready(s) && AllCanGo(Sender(s, atLeft).conn, now) && 0 <= now
    requires Sender(s, atLeft).conn.counter + |Sender(s, atLeft).conn.pending| * Round(s) <= MAX_ALLOWED_COUNTER
    requires Receiver(s, atLeft).conn.counter + |Sender(s, atLeft).conn.pending| * Round(s) <= MAX_ALLOWED_COUNTER
    ensures var s' := PingAll(s, calls);
            && |calls| <= |Sender(s, atLeft).conn.pending| * Round(s)
            && Ready(s') && Sender(s', atLeft).conn.pending == []
            && Sender(s', atLeft).queued == Sender(s, atLeft).queued
    decreases |Sender(s, atLeft).conn.pending|
  {
    hide Ready, Ping, AllCanGo, PingAll;
    var n := |Sender(s, atLeft).conn.pending|;
    if n == 0 {
      calls := [];
      NoCalls(s);
    } else {
      OneLess(0, n, Round(s));
      var first := OneLeaves(s, atLeft, now);
      var s1 := PingAll(s, first);
      OneLess(|Sender(s1, atLeft).conn.pending|, n, Round(s));
      var rest := QueueEmpties(s1, atLeft, now + 3000);
      calls := first + rest;
      PingConcat(s, first, rest);
    }
  }

  lemma {:induction false} NoCalls(s: System)
    ensures PingAll(s, []) == s
  {
  }

  /** From any reachable state in which every message in a queue can be carried by a service call and
      counters are left: there are service calls of the two sides, no more than there are messages in that
      queue times one more than were ever queued, after which, if their packets arrive, the queue is empty
      and everything that was ever put into it has been handed up. */
  lemma QueueCanEmpty(form: Form, kind: Kind, before: seq<Step>, atLeft: bool, now: int) returns (calls: seq<Call>)
    requires var s := Run(Start(form, kind), before);
             var x, y := Sender(s, atLeft).conn, Receiver(s, atLeft).conn;
             && AllCanGo(x, now) && 0 <= now
             && x.counter + |x.pending| * Round(s) <= MAX_ALLOWED_COUNTER
             && y.counter + |x.pending| * Round(s) <= MAX_ALLOWED_COUNTER
    ensures var s := Run(Start(form, kind), before);
            var s' := PingAll(s, calls);
            && |calls| <= |Sender(s, atLeft).conn.pending| * Round(s)
            && Sender(s', atLeft).conn.pending == [] && Sender(s', atLeft).queued == Sender(s, atLeft).queued
            && (forall e | e in Sender(s, atLeft).queued :: e in Receiver(s', atLeft).delivered)
  {
    hide Ready, Run, Start, PingAll, AllCanGo;
    StartIsReady(form, kind);
    RunKeepsReady(Start(form, kind), before);
    var s := Run(Start(form, kind), before);
    calls := QueueEmpties(s, atLeft, now);
    EmptyIsDelivered(PingAll(s, calls), atLeft);
  }

  lemma EmptyIsDelivered(s: System, atLeft: bool)
    requires Ready(s) && Sender(s, atLeft).conn.pending == []
    ensures forall e | e in Sender(s, atLeft).queued :: e in Receiver(s, atLeft).delivered
  {
    ReadySides(s, atLeft);
    var x, y := Sender(s, atLeft), Receiver(s, atLeft);
    GoodParts(s.form, x, y, false);
    hide AllBacked, PacketsAscend, AcksOk, SideOk, Keeps, GapFree, Honest, QueueOk, Ready, Good, Orderly;
    assert NothingLost(Towards(x, y));
  }
}
