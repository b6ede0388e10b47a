// Two endpoints of the reliable message layer and a network that loses,
// duplicates and reorders the packets between them.
module Link {
  import opened Prelude
  import opened Bytes
  import opened Wire
  import opened ReplayWindow
  import opened Connection
  import opened Delivery
  import opened Channel
  import opened InOrder
  import opened Sending

  /** An endpoint and what is on record about it. */
  datatype Side = Side(
    conn: Conn,
    sent: seq<Packet>,        // every packet it ever emitted
    queued: seq<Entry>,       // every message requiring an acknowledgement it ever took into its queue
    delivered: seq<Entry>,    // every such message it ever handed up
    next: nat)                // the index of the last packet of the other side that arrived

  datatype System = System(form: Form, left: Side, right: Side)

  /** Any packet emitted so far may arrive any number of times, in any order, or never. */
  datatype Step =
    | SendMessage(byLeft: bool, payload: Payload, requiresAck: bool, now: int)
    | SendService(byLeft: bool, cause: nat, now: int)
    | Arrive(atLeft: bool, index: nat)

  function Record(x: Side, r: Prepared): Side {
    x.(conn := r.conn, sent := if r.packet == [] then x.sent else x.sent + [r.packet])
  }

  function ActMessage(x: Side, payload: Payload, requiresAck: bool, now: int): Side {
    var r := PrepareMessage(x.conn, payload, requiresAck, now);
    Record(x, r).(queued :=
      if |r.conn.pending| <= |x.conn.pending| then x.queued
      else x.queued + Entries(r.conn.pending[|x.conn.pending|..]))
  }

  function ActService(x: Side, cause: nat, now: int): Side {
    Record(x, PrepareService(x.conn, cause, now))
  }

  function ActArrive(y: Side, form: Form, packet: Packet, index: nat): Side {
    var a := HandleIncoming(y.conn, form, PacketBytes(packet));
    y.(conn := a.conn, delivered := y.delivered + Required(a.received), next := index)
  }

  ghost function Next(s: System, step: Step): System {
    match step
    case SendMessage(byLeft, payload, requiresAck, now) =>
      if !CanSend(s.form, payload, requiresAck) then s
      else if byLeft then s.(left := ActMessage(s.left, payload, requiresAck, now))
      else s.(right := ActMessage(s.right, payload, requiresAck, now))
    case SendService(byLeft, cause, now) =>
      if byLeft then s.(left := ActService(s.left, cause, now))
      else s.(right := ActService(s.right, cause, now))
    case Arrive(atLeft, index) =>
      if atLeft then
        if index < |s.right.sent| then s.(left := ActArrive(s.left, s.form, s.right.sent[index], index)) else s
      else
        if index < |s.left.sent| then s.(right := ActArrive(s.right, s.form, s.left.sent[index], index)) else s
  }

  ghost function Run(s: System, steps: seq<Step>): System
    decreases |steps|
  {
    if steps == [] then s else Run(Next(s, steps[0]), steps[1..])
  }

  /** No packet arrives after one that was sent later; it may still be lost or arrive twice. */
  ghost predicate StepInOrder(s: System, step: Step) {
    match step
    case Arrive(atLeft, index) => (if atLeft then s.left.next else s.right.next) <= index
    case _ => true
  }

  ghost predicate RunInOrder(s: System, steps: seq<Step>)
    decreases |steps|
  {
    steps == [] || (StepInOrder(s, steps[0]) && RunInOrder(Next(s, steps[0]), steps[1..]))
  }

  function StartSide(kind: Kind): Side {
    Side(NewConn(kind), [], [], [], 0)
  }

  function Start(form: Form, kind: Kind): System {
    System(form, StartSide(kind), StartSide(kind))
  }

  // --- Each side, and each direction as a channel

  ghost predicate PacketOk(form: Form, kind: Kind, packet: Packet) {
    && WellFormed(form, packet)
    && MSG_KEY_SIZE + |PacketBytes(packet)| <= PacketLimit(kind)
  }

  ghost predicate SideOk(form: Form, x: Side) {
    && QueueTravels(form, x.conn.pending)
    && (forall i | 0 <= i < |x.queued| :: !IsSingle(x.queued[i].seqNum))
    && (forall k | 0 <= k < |x.sent| :: PacketOk(form, x.conn.kind, x.sent[k]))
  }

  function AllCarried(sent: seq<Packet>): (list: seq<seq<Entry>>)
    ensures |list| == |sent|
    ensures forall k | 0 <= k < |sent| :: list[k] == Carried(PacketOnWire(sent[k]))
  {
    seq(|sent|, k requires 0 <= k < |sent| => Carried(PacketOnWire(sent[k])))
  }

  function AllAcks(sent: seq<Packet>): (list: seq<seq<uint32>>)
    ensures |list| == |sent|
    ensures forall k | 0 <= k < |sent| :: list[k] == AcksIn(PacketOnWire(sent[k]))
  {
    seq(|sent|, k requires 0 <= k < |sent| => AcksIn(PacketOnWire(sent[k])))
  }

  /** The direction from x to y. */
  function Towards(x: Side, y: Side): Channel {
    Channel(
      x.conn.counter, x.queued, Entries(x.conn.pending), AllCarried(x.sent),
      y.conn.acksSent, y.conn.acksToSend, AllAcks(y.sent), y.delivered)
  }

  /** What a direction keeps: always, and when no packet comes late. */
  ghost predicate Keeps(ch: Channel, next: nat, inOrder: bool) {
    Inv(ch) && (inOrder ==> OnceInv(ch, next))
  }

  ghost predicate Good(form: Form, x: Side, y: Side, inOrder: bool) {
    && SideOk(form, x)
    && Keeps(Towards(x, y), y.next, inOrder)
    && Keeps(Towards(y, x), x.next, inOrder)
  }

  lemma BumpKeepsAll(ch: Channel, next: nat, inOrder: bool, counter: nat)
    requires Keeps(ch, next, inOrder) && ch.counter <= counter
    ensures Keeps(Bump(ch, counter), next, inOrder)
  {
    BumpKeeps(ch, counter);
  }

  lemma EnqueueKeepsAll(ch: Channel, next: nat, inOrder: bool, e: Entry)
    requires Keeps(ch, next, inOrder) && e.Counter() <= ch.counter
    requires forall x | x in ch.queued :: x.Counter() < e.Counter()
    ensures Keeps(Enqueue(ch, e), next, inOrder)
  {
    hide Inv, OnceInv;
    EnqueueKeeps(ch, e);
    if inOrder {
      EnqueueOnce(ch, next, e);
    }
  }

  lemma EmitKeepsAll(ch: Channel, next: nat, inOrder: bool, n: nat)
    requires Keeps(ch, next, inOrder) && n <= |ch.pending|
    ensures Keeps(Emit(ch, n), next, inOrder)
  {
    hide OnceInv;
    EmitKeeps(ch, n);
    if inOrder {
      EmitOnce(ch, next, n);
    }
  }

  lemma EmitAcksKeepsAll(ch: Channel, next: nat, inOrder: bool, acks: seq<uint32>, kept: seq<uint32>)
    requires Keeps(ch, next, inOrder)
    requires forall s | s in acks || s in kept :: s in ch.acksToSend
    ensures Keeps(EmitAcks(ch, acks, kept), next, inOrder)
  {
    EmitAcksKeeps(ch, acks, kept);
  }

  lemma ReceiveKeepsAll(ch: Channel, next: nat, inOrder: bool, k: nat)
    requires Keeps(ch, next, inOrder) && k < |ch.packets| && (inOrder ==> next <= k)
    ensures Keeps(Receive(ch, k), k, inOrder)
  {
    InvIsAscending(ch);
    assert AscendingEntries(ch.packets[k]);
    hide Inv, OnceInv, Receive, AscendingEntries;
    ReceiveKeeps(ch, k);
    if inOrder {
      ReceiveOnce(ch, next, k);
    }
  }

  lemma InvIsAscending(ch: Channel)
    ensures Inv(ch) ==> Ascending(ch.acksSent)
  {
  }

  lemma {:induction false} DropSeqsWithin(pending: seq<Entry>, acks: seq<uint32>)
    requires AscendingEntries(pending)
    ensures Within(DropSeqs(pending, acks), pending)
    decreases |acks|
  {
    hide AscendingEntries, DropSeq;
    if acks != [] {
      DropSeqContents(pending, acks[0]);
      DropSeqsWithin(DropSeq(pending, acks[0]), acks[1..]);
    }
  }

  lemma TakeAcksKeepsAll(ch: Channel, next: nat, inOrder: bool, k: nat)
    requires Keeps(ch, next, inOrder) && k < |ch.ackPackets|
    ensures Keeps(TakeAcks(ch, k), next, inOrder)
  {
    hide OnceInv;
    assert AscendingEntries(ch.pending);
    hide Inv;
    TakeAcksKeeps(ch, k);
    DropSeqsWithin(ch.pending, ch.ackPackets[k]);
    if inOrder {
      TakeAcksOnce(ch, next, DropSeqs(ch.pending, ch.ackPackets[k]));
    }
  }

  // --- Emitting a packet

  lemma EntriesConcat(a: seq<Pending>, b: seq<Pending>)
    ensures Entries(a + b) == Entries(a) + Entries(b)
  {
    hide EntryOf;
  }

  lemma EntriesPrefix(pending: seq<Pending>, k: nat)
    requires k <= |pending|
    ensures Entries(pending[..k]) == Entries(pending)[..k]
  {
    hide EntryOf;
  }

  lemma AllCarriedPush(sent: seq<Packet>, packet: Packet)
    ensures AllCarried(sent + [packet]) == AllCarried(sent) + [Carried(PacketOnWire(packet))]
    ensures AllAcks(sent + [packet]) == AllAcks(sent) + [AcksIn(PacketOnWire(packet))]
  {
    hide Carried, AcksIn, PacketOnWire;
  }

  lemma WaitingAcksAreNotSingle(form: Form, x: Side, y: Side)
    requires SideOk(form, y) && Inv(Towards(y, x))
    ensures NoneSingle(x.conn.acksToSend)
  {
    hide QueueTravels, PacketOk, AllBefore, QueueOk, NothingLost, AllBacked, AcksOk, HasCounter;
    forall i | 0 <= i < |x.conn.acksToSend|
      ensures !IsSingle(x.conn.acksToSend[i])
    {
      assert HasSeq(x.delivered, x.conn.acksToSend[i]);
      var k :| 0 <= k < |x.delivered| && x.delivered[k].seqNum == x.conn.acksToSend[i];
      assert x.delivered[k] in y.queued;
    }
  }

  /** x' is x after it emitted a packet with main in front of what it appends. */
  ghost predicate Emission(x: Side, main: Item, now: int, x': Side) {
    var r := AppendAdditional(x.conn, |ItemBytes(main)|, now);
    x' == Record(x, Prepared(r.conn, [main] + r.packet))
  }

  /** In one direction a prefix of the queue goes out, in the other some acknowledgements. */
  lemma EmissionSteps(form: Form, x: Side, y: Side, main: Item, now: int, x': Side)
    requires QueueTravels(form, x.conn.pending) && !main.Ack? && !IsRequired(main)
    requires Emission(x, main, now, x')
    ensures var size := |ItemBytes(main)|;
            var a, n := AckCount(x.conn, size), ResendCount(x.conn, size, now);
            && Towards(x', y) == Emit(Towards(x, y), n)
            && Towards(y, x') == EmitAcks(Towards(y, x), x.conn.acksToSend[..a], x.conn.acksToSend[a..])
            && x'.sent == x.sent + [[main] + (AckItems(x.conn.acksToSend[..a]) + ResendItems(x.conn.pending[..n]))]
            && SameMessages(x.conn.pending, x'.conn.pending)
            && x'.conn.kind == x.conn.kind
  {
    assert CarriedBy(ItemOnWire(main)) == [];
    hide AppendAdditional, ItemBytes, CountAcks, CountResends, QueueTravels, CarriedBy, SameMessages, ItemOnWire;
    var size := |ItemBytes(main)|;
    var a, n := AckCount(x.conn, size), ResendCount(x.conn, size, now);
    var acks, resends := x.conn.acksToSend[..a], x.conn.pending[..n];
    AppendAdditionalEffect(x.conn, size, now);
    PrefixTravels(form, x.conn, n);
    PacketCarries(form, main, acks, resends);
    var packet := [main] + AppendAdditional(x.conn, size, now).packet;
    AllCarriedPush(x.sent, packet);
    EntriesPrefix(x.conn.pending, n);
    assert Carried(PacketOnWire(packet)) == Entries(x.conn.pending)[..n];
  }

  lemma EmissionSideOk(form: Form, x: Side, main: Item, now: int, x': Side)
    requires SideOk(form, x) && NoneSingle(x.conn.acksToSend) && !main.Ack?
    requires main.Msg? ==> Travels(form, main.payload, IsSingle(main.seqNum))
    requires IsSingle(main.seqNum) ==> x.conn.acksToSend == [] && x.conn.pending == []
    requires MSG_KEY_SIZE + |ItemBytes(main)| <= PacketLimit(x.conn.kind)
    requires Emission(x, main, now, x')
    ensures SideOk(form, x')
  {
    hide AppendAdditional, ItemBytes, CountAcks, CountResends, QueueTravels, NoneSingle, Travels, PacketLimit;
    hide SameMessages, WellFormed;
    var size := |ItemBytes(main)|;
    var a, n := AckCount(x.conn, size), ResendCount(x.conn, size, now);
    AppendAdditionalEffect(x.conn, size, now);
    PrefixTravels(form, x.conn, n);
    PrefixNotSingle(x.conn.acksToSend, a);
    PacketIsWellFormed(form, main, x.conn.acksToSend[..a], x.conn.pending[..n]);
    PacketFits(x.conn, main, now);
    SameMessagesTravel(form, x.conn.pending, x'.conn.pending);
  }

  /** x, its counter raised, emits a packet with a main part that requires no acknowledgement. */
  lemma EmissionKeeps(form: Form, x: Side, y: Side, inOrder: bool, main: Item, now: int, x': Side)
    requires Good(form, x, y, inOrder) && SideOk(form, y)
    requires !main.Ack? && !IsRequired(main)
    requires main.Msg? ==> Travels(form, main.payload, IsSingle(main.seqNum))
    requires IsSingle(main.seqNum) ==> x.conn.acksToSend == [] && x.conn.pending == []
    requires MSG_KEY_SIZE + |ItemBytes(main)| <= PacketLimit(x.conn.kind)
    requires Emission(x, main, now, x')
    ensures Good(form, x', y, inOrder)
  {
    GoodParts(form, x, y, inOrder);
    hide Inv, OnceInv, ItemBytes, Travels, CountAcks, CountResends, Emission, Keeps, QueueTravels, PacketLimit;
    hide Emit, EmitAcks, SideOk, Towards;
    var size := |ItemBytes(main)|;
    var a, n := AckCount(x.conn, size), ResendCount(x.conn, size, now);
    WaitingAcksAreNotSingle(form, x, y);
    EmissionSideOk(form, x, main, now, x');
    EmissionSteps(form, x, y, main, now, x');
    PendingOfTowards(x, y);
    EmitKeepsAll(Towards(x, y), y.next, inOrder, n);
    EmitAcksKeepsAll(Towards(y, x), x.next, inOrder, x.conn.acksToSend[..a], x.conn.acksToSend[a..]);
    RecordOnly(x, main, now, x');
  }

  lemma RecordOnly(x: Side, main: Item, now: int, x': Side)
    requires Emission(x, main, now, x')
    ensures x'.next == x.next
  {
  }

  lemma PendingOfTowards(x: Side, y: Side)
    ensures |Towards(x, y).pending| == |x.conn.pending|
    ensures Towards(y, x).acksToSend == x.conn.acksToSend
  {
  }

  lemma GoodParts(form: Form, x: Side, y: Side, inOrder: bool)
    requires Good(form, x, y, inOrder)
    ensures Inv(Towards(y, x)) && Inv(Towards(x, y))
    ensures QueueTravels(form, x.conn.pending)
    ensures SideOk(form, x) && Keeps(Towards(x, y), y.next, inOrder) && Keeps(Towards(y, x), x.next, inOrder)
  {
    hide Inv, OnceInv;
  }

  lemma PrefixTravels(form: Form, c: Conn, n: nat)
    requires QueueTravels(form, c.pending) && n <= |c.pending|
    ensures QueueTravels(form, c.pending[..n])
  {
    hide PendingOk;
  }

  lemma PrefixNotSingle(acks: seq<uint32>, a: nat)
    requires NoneSingle(acks) && a <= |acks|
    ensures NoneSingle(acks[..a])
  {
  }

  lemma SameMessagesTravel(form: Form, a: seq<Pending>, b: seq<Pending>)
    requires QueueTravels(form, a) && SameMessages(a, b)
    ensures QueueTravels(form, b)
  {
    hide Travels;
    forall i | 0 <= i < |b|
      ensures PendingOk(form, b[i])
    {
      assert PendingOk(form, a[i]);
    }
  }

  // --- Changes that no direction sees, and raising the counter

  /** Time stamps, timers, requests, the replay window and the counter may differ. */
  ghost predicate SameButCounter(c: Conn, c': Conn) {
    && c'.kind == c.kind && c.counter <= c'.counter
    && c'.acksSent == c.acksSent && c'.acksToSend == c.acksToSend
    && SameMessages(c.pending, c'.pending)
  }

  lemma UnseenKeeps(form: Form, x: Side, y: Side, inOrder: bool, c: Conn)
    requires Good(form, x, y, inOrder) && SameButCounter(x.conn, c)
    ensures Good(form, x.(conn := c), y, inOrder)
  {
    GoodParts(form, x, y, inOrder);
    SameMessagesSameEntries(x.conn.pending, c.pending);
    SameMessagesTravel(form, x.conn.pending, c.pending);
    hide Inv, OnceInv, Keeps, QueueTravels, SameMessages, PacketOk;
    BumpKeepsAll(Towards(x, y), y.next, inOrder, c.counter);
    assert Towards(x.(conn := c), y) == Bump(Towards(x, y), c.counter);
    assert Towards(y, x.(conn := c)) == Towards(y, x);
  }

  lemma SameMessagesReflexive(pending: seq<Pending>)
    ensures SameMessages(pending, pending)
  {
  }

  lemma ServiceKeeps(form: Form, x: Side, y: Side, inOrder: bool, cause: nat, now: int)
    requires Good(form, x, y, inOrder) && SideOk(form, y)
    ensures Good(form, ActService(x, cause, now), y, inOrder)
  {
    hide Good, SideOk, AppendAdditional, CountAcks, CountResends, SameMessages;
    SameMessagesReflexive(x.conn.pending);
    var c := ClearTimer(x.conn, cause);
    if !HaveAdditional(c) || !CounterLeft(c, false) {
      UnseenKeeps(form, x, y, inOrder, c);
      assert ActService(x, cause, now) == x.(conn := c);
    } else {
      var c1 := c.(counter := c.counter + 1);
      var main := Empty(MakeSeq(c1.counter, false, false));
      UnseenKeeps(form, x, y, inOrder, c1);
      assert |ItemBytes(main)| == EMPTY_SERIALIZED_SIZE;
      EmissionKeeps(form, x.(conn := c1), y, inOrder, main, now, ActService(x, cause, now));
    }
  }

  // --- Sending a message

  lemma FitsTravels(form: Form, kind: Kind, main: Item, requiresAck: bool)
    requires main.Msg? && CanSend(form, main.payload, requiresAck) && Fits(kind, |ItemBytes(main)|, 0)
    ensures Travels(form, main.payload, IsSingle(main.seqNum))
  {
    hide PayloadBytes, Travels, CanSend, ItemBytes;
    PayloadInside(main.seqNum, main.payload);
    SmallTravels(form, main.payload, requiresAck, IsSingle(main.seqNum));
  }

  /** A new message goes to the end of the queue. */
  lemma EnqueueSide(form: Form, x: Side, y: Side, inOrder: bool, p: Pending, due: seq<Pending>)
    requires Good(form, x, y, inOrder) && PendingOk(form, p) && p.Counter() == x.conn.counter
    requires forall i | 0 <= i < |x.queued| :: x.queued[i].Counter() < p.Counter()
    requires SameMessages(x.conn.pending + [p], due)
    ensures Good(form, x.(conn := x.conn.(pending := due), queued := x.queued + [EntryOf(p)]), y, inOrder)
  {
    GoodParts(form, x, y, inOrder);
    hide Inv, OnceInv, Keeps, SameMessages, PacketOk, PendingOk;
    var e := EntryOf(p);
    var x' := x.(conn := x.conn.(pending := due), queued := x.queued + [e]);
    EnqueueKeepsAll(Towards(x, y), y.next, inOrder, e);
    SameMessagesSameEntries(x.conn.pending + [p], due);
    EntriesConcat(x.conn.pending, [p]);
    assert Entries([p]) == [e];
    assert Towards(x', y) == Enqueue(Towards(x, y), e);
    assert Towards(y, x') == Towards(y, x);
    assert QueueTravels(form, x.conn.pending + [p]);
    SameMessagesTravel(form, x.conn.pending + [p], due);
    assert !IsSingle(e.seqNum) by { assert PendingOk(form, p); PendingNotSingle(form, p); }
  }

  lemma PendingNotSingle(form: Form, p: Pending)
    requires PendingOk(form, p)
    ensures !IsSingle(p.seqNum)
  {
  }

  /** What sending a message requiring an acknowledgement makes of x when its queue is empty. */
  ghost predicate FirstEmission(x: Side, p: Pending, now: int, x': Side) {
    var r := AppendAdditional(x.conn, |ItemBytes(p.AsItem())|, now);
    x' == Record(x, Prepared(r.conn.(pending := r.conn.pending + [p]), [p.AsItem()] + r.packet))
            .(queued := x.queued + [EntryOf(p)])
  }

  lemma FirstEmissionSteps(form: Form, x: Side, y: Side, p: Pending, now: int, x': Side)
    requires x.conn.pending == [] && PendingOk(form, p) && FirstEmission(x, p, now, x')
    ensures var a := AckCount(x.conn, |ItemBytes(p.AsItem())|);
            && |Enqueue(Towards(x, y), EntryOf(p)).pending| == 1
            && Towards(x', y) == Emit(Enqueue(Towards(x, y), EntryOf(p)), 1)
            && Towards(y, x') == EmitAcks(Towards(y, x), x.conn.acksToSend[..a], x.conn.acksToSend[a..])
            && x'.sent == x.sent + [[p.AsItem()] + (AckItems(x.conn.acksToSend[..a]) + ResendItems([]))]
            && x'.conn.pending == [p] && x'.conn.kind == x.conn.kind
  {
    ResendItemCarries(p);
    hide AppendAdditional, ItemBytes, CountAcks, CountResends, CarriedBy, ItemOnWire, EntryOf;
    var main, e := p.AsItem(), EntryOf(p);
    var size := |ItemBytes(main)|;
    var a, n := AckCount(x.conn, size), ResendCount(x.conn, size, now);
    var acks := x.conn.acksToSend[..a];
    AppendAdditionalEffect(x.conn, size, now);
    assert x.conn.pending[..n] == [];
    PacketCarries(form, main, acks, []);
    var packet := [main] + AppendAdditional(x.conn, size, now).packet;
    AllCarriedPush(x.sent, packet);
    assert Carried(PacketOnWire(packet)) == [e] + Entries([]) == [e];
    assert Enqueue(Towards(x, y), e).pending[..1] == [e];
  }

  lemma FirstEmissionSideOk(form: Form, x: Side, p: Pending, now: int, x': Side)
    requires SideOk(form, x) && NoneSingle(x.conn.acksToSend) && PendingOk(form, p)
    requires x.conn.pending == [] && FirstEmission(x, p, now, x')
    requires MSG_KEY_SIZE + |ItemBytes(p.AsItem())| <= PacketLimit(x.conn.kind)
    ensures SideOk(form, x')
  {
    PendingNotSingle(form, p);
    hide AppendAdditional, ItemBytes, CountAcks, CountResends, NoneSingle, Travels, PacketLimit;
    var size := |ItemBytes(p.AsItem())|;
    var a, n := AckCount(x.conn, size), ResendCount(x.conn, size, now);
    AppendAdditionalEffect(x.conn, size, now);
    assert x.conn.pending[..n] == [];
    PrefixNotSingle(x.conn.acksToSend, a);
    PacketIsWellFormed(form, p.AsItem(), x.conn.acksToSend[..a], []);
    hide WellFormed;
    PacketFits(x.conn, p.AsItem(), now);
    assert x'.conn.pending == [p];
  }

  lemma FirstEmissionKeeps(form: Form, x: Side, y: Side, inOrder: bool, p: Pending, now: int, x': Side)
    requires Good(form, x, y, inOrder) && SideOk(form, y)
    requires x.conn.pending == [] && PendingOk(form, p) && p.Counter() == x.conn.counter
    requires forall i | 0 <= i < |x.queued| :: x.queued[i].Counter() < p.Counter()
    requires MSG_KEY_SIZE + |ItemBytes(p.AsItem())| <= PacketLimit(x.conn.kind)
    requires FirstEmission(x, p, now, x')
    ensures Good(form, x', y, inOrder)
  {
    GoodParts(form, x, y, inOrder);
    WaitingAcksAreNotSingle(form, x, y);
    assert x'.next == x.next;
    QueuedOfTowards(x, y);
    hide Inv, OnceInv, ItemBytes, CountAcks, CountResends, FirstEmission, Keeps, PacketLimit, PendingOk;
    hide Emit, EmitAcks, Enqueue, SideOk, Towards;
    var a := AckCount(x.conn, |ItemBytes(p.AsItem())|);
    FirstEmissionSideOk(form, x, p, now, x');
    FirstEmissionSteps(form, x, y, p, now, x');
    PendingOfTowards(x, y);
    EnqueueKeepsAll(Towards(x, y), y.next, inOrder, EntryOf(p));
    EmitKeepsAll(Enqueue(Towards(x, y), EntryOf(p)), y.next, inOrder, 1);
    EmitAcksKeepsAll(Towards(y, x), x.next, inOrder, x.conn.acksToSend[..a], x.conn.acksToSend[a..]);
  }

  lemma QueuedOfTowards(x: Side, y: Side)
    ensures Towards(x, y).queued == x.queued && Towards(x, y).counter == x.conn.counter
  {
  }

  lemma QueuedBelowCounter(form: Form, x: Side, y: Side, inOrder: bool)
    requires Good(form, x, y, inOrder)
    ensures forall i | 0 <= i < |x.queued| :: x.queued[i].Counter() <= x.conn.counter
  {
    hide OnceInv, NothingLost, AllBacked, GapFree, Honest, AcksOk, AscendingEntries, Within, SideOk;
    assert QueueOk(Towards(x, y));
  }

  /** A message requiring an acknowledgement, its counter taken and its size checked. */
  lemma RequiredKeeps(form: Form, x: Side, y: Side, inOrder: bool, p: Pending, now: int, r: Prepared)
    requires Good(form, x, y, inOrder) && SideOk(form, y)
    requires PendingOk(form, p) && p.Counter() == x.conn.counter && p.lastSent == now
    requires forall i | 0 <= i < |x.queued| :: x.queued[i].Counter() < p.Counter()
    requires Fits(x.conn.kind, |ItemBytes(p.AsItem())|, 0)
    requires r == PrepareMain(x.conn, p.AsItem(), true, now)
    ensures Good(form, Record(x, r).(queued := x.queued + [EntryOf(p)]), y, inOrder)
    ensures |r.conn.pending| == |x.conn.pending| + 1
    ensures Entries(r.conn.pending[|x.conn.pending|..]) == [EntryOf(p)]
  {
    hide Good, SideOk, AppendAdditional, ItemBytes, PendingOk, CountAcks, CountResends;
    var x' := Record(x, r).(queued := x.queued + [EntryOf(p)]);
    if x.conn.pending == [] {
      FirstEmissionKeeps(form, x, y, inOrder, p, now, x');
      var size := |ItemBytes(p.AsItem())|;
      AppendAdditionalEffect(x.conn, size, now);
      assert r.conn.pending == [p];
      assert r.conn.pending[0..] == [p];
    } else {
      var due := MakeDue(x.conn.pending + [p]);
      var c := x.conn.(pending := due);
      assert SameMessages(x.conn.pending + [p], due);
      EnqueueSide(form, x, y, inOrder, p, due);
      ServiceKeeps(form, x.(conn := c, queued := x.queued + [EntryOf(p)]), y, inOrder, CAUSE_NONE, now);
      ServiceKeepsQueue(c, CAUSE_NONE, now);
      LastEntry(x.conn.pending, p, r.conn.pending);
    }
  }

  lemma ServiceKeepsQueue(c: Conn, cause: nat, now: int)
    ensures SameMessages(c.pending, PrepareService(c, cause, now).conn.pending)
  {
    hide AppendAdditional, SameMessages;
    SameMessagesReflexive(c.pending);
    var c0 := ClearTimer(c, cause);
    if HaveAdditional(c0) && CounterLeft(c0, false) {
      AppendAdditionalEffect(c0.(counter := c0.counter + 1), EMPTY_SERIALIZED_SIZE, now);
    }
  }

  lemma LastEntry(pending: seq<Pending>, p: Pending, now: seq<Pending>)
    requires SameMessages(MakeDue(pending + [p]), now)
    ensures |now| == |pending| + 1
    ensures Entries(now[|pending|..]) == [EntryOf(p)]
  {
    assert now[|pending|].AsItem() == p.AsItem() by {
      assert MakeDue(pending + [p])[|pending|].AsItem() == now[|pending|].AsItem();
    }
  }

  /** A message that requires no acknowledgement, its counter taken and its size checked. */
  lemma OptionalKeeps(form: Form, x: Side, y: Side, inOrder: bool, main: Item, now: int)
    requires SideOk(form, y) && CounterLeft(x.conn, false)
    requires main.Msg? && main.seqNum == MakeSeq(x.conn.counter + 1, false, !HaveAdditional(x.conn))
    requires Good(form, Raised(x), y, inOrder)
    requires Travels(form, main.payload, IsSingle(main.seqNum))
    requires Fits(x.conn.kind, |ItemBytes(main)|, 0)
    ensures Good(form, ActMessage(x, main.payload, false, now), y, inOrder)
  {
    hide Good, SideOk, AppendAdditional, ItemBytes, CountAcks, CountResends, Travels, SameMessages;
    var x1 := Raised(x);
    var r := PrepareMain(x1.conn, main, false, now);
    assert Emission(x1, main, now, Record(x1, r));
    EmissionKeeps(form, x1, y, inOrder, main, now, Record(x1, r));
    AppendAdditionalEffect(x1.conn, |ItemBytes(main)|, now);
    SameLength(x1.conn.pending, r.conn.pending);
    assert ActMessage(x, main.payload, false, now) == Record(x1, r);
  }

  lemma RequiredMessageKeeps(form: Form, x: Side, y: Side, inOrder: bool, main: Item, now: int)
    requires SideOk(form, y) && CounterLeft(x.conn, true)
    requires main.Msg? && main.seqNum == MakeSeq(x.conn.counter + 1, true, false)
    requires Good(form, Raised(x), y, inOrder)
    requires forall i | 0 <= i < |x.queued| :: x.queued[i].Counter() <= x.conn.counter
    requires Travels(form, main.payload, false)
    requires Fits(x.conn.kind, |ItemBytes(main)|, 0)
    ensures Good(form, ActMessage(x, main.payload, true, now), y, inOrder)
  {
    hide Good, SideOk, PrepareMain, ItemBytes, Travels, Fits, Entries;
    var x1 := Raised(x);
    RequiredKeeps(form, x1, y, inOrder, Pending(main.seqNum, main.payload, now), now,
                  PrepareMain(x1.conn, main, true, now));
  }

  /** x with the next counter taken. */
  function Raised(x: Side): Side
    requires x.conn.counter < MAX_ALLOWED_COUNTER
  {
    x.(conn := x.conn.(counter := x.conn.counter + 1))
  }

  lemma MessageKeeps(
    form: Form, x: Side, y: Side, inOrder: bool, payload: Payload, requiresAck: bool, now: int)
    requires Good(form, x, y, inOrder) && SideOk(form, y) && CanSend(form, payload, requiresAck)
    ensures Good(form, ActMessage(x, payload, requiresAck, now), y, inOrder)
  {
    SameMessagesReflexive(x.conn.pending);
    QueuedBelowCounter(form, x, y, inOrder);
    hide Good, SideOk, CanSend, AppendAdditional, SameMessages, ItemBytes, Travels, PrepareService;
    if !CounterLeft(x.conn, requiresAck) {
      assert ActMessage(x, payload, requiresAck, now) == x;
    } else {
      var x1 := Raised(x);
      var single := !HaveAdditional(x.conn) && !requiresAck;
      var main := Msg(MakeSeq(x1.conn.counter, requiresAck, single), payload);
      UnseenKeeps(form, x, y, inOrder, x1.conn);
      if !Fits(x.conn.kind, |ItemBytes(main)|, 0) {
        assert ActMessage(x, payload, requiresAck, now) == x1;
      } else {
        hide ActMessage, Fits;
        FitsTravels(form, x.conn.kind, main, requiresAck);
        if requiresAck {
          RequiredMessageKeeps(form, x, y, inOrder, main, now);
        } else {
          OptionalKeeps(form, x, y, inOrder, main, now);
        }
      }
    }
  }

  lemma SameLength(a: seq<Pending>, b: seq<Pending>)
    requires SameMessages(a, b)
    ensures |a| == |b|
  {
  }

  // --- A packet arrives

  lemma {:induction false} AckMessageIsDrop(pending: seq<Pending>, seqNum: uint32)
    ensures Entries(AckMessage(pending, seqNum)) == DropSeq(Entries(pending), seqNum)
  {
    hide PayloadOnWire;
    if pending != [] {
      var rest := pending[1..];
      AckMessageIsDrop(rest, seqNum);
      assert Entries(pending)[1..] == Entries(rest);
      EntriesConcat([pending[0]], AckMessage(rest, seqNum));
      assert Entries([pending[0]]) == [Entries(pending)[0]];
    }
  }

  lemma {:induction false} AckAllIsDrop(pending: seq<Pending>, acks: seq<uint32>)
    ensures Entries(AckAll(pending, acks)) == DropSeqs(Entries(pending), acks)
    decreases |acks|
  {
    hide AckMessage, DropSeq, Entries;
    if acks != [] {
      AckMessageIsDrop(pending, acks[0]);
      AckAllIsDrop(AckMessage(pending, acks[0]), acks[1..]);
    }
  }

  lemma {:induction false} AckMessageTravels(form: Form, pending: seq<Pending>, seqNum: uint32)
    requires QueueTravels(form, pending)
    ensures QueueTravels(form, AckMessage(pending, seqNum))
  {
    hide PendingOk;
    if pending != [] {
      AckMessageTravels(form, pending[1..], seqNum);
    }
  }

  lemma {:induction false} AckAllTravels(form: Form, pending: seq<Pending>, acks: seq<uint32>)
    requires QueueTravels(form, pending)
    ensures QueueTravels(form, AckAll(pending, acks))
    decreases |acks|
  {
    hide AckMessage, QueueTravels;
    if acks != [] {
      AckMessageTravels(form, pending, acks[0]);
      AckAllTravels(form, AckMessage(pending, acks[0]), acks[1..]);
    }
  }

  /** Of a packet the other side emitted: it is dropped by the replay window, or taken as a whole. */
  lemma {:induction false} ArrivalOfPacket(form: Form, c: Conn, packet: Packet, delivered: seq<Entry>)
    requires WellFormed(form, packet) && |PacketBytes(packet)| + MSG_KEY_SIZE <= MAX_SIGNALING_PACKET_SIZE
    ensures var a := HandleIncoming(c, form, PacketBytes(packet));
            var l := AbsorbAll(Ledger(c.acksSent, c.acksToSend, true, delivered), Carried(PacketOnWire(packet)));
            if Accepts(c.incoming, CounterFromSeq(packet[0].seqNum)) then
              && a.conn.acksSent == l.acksSent && a.conn.acksToSend == l.acksToSend
              && delivered + Required(a.received) == l.log
              && a.conn.pending == AckAll(c.pending, AcksIn(PacketOnWire(packet)))
              && a.conn.counter == c.counter && a.conn.kind == c.kind
            else a == Arrival(c, [])
  {
    hide Accepts, Register, PacketBytes, ReadU32, ParsePacket, AbsorbAll, Carried, AcksIn, ApplyAll, WellFormed, AckAll;
    hide Required;
    PacketRoundTrip(form, packet);
    PacketIsLong(form, packet);
    var counter := CounterFromSeq(packet[0].seqNum);
    if Accepts(c.incoming, counter) {
      var start := Cursor(c.(incoming := Register(c.incoming, counter)), counter, false, true, false, []);
      ApplyAbsorbs(start, PacketOnWire(packet), delivered);
      NothingRequired();
      assert delivered + [] == delivered;
    }
  }

  lemma NothingRequired()
    ensures Required([]) == []
  {
  }

  lemma {:induction false} PacketIsLong(form: Form, packet: Packet)
    requires WellFormed(form, packet)
    ensures packet != [] && |PacketBytes(packet)| >= 5
  {
  }

  /** A packet that is taken is received in its direction, and its acknowledgements in the other. */
  lemma ArrivalSteps(form: Form, x: Side, y: Side, index: nat)
    requires index < |x.sent| && PacketOk(form, x.conn.kind, x.sent[index])
    requires Accepts(y.conn.incoming, CounterFromSeq(x.sent[index][0].seqNum))
    ensures var y' := ActArrive(y, form, x.sent[index], index);
            && Towards(x, y') == Receive(Towards(x, y), index)
            && Towards(y', x) == TakeAcks(Towards(y, x), index)
  {
    hide PacketBytes, WellFormed, HandleIncoming, Accepts;
    hide Carried, AcksIn, PacketOnWire, AbsorbAll, AckAll, DropSeqs, Required, Entries;
    var packet := x.sent[index];
    ArrivalOfPacket(form, y.conn, packet, y.delivered);
    AckAllIsDrop(y.conn.pending, AcksIn(PacketOnWire(packet)));
  }

  lemma ArrivalSideOk(form: Form, y: Side, kind: Kind, packet: Packet, index: nat)
    requires SideOk(form, y) && PacketOk(form, kind, packet)
    ensures SideOk(form, ActArrive(y, form, packet, index))
  {
    hide PacketBytes, WellFormed, HandleIncoming, Accepts, QueueTravels;
    hide Carried, AcksIn, PacketOnWire, AbsorbAll, AckAll, Required;
    ArrivalOfPacket(form, y.conn, packet, y.delivered);
    AckAllTravels(form, y.conn.pending, AcksIn(PacketOnWire(packet)));
  }

  lemma DroppedChangesNothing(form: Form, x: Side, y: Side, index: nat)
    requires index < |x.sent| && PacketOk(form, x.conn.kind, x.sent[index])
    requires !Accepts(y.conn.incoming, CounterFromSeq(x.sent[index][0].seqNum))
    ensures ActArrive(y, form, x.sent[index], index) == y.(next := index)
  {
    hide PacketBytes, WellFormed, HandleIncoming, Accepts, Required, AbsorbAll, AckAll;
    ArrivalOfPacket(form, y.conn, x.sent[index], y.delivered);
    NothingRequired();
    assert y.delivered + [] == y.delivered;
  }

  lemma ArriveKeeps(form: Form, x: Side, y: Side, inOrder: bool, index: nat)
    requires Good(form, y, x, inOrder) && SideOk(form, x)
    requires index < |x.sent| && (inOrder ==> y.next <= index)
    ensures Good(form, ActArrive(y, form, x.sent[index], index), x, inOrder)
  {
    GoodParts(form, y, x, inOrder);
    var packet := x.sent[index];
    assert PacketOk(form, x.conn.kind, packet);
    hide Inv, OnceInv, PacketBytes, WellFormed, HandleIncoming, Accepts, SideOk, Receive, TakeAcks;
    var y' := ActArrive(y, form, packet, index);
    if Accepts(y.conn.incoming, CounterFromSeq(packet[0].seqNum)) {
      ArrivalSteps(form, x, y, index);
      ArrivalSideOk(form, y, x.conn.kind, packet, index);
      ReceiveKeepsAll(Towards(x, y), y.next, inOrder, index);
      TakeAcksKeepsAll(Towards(y, x), x.next, inOrder, index);
    } else {
      DroppedChangesNothing(form, x, y, index);
      SideOkButNext(form, y, index);
      assert Towards(x, y') == Towards(x, y) && Towards(y', x) == Towards(y, x);
      if inOrder {
        LaterIsFine(Towards(x, y), y.next, index);
      }
    }
  }

  lemma SideOkButNext(form: Form, y: Side, index: nat)
    requires SideOk(form, y)
    ensures SideOk(form, y.(next := index))
  {
  }

  lemma LaterIsFine(ch: Channel, next: nat, k: nat)
    requires OnceInv(ch, next) && next <= k
    ensures OnceInv(ch, k)
  {
    OvertakenLater(ch, next, k);
  }

  // --- Whole runs

  ghost predicate Safe(s: System, inOrder: bool) {
    && Good(s.form, s.left, s.right, inOrder)
    && Good(s.form, s.right, s.left, inOrder)
  }

  lemma GoodIsMutual(form: Form, x: Side, y: Side, inOrder: bool)
    requires Good(form, x, y, inOrder) && SideOk(form, y)
    ensures Good(form, y, x, inOrder)
  {
    hide Keeps;
  }

  lemma StepKeepsSafe(s: System, step: Step, inOrder: bool)
    requires Safe(s, inOrder) && (inOrder ==> StepInOrder(s, step))
    ensures Safe(Next(s, step), inOrder)
  {
    GoodHasSide(s.form, s.left, s.right, inOrder);
    GoodHasSide(s.form, s.right, s.left, inOrder);
    hide Good, SideOk, ActMessage, ActService, ActArrive, CanSend;
    var left, right := s.left, s.right;
    match step
    case SendMessage(byLeft, payload, requiresAck, now) =>
      if CanSend(s.form, payload, requiresAck) {
        if byLeft {
          MessageKeeps(s.form, left, right, inOrder, payload, requiresAck, now);
          GoodIsMutual(s.form, ActMessage(left, payload, requiresAck, now), right, inOrder);
        } else {
          MessageKeeps(s.form, right, left, inOrder, payload, requiresAck, now);
          GoodIsMutual(s.form, ActMessage(right, payload, requiresAck, now), left, inOrder);
        }
      }
    case SendService(byLeft, cause, now) =>
      if byLeft {
        ServiceKeeps(s.form, left, right, inOrder, cause, now);
        GoodIsMutual(s.form, ActService(left, cause, now), right, inOrder);
      } else {
        ServiceKeeps(s.form, right, left, inOrder, cause, now);
        GoodIsMutual(s.form, ActService(right, cause, now), left, inOrder);
      }
    case Arrive(atLeft, index) =>
      if atLeft && index < |right.sent| {
        ArriveKeeps(s.form, right, left, inOrder, index);
        GoodIsMutual(s.form, ActArrive(left, s.form, right.sent[index], index), right, inOrder);
      } else if !atLeft && index < |left.sent| {
        ArriveKeeps(s.form, left, right, inOrder, index);
        GoodIsMutual(s.form, ActArrive(right, s.form, left.sent[index], index), left, inOrder);
      }
  }

  lemma GoodHasSide(form: Form, x: Side, y: Side, inOrder: bool)
    requires Good(form, x, y, inOrder)
    ensures SideOk(form, x)
  {
  }

  const NOTHING_YET: Channel := Channel(0, [], [], [], [], [], [], [])

  lemma NothingKeeps(inOrder: bool)
    ensures Keeps(NOTHING_YET, 0, inOrder)
  {
  }

  lemma StartSides(form: Form, kind: Kind)
    ensures SideOk(form, StartSide(kind)) && Towards(StartSide(kind), StartSide(kind)) == NOTHING_YET
  {
  }

  lemma StartIsSafe(form: Form, kind: Kind, inOrder: bool)
    ensures Safe(Start(form, kind), inOrder)
  {
    hide Keeps, SideOk, Towards;
    NothingKeeps(inOrder);
    StartSides(form, kind);
  }

  lemma {:induction false} RunKeepsSafe(s: System, steps: seq<Step>, inOrder: bool)
    requires Safe(s, inOrder) && (inOrder ==> RunInOrder(s, steps))
    ensures Safe(Run(s, steps), inOrder)
    decreases |steps|
  {
    hide Safe, Next, StepInOrder;
    if steps != [] {
      StepKeepsSafe(s, steps[0], inOrder);
      RunKeepsSafe(Next(s, steps[0]), steps[1..], inOrder);
    }
  }

  // --- What the protocol promises

  /** Over any network: what one side hands up for the first time is, in order, exactly a
      beginning of what the other side queued. */
  lemma {:induction false} FirstDeliveriesAreInOrder(form: Form, kind: Kind, steps: seq<Step>)
    ensures var s := Run(Start(form, kind), steps);
            Firsts(s.right.delivered) <= s.left.queued && Firsts(s.left.delivered) <= s.right.queued
  {
    StartIsSafe(form, kind, false);
    RunKeepsSafe(Start(form, kind), steps, false);
    var s := Run(Start(form, kind), steps);
    hide Run, Start, NothingLost, AllBacked, Honest, AcksOk, GapFree, SideOk;
    FirstsArePrefix(Towards(s.left, s.right).queued, Towards(s.left, s.right).delivered);
    FirstsArePrefix(Towards(s.right, s.left).queued, Towards(s.right, s.left).delivered);
  }

  ghost function Receiver(s: System, atLeft: bool): Side {
    if atLeft then s.left else s.right
  }

  ghost function Sender(s: System, atLeft: bool): Side {
    if atLeft then s.right else s.left
  }

  /** Over any network: when a message is handed up, for the first or another time, everything
      queued before it has been handed up already. */
  lemma {:induction false} NoGapBeforeAnyDelivery(
      form: Form, kind: Kind, steps: seq<Step>, atLeft: bool, k: nat, i: nat)
    requires k < |Receiver(Run(Start(form, kind), steps), atLeft).delivered|
    requires i < |Sender(Run(Start(form, kind), steps), atLeft).queued|
    requires Sender(Run(Start(form, kind), steps), atLeft).queued[i].Counter()
           < Receiver(Run(Start(form, kind), steps), atLeft).delivered[k].Counter()
    ensures Sender(Run(Start(form, kind), steps), atLeft).queued[i]
         in Receiver(Run(Start(form, kind), steps), atLeft).delivered[..k]
  {
    StartIsSafe(form, kind, false);
    RunKeepsSafe(Start(form, kind), steps, false);
    var s := Run(Start(form, kind), steps);
    hide Run, Start, NothingLost, AllBacked, Honest, AcksOk, QueueOk, SideOk;
    var x, y := Sender(s, atLeft), Receiver(s, atLeft);
    assert GapFree(Towards(x, y).queued, Towards(x, y).delivered);
    assert AllBefore(x.queued, y.delivered[k], y.delivered[..k]);
  }

  /** Over a network that may lose or double packets but does not let a later one overtake:
      everything is handed up at most once, and always exactly a beginning of the queue. */
  lemma {:induction false} AtMostOnceInOrder(form: Form, kind: Kind, steps: seq<Step>)
    requires RunInOrder(Start(form, kind), steps)
    ensures var s := Run(Start(form, kind), steps);
            s.right.delivered <= s.left.queued && s.left.delivered <= s.right.queued
            && NoRepeats(s.right.delivered) && NoRepeats(s.left.delivered)
  {
    StartIsSafe(form, kind, true);
    RunKeepsSafe(Start(form, kind), steps, true);
    var s := Run(Start(form, kind), steps);
    hide Run, Start, Inv, Ordered, Remembered, NoRepeats, SideOk;
    DeliveredIsPrefix(Towards(s.left, s.right), s.right.next);
    DeliveredIsPrefix(Towards(s.right, s.left), s.left.next);
  }

  /** Over any network: a message that is no longer in the queue has been handed up, and the queue
      ascends strictly by counter. */
  lemma {:induction false} LeavesQueueOnlyDelivered(form: Form, kind: Kind, steps: seq<Step>)
    ensures var s := Run(Start(form, kind), steps);
            && (forall e | e in s.left.queued :: e in s.right.delivered || e in Entries(s.left.conn.pending))
            && (forall e | e in s.right.queued :: e in s.left.delivered || e in Entries(s.right.conn.pending))
            && AscendingEntries(Entries(s.left.conn.pending)) && AscendingEntries(Entries(s.right.conn.pending))
  {
    StartIsSafe(form, kind, false);
    RunKeepsSafe(Start(form, kind), steps, false);
    var s := Run(Start(form, kind), steps);
    hide Run, Start, AllBacked, Honest, AcksOk, GapFree, SideOk, AscendingEntries, Entries;
    assert NothingLost(Towards(s.left, s.right)) && NothingLost(Towards(s.right, s.left));
  }

  /** Over any network: every packet emitted is within the size limit and is parsed without error
      into exactly the items put into it. */
  lemma {:induction false} EmittedPacketsParse(form: Form, kind: Kind, steps: seq<Step>, byLeft: bool, k: nat)
    requires k < |Sender(Run(Start(form, kind), steps), !byLeft).sent|
    ensures var x := Sender(Run(Start(form, kind), steps), !byLeft);
            var packet := x.sent[k];
            && |PacketBytes(packet)| >= 5
            && MSG_KEY_SIZE + |PacketBytes(packet)| <= PacketLimit(x.conn.kind)
            && ParsePacket(form, PacketBytes(packet)) == Parse(PacketOnWire(packet), true)
  {
    StartIsSafe(form, kind, false);
    RunKeepsSafe(Start(form, kind), steps, false);
    RunKeepsForm(Start(form, kind), steps);
    var x := Sender(Run(Start(form, kind), steps), !byLeft);
    hide Run, Start, Keeps, ParsePacket, PacketBytes, WellFormed, QueueTravels;
    assert PacketOk(form, x.conn.kind, x.sent[k]);
    PacketRoundTrip(form, x.sent[k]);
    PacketIsLong(form, x.sent[k]);
  }

  lemma {:induction false} RunKeepsForm(s: System, steps: seq<Step>)
    ensures Run(s, steps).form == s.form
    decreases |steps|
  {
    if steps != [] {
      RunKeepsForm(Next(s, steps[0]), steps[1..]);
    }
  }
}
