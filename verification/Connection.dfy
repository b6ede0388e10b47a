// One endpoint of the reliable message layer as a value, and what each of its
// operations makes of it (EncryptedConnection.h, EncryptedConnection.cpp).
module Connection {
  import opened Bytes
  import opened Wire
  import opened ReplayWindow

  datatype Kind = Signaling | Transport

  const NOT_ACKED_MESSAGES_LIMIT: nat := 64 * 1024
  const MAX_INCOMING_PACKET_SIZE: nat := 128 * 1024
  const MAX_OUTER_PACKET_SIZE: nat := 1500 - 48
  const MAX_SIGNALING_PACKET_SIZE: nat := 16 * 1024
  const MSG_KEY_SIZE: nat := 16
  const ACK_SERIALIZED_SIZE: nat := 5
  const EMPTY_SERIALIZED_SIZE: nat := 5

  const CAUSE_NONE: nat := 0
  const CAUSE_ACKS: nat := 1
  const CAUSE_RESEND: nat := 2

  function PacketLimit(kind: Kind): nat {
    if kind.Signaling? then MAX_SIGNALING_PACKET_SIZE else MAX_OUTER_PACKET_SIZE
  }

  function MinDelayBeforeMessageResend(kind: Kind): nat {
    if kind.Signaling? then 3000 else 300
  }

  function MaxDelayBeforeMessageResend(kind: Kind): nat {
    if kind.Signaling? then 5000 else 1000
  }

  function MaxDelayBeforeAckResend(kind: Kind): nat {
    if kind.Signaling? then 5000 else 1000
  }

  type counter30 = x: int | 0 <= x <= MAX_ALLOWED_COUNTER

  /** A message that waits for its acknowledgement; lastSent 0 means: at the next chance. */
  datatype Pending = Pending(seqNum: uint32, payload: Payload, lastSent: int) {
    function Counter(): nat {
      CounterFromSeq(seqNum)
    }

    function AsItem(): Item {
      Msg(seqNum, payload)
    }
  }

  /** A call of _requestSendService. */
  datatype Request = Request(delayMs: nat, cause: nat)

  datatype Conn = Conn(
    kind: Kind,
    counter: counter30,
    incoming: seq<nat>,        // _largestIncomingCounters
    acksToSend: seq<uint32>,   // _acksToSendSeqs
    acksSent: seq<nat>,        // _acksSentCounters
    pending: seq<Pending>,     // _myNotYetAckedMessages
    resendTimer: bool,         // _resendTimerActive
    acksTimer: bool,           // _sendAcksTimerActive
    requests: seq<Request>)    // the calls of _requestSendService made so far

  function NewConn(kind: Kind): Conn {
    Conn(kind, 0, [], [], [], [], false, false, [])
  }

  // --- Sending

  /** The result of a prepareForSending call: an empty packet stands for no packet. */
  datatype Prepared = Prepared(conn: Conn, packet: Packet)

  predicate HaveAdditional(c: Conn) {
    c.pending != [] || c.acksToSend != []
  }

  predicate CounterLeft(c: Conn, requiresAck: bool) {
    && !(requiresAck && NOT_ACKED_MESSAGES_LIMIT <= |c.pending|)
    && c.counter != MAX_ALLOWED_COUNTER
  }

  predicate Fits(kind: Kind, size: nat, amount: nat) {
    amount < PacketLimit(kind) && MSG_KEY_SIZE + size + amount <= PacketLimit(kind)
  }

  /** How many acknowledgements go behind size bytes. */
  function CountAcks(kind: Kind, size: nat, acks: seq<uint32>): (k: nat)
    ensures k <= |acks|
    decreases |acks|
  {
    if acks == [] || !Fits(kind, size, ACK_SERIALIZED_SIZE) then 0
    else 1 + CountAcks(kind, size + ACK_SERIALIZED_SIZE, acks[1..])
  }

  predicate Due(kind: Kind, p: Pending, now: int) {
    (if p.lastSent != 0 then p.lastSent + MinDelayBeforeMessageResend(kind) else 0) <= now
  }

  /** How many pending messages go behind size bytes: a prefix, ended by the first that is not due or does not fit. */
  function CountResends(kind: Kind, size: nat, pending: seq<Pending>, now: int): (k: nat)
    ensures k <= |pending|
    decreases |pending|
  {
    if pending == [] || !Due(kind, pending[0], now) || !Fits(kind, size, |ItemBytes(pending[0].AsItem())|) then 0
    else 1 + CountResends(kind, size + |ItemBytes(pending[0].AsItem())|, pending[1..], now)
  }

  function AckItems(acks: seq<uint32>): (items: Packet)
    ensures |items| == |acks|
    ensures forall i | 0 <= i < |acks| :: items[i] == Ack(acks[i])
  {
    seq(|acks|, i requires 0 <= i < |acks| => Ack(acks[i]))
  }

  function ResendItems(pending: seq<Pending>): (items: Packet)
    ensures |items| == |pending|
    ensures forall i | 0 <= i < |pending| :: items[i] == pending[i].AsItem()
  {
    seq(|pending|, i requires 0 <= i < |pending| => pending[i].AsItem())
  }

  /** The first k messages were sent now. */
  function MarkSent(pending: seq<Pending>, k: nat, now: int): (marked: seq<Pending>)
    requires k <= |pending|
    ensures |marked| == |pending|
    ensures forall i | 0 <= i < |pending| ::
              marked[i] == if i < k then pending[i].(lastSent := now) else pending[i]
  {
    seq(|pending|, i requires 0 <= i < |pending| => if i < k then pending[i].(lastSent := now) else pending[i])
  }

  function AppendAcks(c: Conn, size: nat): Prepared {
    var k := CountAcks(c.kind, size, c.acksToSend);
    Prepared(c.(acksToSend := c.acksToSend[k..]), AckItems(c.acksToSend[..k]))
  }

  /** What goes behind a main part of size bytes. */
  function AppendAdditional(c: Conn, size: nat, now: int): Prepared {
    var acks := AppendAcks(c, size);
    if c.pending == [] then acks
    else
      var behind := size + ACK_SERIALIZED_SIZE * |acks.packet|;
      var k := CountResends(c.kind, behind, c.pending, now);
      var conn := acks.conn.(
        pending := MarkSent(c.pending, k, now),
        resendTimer := true,
        requests := if c.resendTimer then c.requests
                    else c.requests + [Request(MaxDelayBeforeMessageResend(c.kind), CAUSE_RESEND)]);
      Prepared(conn, acks.packet + ResendItems(c.pending[..k]))
  }

  function ClearTimer(c: Conn, cause: nat): Conn {
    if cause == CAUSE_ACKS then c.(acksTimer := false)
    else if cause == CAUSE_RESEND then c.(resendTimer := false)
    else c
  }

  /** prepareForSendingService */
  function PrepareService(c: Conn, cause: nat, now: int): Prepared {
    var c := ClearTimer(c, cause);
    if !HaveAdditional(c) || !CounterLeft(c, false) then Prepared(c, [])
    else
      var counter := c.counter + 1;
      var rest := AppendAdditional(c.(counter := counter), EMPTY_SERIALIZED_SIZE, now);
      Prepared(rest.conn, [Empty(MakeSeq(counter, false, false))] + rest.packet)
  }

  /** prepareForSending and prepareForSendingRawMessage */
  function PrepareMessage(c: Conn, payload: Payload, requiresAck: bool, now: int): Prepared {
    if !CounterLeft(c, requiresAck) then Prepared(c, [])
    else
      var single := !HaveAdditional(c) && !requiresAck;
      var counter := c.counter + 1;
      var main := Msg(MakeSeq(counter, requiresAck, single), payload);
      PrepareMain(c.(counter := counter), main, requiresAck, now)
  }

  /** The empty time stamp makes every queued message due at once. */
  function MakeDue(pending: seq<Pending>): seq<Pending> {
    MarkSent(pending, |pending|, 0)
  }

  /** prepareForSendingMessageInternal */
  function PrepareMain(c: Conn, main: Item, requiresAck: bool, now: int): Prepared
    requires main.Msg?
  {
    var size := |ItemBytes(main)|;
    if !Fits(c.kind, size, 0) then Prepared(c, [])
    else if !requiresAck then
      var rest := AppendAdditional(c, size, now);
      Prepared(rest.conn, [main] + rest.packet)
    else
      var queued := Pending(main.seqNum, main.payload, now);
      if c.pending == [] then
        var rest := AppendAdditional(c, size, now);
        Prepared(rest.conn.(pending := rest.conn.pending + [queued]), [main] + rest.packet)
      else
        PrepareService(c.(pending := MakeDue(c.pending + [queued])), CAUSE_NONE, now)
  }

  // --- Receiving

  /** A message as it came in. */
  datatype Entry = Entry(seqNum: uint32, payload: Payload) {
    function Counter(): nat {
      CounterFromSeq(seqNum)
    }
  }

  /** The state of the parse loop. */
  datatype Cursor = Cursor(
    conn: Conn,
    packetCounter: nat,
    additional: bool,       // not the first item of the packet
    firstRequired: bool,    // no message requiring an acknowledgement was met yet
    newRequired: bool,      // one was, and it was new
    received: seq<Entry>)

  /** Whether registerSentAck finds the counter. */
  predicate AlreadyAcked(list: seq<nat>, counter: nat) {
    var p := LowerBound(list, counter);
    p < |list| && list[p] == counter
  }

  /** The list that registerSentAck leaves. */
  function RegisterSentAck(list: seq<nat>, counter: nat, firstInPacket: bool): seq<nat> {
    var p := LowerBound(list, counter);
    if firstInPacket then
      (if AlreadyAcked(list, counter) then [] else [counter]) + list[p..]
    else if AlreadyAcked(list, counter) then list
    else list[..p] + [counter] + list[p..]
  }

  /** sendAckPostponed */
  function PostponeAck(acks: seq<uint32>, seqNum: uint32): seq<uint32> {
    if seqNum in acks then acks else acks + [seqNum]
  }

  /** ackMyMessage: the first message with that seq leaves the queue. */
  function AckMessage(pending: seq<Pending>, seqNum: uint32): seq<Pending> {
    if pending == [] then []
    else if pending[0].seqNum == seqNum then pending[1..]
    else [pending[0]] + AckMessage(pending[1..], seqNum)
  }

  function ApplyMessage(c: Cursor, seqNum: uint32, payload: Payload): Cursor {
    var counter := CounterFromSeq(seqNum);
    var entry := Entry(seqNum, payload);
    if RequiresAck(seqNum) then
      var already := AlreadyAcked(c.conn.acksSent, counter);
      c.(
        conn := c.conn.(
          acksSent := RegisterSentAck(c.conn.acksSent, counter, c.firstRequired),
          acksToSend := PostponeAck(c.conn.acksToSend, seqNum)),
        firstRequired := false,
        newRequired := c.newRequired || !already,
        received := if already then c.received else c.received + [entry])
    else if c.additional then
      if c.packetCounter < counter || !Accepts(c.conn.incoming, counter) then c
      else
        c.(conn := c.conn.(incoming := Register(c.conn.incoming, counter)), received := c.received + [entry])
    else
      c.(received := c.received + [entry])
  }

  function Apply(c: Cursor, item: Item): Cursor {
    var next :=
      match item
      case Empty(_) => c
      case Ack(seqNum) => c.(conn := c.conn.(pending := AckMessage(c.conn.pending, seqNum)))
      case Msg(seqNum, payload) => ApplyMessage(c, seqNum, payload);
    next.(additional := true)
  }

  function ApplyAll(c: Cursor, items: seq<Item>): Cursor
    decreases |items|
  {
    if items == [] then c else ApplyAll(Apply(c, items[0]), items[1..])
  }

  /** After the loop: a new message is acknowledged at once, a repeated one when the timer fires. */
  function AskForAcks(c: Conn, newRequired: bool): Conn {
    if c.acksToSend == [] then c
    else if newRequired then c.(requests := c.requests + [Request(0, CAUSE_NONE)])
    else if c.acksTimer then c
    else c.(acksTimer := true,
            requests := c.requests + [Request(MaxDelayBeforeAckResend(c.kind), CAUSE_ACKS)])
  }

  /** What came in: the endpoint afterwards and the messages handed up, none when there is no packet. */
  datatype Arrival = Arrival(conn: Conn, received: seq<Entry>)

  /** processPacket and processRawPacket: after an error nothing is handed up, though what was
      done for the items before it stays done. */
  function ProcessPacket(c: Conn, form: Form, bytes: seq<byte>): Arrival
    requires |bytes| >= 5
  {
    var parse := ParsePacket(form, bytes);
    var start := Cursor(c, CounterFromSeq(ReadU32(bytes).value), false, true, false, []);
    var end := ApplyAll(start, parse.items);
    if parse.ok then Arrival(AskForAcks(end.conn, end.newRequired), end.received)
    else Arrival(end.conn, [])
  }

  /** handleIncomingPacket and handleIncomingRawPacket, from the decrypted bytes on. */
  function HandleIncoming(c: Conn, form: Form, bytes: seq<byte>): Arrival {
    if |bytes| < 5 || MAX_INCOMING_PACKET_SIZE < MSG_KEY_SIZE + |bytes| then Arrival(c, [])
    else
      var counter := CounterFromSeq(ReadU32(bytes).value);
      if !Accepts(c.incoming, counter) then Arrival(c, [])
      else ProcessPacket(c.(incoming := Register(c.incoming, counter)), form, bytes)
  }
}
