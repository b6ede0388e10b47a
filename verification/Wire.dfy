// The plaintext of a packet: a main part, acknowledgements and resent messages,
// each behind its 32-bit seq (EncryptedConnection.cpp).
module Wire {
  import opened Bytes
  import Messages

  // --- Seqs: a 30-bit counter and two flag bits

  const SINGLE_MESSAGE_PACKET_SEQ_BIT: int := 0x8000_0000
  const MESSAGE_REQUIRES_ACK_SEQ_BIT: int := 0x4000_0000
  const MAX_ALLOWED_COUNTER: int := 0x3FFF_FFFF

  const ACK_ID: byte := 255
  const EMPTY_ID: byte := 254
  const CUSTOM_ID: byte := 127

  function CounterFromSeq(seqNum: uint32): nat {
    seqNum % MESSAGE_REQUIRES_ACK_SEQ_BIT
  }

  predicate IsSingle(seqNum: uint32) {
    SINGLE_MESSAGE_PACKET_SEQ_BIT <= seqNum
  }

  predicate RequiresAck(seqNum: uint32) {
    seqNum / MESSAGE_REQUIRES_ACK_SEQ_BIT % 2 == 1
  }

  function MakeSeq(counter: nat, requiresAck: bool, single: bool): (s: uint32)
    requires counter <= MAX_ALLOWED_COUNTER
    ensures CounterFromSeq(s) == counter
    ensures RequiresAck(s) == requiresAck
    ensures IsSingle(s) == single
  {
    counter
    + (if requiresAck then MESSAGE_REQUIRES_ACK_SEQ_BIT else 0)
    + (if single then SINGLE_MESSAGE_PACKET_SEQ_BIT else 0)
  }

  // --- What packets carry

  /** A connection is used either with uninterpreted data or with the typed messages. */
  datatype Form = RawForm | TypedForm

  datatype Payload = Raw(data: seq<byte>) | Typed(message: Messages.Message)

  datatype Item =
    | Empty(seqNum: uint32)
    | Ack(seqNum: uint32)
    | Msg(seqNum: uint32, payload: Payload)

  type Packet = seq<Item>

  function PayloadBytes(p: Payload, single: bool): (b: seq<byte>)
    ensures |b| >= 1
  {
    match p
    case Raw(data) => [CUSTOM_ID] + U32(|data| % 0x1_0000_0000) + data
    case Typed(message) => Messages.MessageBytes(message, single)
  }

  function ItemBytes(item: Item): (b: seq<byte>)
    ensures |b| >= 5
  {
    match item
    case Empty(s) => U32(s) + [EMPTY_ID]
    case Ack(s) => U32(s) + [ACK_ID]
    case Msg(s, p) => U32(s) + PayloadBytes(p, IsSingle(s))
  }

  function PacketBytes(items: Packet): (b: seq<byte>)
    ensures items != [] ==> |b| >= 5
  {
    if items == [] then [] else ItemBytes(items[0]) + PacketBytes(items[1..])
  }

  lemma {:induction false} PacketBytesConcat(a: Packet, b: Packet)
    ensures PacketBytes(a + b) == PacketBytes(a) + PacketBytes(b)
  {
    hide ItemBytes;
    if a == [] {
      assert a + b == b;
    } else {
      assert (a + b)[1..] == a[1..] + b;
      PacketBytesConcat(a[1..], b);
      var first, second, third := ItemBytes(a[0]), PacketBytes(a[1..]), PacketBytes(b);
      assert first + (second + third) == first + second + third;
    }
  }

  // --- Parsing

  const MAX_RAW_MESSAGE_SIZE: int := 1024 * 1024

  function ReadPayload(form: Form, b: seq<byte>, single: bool): (r: Parsed<Payload>)
    ensures r.Parsed? ==> |r.rest| < |b|
  {
    match form
    case RawForm =>
      var (id, b) :- ReadU8(b);
      if id != CUSTOM_ID then Malformed
      else
        var (length, b) :- ReadU32(b);
        if MAX_RAW_MESSAGE_SIZE < length then Malformed
        else
          var (data, b) :- ReadBytes(b, length);
          Parsed(Raw(data), b)
    case TypedForm =>
      var (message, b) :- Messages.ReadMessage(b, single);
      Parsed(Typed(message), b)
  }

  /** The items read before the packet ended or an error was met, and which of the two it was. */
  datatype Parse = Parse(items: seq<Item>, ok: bool)

  /** The parse loop, from the type byte of an item on. */
  function ParseFrom(form: Form, seqNum: uint32, body: seq<byte>, additional: bool): Parse
    requires body != []
    decreases |body|, 1
  {
    var single := IsSingle(seqNum);
    if single && additional then Parse([], false)
    else if body[0] == EMPTY_ID then
      if additional then Parse([], false) else ParseAfter(form, Empty(seqNum), body[1..])
    else if body[0] == ACK_ID then
      if !additional then Parse([], false) else ParseAfter(form, Ack(seqNum), body[1..])
    else
      match ReadPayload(form, body, single)
      case Malformed => Parse([], false)
      case Parsed(payload, rest) => ParseAfter(form, Msg(seqNum, payload), rest)
  }

  /** The end of a round of the parse loop: item was read, rest was not. */
  function ParseAfter(form: Form, item: Item, rest: seq<byte>): Parse
    decreases |rest|, 2
  {
    if rest == [] then Parse([item], true)
    else if IsSingle(item.seqNum) || |rest| < 5 then Parse([item], false)
    else
      var next := ParseFrom(form, ReadU32(rest).value, rest[4..], true);
      Parse([item] + next.items, next.ok)
  }

  function ParsePacket(form: Form, bytes: seq<byte>): Parse
    requires |bytes| >= 5
  {
    ParseFrom(form, ReadU32(bytes).value, bytes[4..], false)
  }

  // --- Packets as the send side builds them

  function PayloadOnWire(p: Payload): Payload {
    match p
    case Raw(_) => p
    case Typed(m) => Typed(Messages.OnWire(m))
  }

  function ItemOnWire(item: Item): Item {
    if item.Msg? then item.(payload := PayloadOnWire(item.payload)) else item
  }

  function PacketOnWire(items: Packet): (wire: Packet)
    ensures |wire| == |items|
    ensures forall i | 0 <= i < |items| :: wire[i] == ItemOnWire(items[i])
  {
    seq(|items|, i requires 0 <= i < |items| => ItemOnWire(items[i]))
  }

  ghost predicate Travels(form: Form, p: Payload, single: bool) {
    match form
    case RawForm => p.Raw? && |p.data| <= MAX_RAW_MESSAGE_SIZE
    case TypedForm =>
      && p.Typed?
      && Messages.Sendable(p.message, single)
      && |PayloadBytes(p, single)| <= 0xFFFF
  }

  /** An acknowledgement or a resent message. */
  ghost predicate AdditionalItem(form: Form, item: Item) {
    && !item.Empty?
    && !IsSingle(item.seqNum)
    && (item.Msg? ==> Travels(form, item.payload, false))
  }

  ghost predicate WellFormed(form: Form, items: Packet) {
    && items != []
    && !items[0].Ack?
    && (items[0].Msg? ==> Travels(form, items[0].payload, IsSingle(items[0].seqNum)))
    && (IsSingle(items[0].seqNum) ==> |items| == 1)
    && (forall i | 1 <= i < |items| :: AdditionalItem(form, items[i]))
  }

  lemma ReadsBackPayload(form: Form, p: Payload, single: bool, rest: seq<byte>)
    requires Travels(form, p, single)
    requires single ==> rest == []
    ensures ReadPayload(form, PayloadBytes(p, single) + rest, single) == Parsed(PayloadOnWire(p), rest)
  {
    hide Messages.ReadMessage, Messages.MessageBytes, ReadU32, U32, ReadBytes;
    var b := PayloadBytes(p, single) + rest;
    match p
    case Raw(data) =>
      var length := U32(|data| % 0x1_0000_0000);
      assert b == [CUSTOM_ID] + (length + (data + rest));
      assert b[1..] == length + (data + rest);
      ReadsBackU32(|data|, data + rest);
      ReadsBackBytes(data, rest);
    case Typed(m) =>
      if single {
        assert b == Messages.MessageBytes(m, true);
        MessageSizeCoversData(m);
        Messages.SingleMessageRoundTrip(m);
      } else {
        Messages.MessageRoundTrip(m, rest);
      }
  }

  lemma MessageSizeCoversData(m: Messages.Message)
    ensures m.AudioData? || m.VideoData? || m.UnstructuredData? ==> |m.data| < |Messages.MessageBytes(m, true)|
  {
  }

  /** Reading the seq in front of an item. */
  lemma ReadsSeqOf(item: Item, tail: seq<byte>)
    ensures ReadU32(ItemBytes(item) + tail) == Parsed(item.seqNum, ItemBytes(item)[4..] + tail)
  {
    var b := ItemBytes(item);
    assert b == U32(item.seqNum) + b[4..];
    assert b + tail == U32(item.seqNum) + (b[4..] + tail);
    ReadsBackU32(item.seqNum, b[4..] + tail);
  }

  lemma PayloadTypeByte(form: Form, p: Payload, single: bool)
    requires Travels(form, p, single)
    ensures PayloadBytes(p, single)[0] != EMPTY_ID && PayloadBytes(p, single)[0] != ACK_ID
  {
  }

  lemma BodyOf(item: Item)
    ensures item.Msg? ==> ItemBytes(item)[4..] == PayloadBytes(item.payload, IsSingle(item.seqNum))
    ensures item.Empty? ==> ItemBytes(item)[4..] == [EMPTY_ID]
    ensures item.Ack? ==> ItemBytes(item)[4..] == [ACK_ID]
  {
  }

  lemma {:induction false} ParsesOneItem(form: Form, item: Item, tail: seq<byte>, additional: bool)
    requires if additional then AdditionalItem(form, item) else WellFormed(form, [item])
    requires IsSingle(item.seqNum) ==> tail == []
    ensures ItemBytes(item)[4..] + tail != []
    ensures ParseFrom(form, item.seqNum, ItemBytes(item)[4..] + tail, additional)
         == ParseAfter(form, ItemOnWire(item), tail)
  {
    hide ItemBytes, PayloadBytes, ReadPayload, ParseAfter, Travels, PayloadOnWire;
    BodyOf(item);
    var body := ItemBytes(item)[4..] + tail;
    assert !item.Msg? ==> body[1..] == tail;
    if item.Msg? {
      var single := IsSingle(item.seqNum);
      assert !additional ==> [item][0] == item;
      ReadsBackPayload(form, item.payload, single, tail);
      PayloadTypeByte(form, item.payload, single);
    }
  }

  /** The parse loop goes on with the next item of the packet. */
  lemma {:induction false} ParsesOn(form: Form, item: Item, rest: Packet)
    requires rest != [] && !IsSingle(item.seqNum)
    ensures |PacketBytes(rest)| >= 5
    ensures var next := ParseFrom(form, rest[0].seqNum, PacketBytes(rest)[4..], true);
            ParseAfter(form, item, PacketBytes(rest)) == Parse([item] + next.items, next.ok)
  {
    hide ItemBytes, ParseFrom, ReadU32;
    ReadsSeqOf(rest[0], PacketBytes(rest[1..]));
    assert PacketBytes(rest)[4..] == ItemBytes(rest[0])[4..] + PacketBytes(rest[1..]);
  }

  /** The items from some point of a packet on: its first item must not be an acknowledgement, the others follow it. */
  ghost predicate WellFormedFrom(form: Form, items: Packet, additional: bool) {
    if additional then items != [] && forall i | 0 <= i < |items| :: AdditionalItem(form, items[i])
    else WellFormed(form, items)
  }

  lemma WellFormedHead(form: Form, items: Packet, additional: bool)
    requires WellFormedFrom(form, items, additional)
    ensures items != []
    ensures IsSingle(items[0].seqNum) ==> |items| == 1
    ensures if additional then AdditionalItem(form, items[0]) else WellFormed(form, [items[0]])
    ensures |items| > 1 ==> WellFormedFrom(form, items[1..], true)
  {
  }

  lemma DropFour(a: seq<byte>, b: seq<byte>)
    requires |a| >= 4
    ensures (a + b)[4..] == a[4..] + b
  {
  }

  lemma {:induction false} FirstBody(items: Packet)
    requires items != []
    ensures PacketBytes(items)[4..] == ItemBytes(items[0])[4..] + PacketBytes(items[1..])
    ensures |items| == 1 ==> PacketBytes(items[1..]) == []
  {
    hide ItemBytes;
    DropFour(ItemBytes(items[0]), PacketBytes(items[1..]));
  }

  lemma {:induction false} ParsesItems(form: Form, items: Packet, additional: bool)
    requires WellFormedFrom(form, items, additional)
    ensures items != []
    ensures |PacketBytes(items)| >= 5
    ensures ParseFrom(form, items[0].seqNum, PacketBytes(items)[4..], additional) == Parse(PacketOnWire(items), true)
  {
    hide ItemBytes, AdditionalItem, ParseFrom, ItemOnWire, ParseAfter, PacketBytes, WellFormedFrom, WellFormed;
    WellFormedHead(form, items, additional);
    FirstBody(items);
    var item, rest := items[0], items[1..];
    ParsesOneItem(form, item, PacketBytes(rest), additional);
    if rest == [] {
      EndsParse(form, item);
      assert PacketOnWire(items) == [ItemOnWire(item)];
    } else {
      ParsesItems(form, rest, true);
      SameSeqOnWire(item);
      ParsesOn(form, ItemOnWire(item), rest);
      assert PacketOnWire(items) == [ItemOnWire(item)] + PacketOnWire(rest);
    }
  }

  lemma {:induction false} EndsParse(form: Form, item: Item)
    ensures ParseAfter(form, ItemOnWire(item), []) == Parse([ItemOnWire(item)], true)
  {
  }

  lemma SameSeqOnWire(item: Item)
    ensures ItemOnWire(item).seqNum == item.seqNum
  {
  }

  /** Every packet of the shape the send side builds is parsed without error into exactly its
      items, in order, up to what is never sent. */
  lemma {:induction false} PacketRoundTrip(form: Form, items: Packet)
    requires WellFormed(form, items)
    ensures ReadU32(PacketBytes(items)).Parsed? && ReadU32(PacketBytes(items)).value == items[0].seqNum
    ensures ParsePacket(form, PacketBytes(items)) == Parse(PacketOnWire(items), true)
  {
    hide ItemBytes, ReadU32, ParseFrom;
    ReadsSeqOf(items[0], PacketBytes(items[1..]));
    ParsesItems(form, items, false);
  }
}
