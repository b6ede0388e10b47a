// The endpoint of the reliable message layer as the object it is: fields, a growing
// buffer for the packet being built, a reader for the one being parsed
// (EncryptedConnection.cpp). Each operation is proved to do what Connection says.
module EncryptedConnections {
  import opened Prelude
  import opened Bytes
  import opened Wire
  import opened ReplayWindow
  import opened Connection
  import opened MessageCodec
  import Messages

  /** A queued message as the bytes it was first sent as. */
  datatype MessageForResend = MessageForResend(data: seq<byte>, lastSent: int)

  /** A packet before encryption. */
  datatype OutgoingPacket = OutgoingPacket(plaintext: seq<byte>, counter: nat)

  ghost predicate Emits(packet: Option<OutgoingPacket>, items: Packet) {
    match packet
    case None => items == []
    case Some(p) =>
      items != [] && p.plaintext == PacketBytes(items) && p.counter == CounterFromSeq(items[0].seqNum)
  }

  /** The bytes kept for resending are those of the message. */
  ghost predicate Keeps(kept: MessageForResend, p: Pending) {
    kept.data == ItemBytes(p.AsItem()) && kept.lastSent == p.lastSent
  }

  ghost predicate KeepsAll(kept: seq<MessageForResend>, pending: seq<Pending>) {
    && |kept| == |pending|
    && forall i | 0 <= i < |kept| :: Keeps(kept[i], pending[i])
  }

  lemma ItemBytesStart(item: Item)
    ensures ReadU32(ItemBytes(item)) == Parsed(item.seqNum, ItemBytes(item)[4..])
  {
    ReadsSeqOf(item, []);
    assert ItemBytes(item) + [] == ItemBytes(item);
    assert ItemBytes(item)[4..] + [] == ItemBytes(item)[4..];
  }

  lemma {:induction false} PacketBytesAppend(items: Packet, item: Item)
    ensures PacketBytes(items + [item]) == PacketBytes(items) + ItemBytes(item)
  {
    hide ItemBytes;
    PacketBytesConcat(items, [item]);
    assert PacketBytes([item]) == ItemBytes(item) + PacketBytes([]);
  }

  lemma AckItemsGrow(acks: seq<uint32>, i: nat)
    requires i < |acks|
    ensures AckItems(acks[..i + 1]) == AckItems(acks[..i]) + [Ack(acks[i])]
  {
  }

  lemma {:induction false} CountAcksStep(kind: Kind, size: nat, acks: seq<uint32>, i: nat)
    requires i < |acks| && Fits(kind, size, ACK_SERIALIZED_SIZE)
    ensures CountAcks(kind, size, acks[i..]) == 1 + CountAcks(kind, size + ACK_SERIALIZED_SIZE, acks[i + 1..])
  {
    assert acks[i..][1..] == acks[i + 1..];
  }

  lemma ResendItemsGrow(pending: seq<Pending>, i: nat)
    requires i < |pending|
    ensures ResendItems(pending[..i + 1]) == ResendItems(pending[..i]) + [pending[i].AsItem()]
  {
  }

  lemma {:induction false} CountResendsStep(kind: Kind, size: nat, pending: seq<Pending>, i: nat, now: int)
    requires i < |pending|
    ensures var length := |ItemBytes(pending[i].AsItem())|;
            CountResends(kind, size, pending[i..], now)
            == if Due(kind, pending[i], now) && Fits(kind, size, length)
               then 1 + CountResends(kind, size + length, pending[i + 1..], now) else 0
  {
    hide ItemBytes, Fits, Due;
    assert pending[i..][1..] == pending[i + 1..];
  }

  lemma {:induction false} AckMessageStep(pending: seq<Pending>, i: nat, seqNum: uint32)
    requires i < |pending| && pending[i].seqNum != seqNum
    ensures pending[..i] + AckMessage(pending[i..], seqNum) == pending[..i + 1] + AckMessage(pending[i + 1..], seqNum)
  {
    assert pending[i..][1..] == pending[i + 1..];
    assert pending[..i + 1] == pending[..i] + [pending[i]];
  }

  lemma {:induction false} AckMessageFound(pending: seq<Pending>, i: nat, seqNum: uint32)
    requires i < |pending| && pending[i].seqNum == seqNum
    ensures AckMessage(pending[i..], seqNum) == pending[i + 1..]
  {
    assert pending[i..][1..] == pending[i + 1..];
  }

  /** The parse loop and the effects of the items advance together. */
  lemma {:induction false} ApplyAllCons(c: Cursor, item: Item, items: seq<Item>)
    ensures ApplyAll(c, [item] + items) == ApplyAll(Apply(c, item), items)
  {
    assert ([item] + items)[1..] == items;
  }

  /** The rounds of the parse loop that are left bring the cursor to where the whole packet does. */
  ghost predicate SameOutcome(start: Cursor, all: Parse, now: Cursor, left: Parse) {
    ApplyAll(start, all.items) == ApplyAll(now, left.items) && all.ok == left.ok
  }

  class EncryptedConnection {
    const kind: Kind
    var counter: counter30
    var largestIncomingCounters: seq<nat>
    var acksToSendSeqs: seq<uint32>
    var acksSentCounters: seq<nat>
    var myNotYetAckedMessages: seq<MessageForResend>
    var resendTimerActive: bool
    var sendAcksTimerActive: bool
    var requested: seq<Request>  // the calls of the send-service callback
    ghost var pending: seq<Pending>

    ghost predicate Valid()
      reads this
    {
      KeepsAll(myNotYetAckedMessages, pending)
    }

    ghost function Model(): Conn
      reads this
    {
      Conn(kind, counter, largestIncomingCounters, acksToSendSeqs, acksSentCounters, pending,
           resendTimerActive, sendAcksTimerActive, requested)
    }

    constructor (kind: Kind)
      ensures Valid() && Model() == NewConn(kind)
    {
      this.kind := kind;
      counter := 0;
      largestIncomingCounters, acksToSendSeqs, acksSentCounters := [], [], [];
      myNotYetAckedMessages, pending := [], [];
      resendTimerActive, sendAcksTimerActive := false, false;
      requested := [];
    }

    // --- Sending

    method HaveAdditionalMessages() returns (have: bool)
      requires Valid()
      ensures have == HaveAdditional(Model())
    {
      have := myNotYetAckedMessages != [] || acksToSendSeqs != [];
    }

    method ComputeNextSeq(messageRequiresAck: bool, singleMessagePacket: bool) returns (r: Option<uint32>)
      requires Valid()
      modifies this`counter
      ensures r.None? <==> !old(CounterLeft(Model(), messageRequiresAck))
      ensures r.None? ==> Model() == old(Model())
      ensures r.Some? ==>
                && Model() == old(Model()).(counter := old(counter) + 1)
                && r.value == MakeSeq(old(counter) + 1, messageRequiresAck, singleMessagePacket)
    {
      if messageRequiresAck && |myNotYetAckedMessages| >= NOT_ACKED_MESSAGES_LIMIT {
        return None;
      } else if counter == MAX_ALLOWED_COUNTER {
        return None;
      }
      counter := counter + 1;
      r := Some(MakeSeq(counter, messageRequiresAck, singleMessagePacket));
    }

    method AppendAcksToSend(buffer: ByteBufferWriter)
      requires Valid()
      modifies this`acksToSendSeqs, buffer
      ensures Model() == old(AppendAcks(Model(), |buffer.data|)).conn
      ensures buffer.data == old(buffer.data) + PacketBytes(old(AppendAcks(Model(), |buffer.data|)).packet)
    {
      hide ItemBytes, Fits;
      var i := 0;
      ghost var size := |buffer.data|;
      assert acksToSendSeqs[0..] == acksToSendSeqs;
      while i < |acksToSendSeqs| && Fits(kind, |buffer.data|, ACK_SERIALIZED_SIZE)
        invariant 0 <= i <= |acksToSendSeqs|
        invariant acksToSendSeqs == old(acksToSendSeqs)
        invariant buffer.data == old(buffer.data) + PacketBytes(AckItems(acksToSendSeqs[..i]))
        invariant CountAcks(kind, size, acksToSendSeqs)
               == i + CountAcks(kind, |buffer.data|, acksToSendSeqs[i..])
      {
        var seqNum := acksToSendSeqs[i];
        ghost var sent := AckItems(acksToSendSeqs[..i]);
        CountAcksStep(kind, |buffer.data|, acksToSendSeqs, i);
        AckItemsGrow(acksToSendSeqs, i);
        PacketBytesAppend(sent, Ack(seqNum));
        AckBytes(seqNum);
        buffer.WriteUInt32(seqNum);
        buffer.WriteUInt8(ACK_ID);
        assert buffer.data == old(buffer.data) + (PacketBytes(sent) + (U32(seqNum) + [ACK_ID]));
        i := i + 1;
      }
      assert CountAcks(kind, |buffer.data|, acksToSendSeqs[i..]) == 0;
      acksToSendSeqs := acksToSendSeqs[i..];
    }

    method AppendAdditionalMessages(buffer: ByteBufferWriter, now: int)
      requires Valid()
      modifies this, buffer
      ensures Valid()
      ensures Model() == old(AppendAdditional(Model(), |buffer.data|, now)).conn
      ensures buffer.data == old(buffer.data) + PacketBytes(old(AppendAdditional(Model(), |buffer.data|, now)).packet)
    {
      hide ItemBytes, Fits, Due, PacketBytes, CountAcks, CountResends;
      ghost var acks := AppendAcks(Model(), |buffer.data|).packet;
      AcksLength(acks);
      AppendAcksToSend(buffer);
      if myNotYetAckedMessages == [] {
        return;
      }
      ghost var behind := |buffer.data|;
      AppendResends(buffer, now);
      ghost var k := CountResends(kind, behind, old(pending), now);
      PacketBytesConcat(acks, ResendItems(old(pending)[..k]));
      assert buffer.data == old(buffer.data) + (PacketBytes(acks) + PacketBytes(ResendItems(old(pending)[..k])));
      if !resendTimerActive {
        resendTimerActive := true;
        requested := requested + [Request(MaxDelayBeforeMessageResend(kind), CAUSE_RESEND)];
      }
    }

    /** The loop of appendAdditionalMessages over the queued messages. */
    method AppendResends(buffer: ByteBufferWriter, now: int)
      requires Valid()
      modifies this`myNotYetAckedMessages, this`pending, buffer
      ensures Valid()
      ensures var k := CountResends(kind, |old(buffer.data)|, old(pending), now);
              && pending == MarkSent(old(pending), k, now)
              && buffer.data == old(buffer.data) + PacketBytes(ResendItems(old(pending)[..k]))
    {
      hide ItemBytes, Fits, CountResends, PacketBytes;
      ghost var queue, size := pending, |buffer.data|;
      NoResendsYet(queue, now);
      var i := 0;
      while i < |myNotYetAckedMessages|
        invariant 0 <= i <= |myNotYetAckedMessages| == |queue|
        invariant Valid()
        invariant pending == MarkSent(queue, i, now)
        invariant buffer.data == old(buffer.data) + PacketBytes(ResendItems(queue[..i]))
        invariant CountResends(kind, size, queue, now) == i + CountResends(kind, |buffer.data|, queue[i..], now)
      {
        var resending := myNotYetAckedMessages[i];
        assert Keeps(resending, queue[i]);
        CountResendsStep(kind, |buffer.data|, queue, i, now);
        var when := if resending.lastSent != 0 then resending.lastSent + MinDelayBeforeMessageResend(kind) else 0;
        if when > now {
          break;
        } else if Fits(kind, |buffer.data|, |resending.data|) {
          ResendItemsGrow(queue, i);
          PacketBytesAppend(ResendItems(queue[..i]), queue[i].AsItem());
          buffer.WriteBytes(resending.data);
          myNotYetAckedMessages := myNotYetAckedMessages[i := resending.(lastSent := now)];
          pending := MarkSent(queue, i + 1, now);
          i := i + 1;
        } else {
          break;
        }
      }
      NoMoreResends(kind, |buffer.data|, queue[i..], now);
    }

    method PrepareForSendingService(cause: nat, now: int) returns (packet: Option<OutgoingPacket>)
      requires Valid()
      modifies this
      ensures Valid()
      ensures Model() == old(PrepareService(Model(), cause, now)).conn
      ensures Emits(packet, old(PrepareService(Model(), cause, now)).packet)
    {
      hide AppendAdditional, ItemBytes, PacketBytes;
      if cause == CAUSE_ACKS {
        sendAcksTimerActive := false;
      } else if cause == CAUSE_RESEND {
        resendTimerActive := false;
      }
      var have := HaveAdditionalMessages();
      if !have {
        return None;
      }
      var seqNum := ComputeNextSeq(false, false);
      if seqNum.None? {
        return None;
      }
      var serialized := new ByteBufferWriter();
      serialized.WriteUInt32(seqNum.value);
      serialized.WriteUInt8(EMPTY_ID);
      EmptyBytes(seqNum.value);
      assert serialized.data == ItemBytes(Empty(seqNum.value));
      ghost var rest := AppendAdditional(Model(), EMPTY_SERIALIZED_SIZE, now).packet;
      AppendAdditionalMessages(serialized, now);
      packet := EncryptPrepared(serialized.data, Empty(seqNum.value), rest);
    }

    /** encryptPrepared, but for the encryption. */
    method EncryptPrepared(buffer: seq<byte>, ghost main: Item, ghost rest: Packet) returns (packet: Option<OutgoingPacket>)
      requires buffer == ItemBytes(main) + PacketBytes(rest)
      ensures Emits(packet, [main] + rest)
    {
      hide ItemBytes, PacketBytes, ReadU32;
      FirstItemBytes(main, rest);
      ReadsSeqOf(main, PacketBytes(rest));
      packet := Some(OutgoingPacket(buffer, CounterFromSeq(ReadU32(buffer).value)));
    }

    method PrepareForSendingMessageInternal(
        serialized: seq<byte>, seqNum: uint32, messageRequiresAck: bool, now: int, ghost payload: Payload)
      returns (packet: Option<OutgoingPacket>)
      requires Valid()
      requires serialized == ItemBytes(Msg(seqNum, payload))
      modifies this
      ensures Valid()
      ensures Model() == old(PrepareMain(Model(), Msg(seqNum, payload), messageRequiresAck, now)).conn
      ensures Emits(packet, old(PrepareMain(Model(), Msg(seqNum, payload), messageRequiresAck, now)).packet)
    {
      hide AppendAdditional, PrepareService, ItemBytes, PacketBytes;
      ghost var main := Msg(seqNum, payload);
      if !Fits(kind, |serialized|, 0) {
        return None;
      }
      var buffer := new ByteBufferWriter();
      buffer.WriteBytes(serialized);
      assert buffer.data == serialized;
      ghost var rest := AppendAdditional(Model(), |serialized|, now).packet;
      if !messageRequiresAck {
        AppendAdditionalMessages(buffer, now);
        packet := EncryptPrepared(buffer.data, main, rest);
        return;
      }
      var sendEnqueued := myNotYetAckedMessages != [];
      if !sendEnqueued {
        AppendAdditionalMessages(buffer, now);
      }
      ghost var queued := Pending(seqNum, payload, now);
      assert Keeps(MessageForResend(serialized, now), queued);
      myNotYetAckedMessages := myNotYetAckedMessages + [MessageForResend(serialized, now)];
      pending := pending + [queued];
      if !sendEnqueued {
        packet := EncryptPrepared(buffer.data, main, rest);
        return;
      }
      MakeAllDue();
      packet := PrepareForSendingService(CAUSE_NONE, now);
    }

    method MakeAllDue()
      requires Valid()
      modifies this`myNotYetAckedMessages, this`pending
      ensures Valid() && pending == MakeDue(old(pending))
    {
      ghost var queue := pending;
      var i := 0;
      while i < |myNotYetAckedMessages|
        invariant 0 <= i <= |myNotYetAckedMessages| == |queue|
        invariant Valid() && pending == MarkSent(queue, i, 0)
      {
        assert Keeps(myNotYetAckedMessages[i], queue[i]);
        myNotYetAckedMessages := myNotYetAckedMessages[i := myNotYetAckedMessages[i].(lastSent := 0)];
        pending := MarkSent(queue, i + 1, 0);
        i := i + 1;
      }
    }

    /** prepareForSending and prepareForSendingRawMessage */
    method PrepareForSending(payload: Payload, messageRequiresAck: bool, now: int) returns (packet: Option<OutgoingPacket>)
      requires Valid()
      requires payload.Typed? ==> messageRequiresAck == Messages.RequiresAck(payload.message)
      modifies this
      ensures Valid()
      ensures Model() == old(PrepareMessage(Model(), payload, messageRequiresAck, now)).conn
      ensures Emits(packet, old(PrepareMessage(Model(), payload, messageRequiresAck, now)).packet)
    {
      hide PrepareMain, ItemBytes;
      var have := HaveAdditionalMessages();
      var singleMessagePacket := !have && !messageRequiresAck;
      var maybeSeq := ComputeNextSeq(messageRequiresAck, singleMessagePacket);
      if maybeSeq.None? {
        return None;
      }
      var serialized;
      match payload {
        case Typed(message) => serialized := SerializeMessageWithSeq(message, maybeSeq.value);
        case Raw(data) => serialized := SerializeRawMessageWithSeq(data, maybeSeq.value);
      }
      packet := PrepareForSendingMessageInternal(serialized, maybeSeq.value, messageRequiresAck, now, payload);
    }

    // --- Receiving

    method RegisterIncomingCounter(incomingCounter: nat) returns (accepted: bool)
      modifies this`largestIncomingCounters
      ensures accepted == Accepts(old(largestIncomingCounters), incomingCounter)
      ensures largestIncomingCounters == Register(old(largestIncomingCounters), incomingCounter)
    {
      hide LowerBound, CountStale;
      var list := largestIncomingCounters;
      var position := LowerBound(list, incomingCounter);
      var largest := if list == [] then 0 else list[|list| - 1];
      if position < |list| && list[position] == incomingCounter {
        return false;
      } else if incomingCounter + KEEP_INCOMING_COUNTERS <= largest {
        return false;
      }
      var eraseCount := CountStale(list, incomingCounter);
      var positionIndex := position - eraseCount;
      var kept := list[eraseCount..];
      assert kept[..positionIndex] == list[eraseCount..position] && kept[positionIndex..] == list[position..];
      largestIncomingCounters := kept[..positionIndex] + [incomingCounter] + kept[positionIndex..];
      accepted := true;
    }

    method RegisterSentAck(counter: nat, firstInPacket: bool) returns (isNew: bool)
      modifies this`acksSentCounters
      ensures isNew == !AlreadyAcked(old(acksSentCounters), counter)
      ensures acksSentCounters == Connection.RegisterSentAck(old(acksSentCounters), counter, firstInPacket)
    {
      var list := acksSentCounters;
      var position := LowerBound(list, counter);
      var already := position != |list| && list[position] == counter;
      if firstInPacket {
        acksSentCounters := list[position..];
        if !already {
          acksSentCounters := [counter] + acksSentCounters;
        }
      } else if !already {
        acksSentCounters := list[..position] + [counter] + list[position..];
      }
      isNew := !already;
    }

    method SendAckPostponed(incomingSeq: uint32)
      modifies this`acksToSendSeqs
      ensures acksToSendSeqs == PostponeAck(old(acksToSendSeqs), incomingSeq)
    {
      if incomingSeq !in acksToSendSeqs {
        acksToSendSeqs := acksToSendSeqs + [incomingSeq];
      }
    }

    method AckMyMessage(seqNum: uint32)
      requires Valid()
      modifies this`myNotYetAckedMessages, this`pending
      ensures Valid()
      ensures pending == AckMessage(old(pending), seqNum)
    {
      hide ItemBytes, ReadU32;
      var i := 0;
      assert pending[0..] == pending;
      while i < |myNotYetAckedMessages|
        invariant 0 <= i <= |myNotYetAckedMessages|
        invariant Valid() && pending == old(pending)
        invariant AckMessage(old(pending), seqNum) == pending[..i] + AckMessage(pending[i..], seqNum)
      {
        assert Keeps(myNotYetAckedMessages[i], pending[i]);
        ItemBytesStart(pending[i].AsItem());
        if ReadU32(myNotYetAckedMessages[i].data).value == seqNum {
          AckMessageFound(pending, i, seqNum);
          myNotYetAckedMessages := myNotYetAckedMessages[..i] + myNotYetAckedMessages[i + 1..];
          pending := pending[..i] + pending[i + 1..];
          return;
        }
        AckMessageStep(pending, i, seqNum);
        i := i + 1;
      }
      assert pending[..i] + [] == pending;
    }

    method DeserializePayload(reader: ByteBufferReader, form: Form, single: bool) returns (r: Option<Payload>)
      modifies reader
      ensures Yields(ReadPayload(form, old(reader.rest), single), r, reader.rest)
    {
      hide Messages.ReadMessage;
      match form {
        case RawForm =>
          var id := reader.ReadUInt8();
          if id.None? || id.value != CUSTOM_ID {
            return None;
          }
          var data := DeserializeRawMessage(reader);
          r := if data.None? then None else Some(Raw(data.value));
        case TypedForm =>
          var message := DeserializeMessage(reader, single);
          r := if message.None? then None else Some(Typed(message.value));
      }
    }

    ghost function CursorNow(
        packetCounter: nat, additional: bool, firstRequired: bool, newRequired: bool, received: seq<Entry>): Cursor
      reads this
    {
      Cursor(Model(), packetCounter, additional, firstRequired, newRequired, received)
    }

    /** Whether a message that was read is handed up, and what the object remembers of it. */
    method TakeMessage(
        seqNum: uint32, packetCounter: nat, additional: bool, firstRequired: bool,
        ghost payload: Payload, ghost newRequired: bool, ghost received: seq<Entry>)
      returns (skip: bool)
      requires Valid()
      modifies this`acksSentCounters, this`acksToSendSeqs, this`largestIncomingCounters
      ensures Valid()
      ensures ApplyMessage(old(CursorNow(packetCounter, additional, firstRequired, newRequired, received)), seqNum, payload)
           == CursorNow(packetCounter, additional, firstRequired && !RequiresAck(seqNum),
                        newRequired || (RequiresAck(seqNum) && !skip),
                        if skip then received else received + [Entry(seqNum, payload)])
    {
      hide Register, Accepts, AlreadyAcked, Connection.RegisterSentAck;
      var counter := CounterFromSeq(seqNum);
      if RequiresAck(seqNum) {
        var isNew := RegisterSentAck(counter, firstRequired);
        skip := !isNew;
        SendAckPostponed(seqNum);
      } else {
        skip := false;
        if additional {
          if counter > packetCounter {
            skip := true;
          } else {
            RejectedChangesNothing(largestIncomingCounters, counter);
            var accepted := RegisterIncomingCounter(counter);
            skip := !accepted;
          }
        }
      }
    }

    /** A round of the parse loop up to the check of what is left; not ok after an error. */
    method ProcessItem(
        reader: ByteBufferReader, form: Form, currentSeq: uint32,
        packetCounter: nat, additional: bool, firstRequired: bool, newRequired: bool, received: seq<Entry>)
      returns (ok: bool, firstRequired': bool, newRequired': bool, received': seq<Entry>, ghost item: Item)
      requires Valid() && reader.rest != []
      modifies this`acksSentCounters, this`acksToSendSeqs, this`largestIncomingCounters
      modifies this`myNotYetAckedMessages, this`pending, reader
      ensures Valid()
      ensures !ok ==>
                && ParseFrom(form, currentSeq, old(reader.rest), additional) == Parse([], false)
                && Model() == old(Model())
      ensures ok ==>
                && item.seqNum == currentSeq && |reader.rest| < |old(reader.rest)|
                && ParseFrom(form, currentSeq, old(reader.rest), additional) == ParseAfter(form, item, reader.rest)
                && Apply(old(CursorNow(packetCounter, additional, firstRequired, newRequired, received)), item)
                == CursorNow(packetCounter, true, firstRequired', newRequired', received')
    {
      hide ParseFrom, ParseAfter, Apply, ApplyMessage, ReadPayload, Connection.AckMessage, KeepsAll, IsSingle, RequiresAck, CounterFromSeq;
      ghost var now := CursorNow(packetCounter, additional, firstRequired, newRequired, received);
      ghost var body := reader.rest;
      firstRequired', newRequired', received' := firstRequired, newRequired, received;
      var id := reader.rest[0];
      var single := IsSingle(currentSeq);
      item := Empty(currentSeq);
      ok := false;
      if single && additional {
        RoundFails(form, currentSeq, body, additional);
        return;
      }
      if id == EMPTY_ID {
        if additional {
          RoundFails(form, currentSeq, body, additional);
          return;
        }
        reader.Consume(1);
        AppliesEmpty(now, currentSeq);
      } else if id == ACK_ID {
        if !additional {
          RoundFails(form, currentSeq, body, additional);
          return;
        }
        item := Ack(currentSeq);
        AckMyMessage(currentSeq);
        reader.Consume(1);
        AppliesAck(now, currentSeq);
      } else {
        var payload := DeserializePayload(reader, form, single);
        if payload.None? {
          RoundFails(form, currentSeq, body, additional);
          return;
        }
        item := Msg(currentSeq, payload.value);
        var skip := TakeMessage(currentSeq, packetCounter, additional, firstRequired, payload.value, newRequired, received);
        AppliesMessage(now, currentSeq, payload.value);
        if RequiresAck(currentSeq) {
          firstRequired' := false;
          newRequired' := newRequired || !skip;
        }
        if !skip {
          received' := received + [Entry(currentSeq, payload.value)];
        }
      }
      RoundSucceeds(form, currentSeq, body, additional, item, reader.rest);
      ok := true;
    }

    /** processPacket and processRawPacket: the empty result stands for no packet. */
    method ProcessPacket(fullBuffer: seq<byte>, packetSeq: uint32, form: Form) returns (result: seq<Entry>)
      requires Valid() && |fullBuffer| >= 5 && packetSeq == ReadU32(fullBuffer).value
      modifies this
      ensures Valid()
      ensures Arrival(Model(), result) == Connection.ProcessPacket(old(Model()), form, fullBuffer)
    {
      hide ParseFrom, ParseAfter, ApplyAll, Apply, ReadU32;
      var additional, firstRequired, newRequired := false, true, false;
      var packetCounter := CounterFromSeq(packetSeq);
      var currentSeq := packetSeq;
      var reader := new ByteBufferReader(fullBuffer[4..]);
      result := [];
      ghost var start := CursorNow(packetCounter, false, true, false, []);
      ghost var all := ParsePacket(form, fullBuffer);
      while true
        invariant Valid() && reader.rest != [] && fresh(reader)
        invariant SameOutcome(start, all, CursorNow(packetCounter, additional, firstRequired, newRequired, result),
                              ParseFrom(form, currentSeq, reader.rest, additional))
        decreases |reader.rest|
      {
        ghost var now := CursorNow(packetCounter, additional, firstRequired, newRequired, result);
        ghost var body := reader.rest;
        var ok, first', new', received', item :=
          ProcessItem(reader, form, currentSeq, packetCounter, additional, firstRequired, newRequired, result);
        if !ok {
          ParseStops(form, start, all, now, currentSeq, body, additional);
          return [];
        }
        firstRequired, newRequired, result := first', new', received';
        ParseGoesOn(form, start, all, now, currentSeq, body, additional, item, reader.rest);
        if reader.rest == [] {
          break;
        } else if IsSingle(currentSeq) {
          return [];
        } else if |reader.rest| < 5 {
          return [];
        }
        SeqIsThere(reader.rest);
        var nextSeq := reader.ReadUInt32();
        currentSeq := nextSeq.value;
        additional := true;
      }
      RequestAcks(newRequired);
    }

    /** handleIncomingPacket and handleIncomingRawPacket, from the decrypted bytes on. */
    method HandleIncomingPacket(decrypted: seq<byte>, form: Form) returns (result: seq<Entry>)
      requires Valid()
      modifies this
      ensures Valid()
      ensures Arrival(Model(), result) == HandleIncoming(old(Model()), form, decrypted)
    {
      hide Connection.ProcessPacket, ReadU32, Accepts, Register;
      var size := MSG_KEY_SIZE + |decrypted|;
      if size < 21 || size > MAX_INCOMING_PACKET_SIZE {
        return [];
      }
      SeqIsThere(decrypted);
      var incomingSeq := ReadU32(decrypted).value;
      var accepted := RegisterIncomingCounter(CounterFromSeq(incomingSeq));
      if !accepted {
        RejectedChangesNothing(old(largestIncomingCounters), CounterFromSeq(incomingSeq));
        return [];
      }
      result := ProcessPacket(decrypted, incomingSeq, form);
    }

    /** After the parse loop. */
    method RequestAcks(newRequiringAckReceived: bool)
      modifies this`requested, this`sendAcksTimerActive
      ensures Model() == AskForAcks(old(Model()), newRequiringAckReceived)
    {
      if acksToSendSeqs != [] {
        if newRequiringAckReceived {
          requested := requested + [Request(0, CAUSE_NONE)];
        } else if !sendAcksTimerActive {
          sendAcksTimerActive := true;
          requested := requested + [Request(MaxDelayBeforeAckResend(kind), CAUSE_ACKS)];
        }
      }
    }
  }

  /** The parse loop ends here with an error: nothing more is applied. */
  lemma {:induction false} ParseStops(
      form: Form, start: Cursor, all: Parse, now: Cursor, seqNum: uint32, body: seq<byte>, additional: bool)
    requires body != []
    requires SameOutcome(start, all, now, ParseFrom(form, seqNum, body, additional))
    requires ParseFrom(form, seqNum, body, additional) == Parse([], false)
    ensures ApplyAll(start, all.items) == now && !all.ok
  {
    hide ParseFrom, Apply;
  }

  /** Which items make the parse loop give up. */
  lemma {:induction false} RoundFails(form: Form, seqNum: uint32, body: seq<byte>, additional: bool)
    requires body != []
    requires (IsSingle(seqNum) && additional)
          || (body[0] == EMPTY_ID && additional)
          || (body[0] == ACK_ID && !additional)
          || (body[0] != EMPTY_ID && body[0] != ACK_ID && ReadPayload(form, body, IsSingle(seqNum)).Malformed?)
    ensures ParseFrom(form, seqNum, body, additional) == Parse([], false)
  {
    hide ReadPayload, ParseAfter;
  }

  lemma {:induction false} RoundSucceeds(
      form: Form, seqNum: uint32, body: seq<byte>, additional: bool, item: Item, rest: seq<byte>)
    requires body != [] && !(IsSingle(seqNum) && additional) && item.seqNum == seqNum
    requires if body[0] == EMPTY_ID then !additional && item.Empty? && rest == body[1..]
             else if body[0] == ACK_ID then additional && item.Ack? && rest == body[1..]
             else item.Msg? && ReadPayload(form, body, IsSingle(seqNum)) == Parsed(item.payload, rest)
    ensures ParseFrom(form, seqNum, body, additional) == ParseAfter(form, item, rest)
  {
    hide ReadPayload, ParseAfter;
  }

  /** One round of the parse loop reads item and leaves rest. */
  lemma {:induction false} ParseGoesOn(
      form: Form, start: Cursor, all: Parse, now: Cursor, seqNum: uint32, body: seq<byte>, additional: bool,
      item: Item, rest: seq<byte>)
    requires body != [] && item.seqNum == seqNum
    requires SameOutcome(start, all, now, ParseFrom(form, seqNum, body, additional))
    requires ParseFrom(form, seqNum, body, additional) == ParseAfter(form, item, rest)
    ensures rest == [] || IsSingle(seqNum) || |rest| < 5 ==>
              ApplyAll(start, all.items) == Apply(now, item) && all.ok == (rest == [])
    ensures rest != [] && !IsSingle(seqNum) && |rest| >= 5 ==>
              && ReadU32(rest).Parsed?
              && SameOutcome(start, all, Apply(now, item), ParseFrom(form, ReadU32(rest).value, rest[4..], true))
  {
    hide Apply, ParseFrom, ReadU32;
    if |rest| >= 4 {
      SeqIsThere(rest);
    }
    if rest == [] || IsSingle(seqNum) || |rest| < 5 {
      ApplyAllCons(now, item, []);
      assert [item] + [] == [item];
    } else {
      ApplyAllCons(now, item, ParseFrom(form, ReadU32(rest).value, rest[4..], true).items);
    }
  }

  lemma SeqIsThere(b: seq<byte>)
    requires |b| >= 4
    ensures ReadU32(b).Parsed? && ReadU32(b).rest == b[4..]
  {
  }

  lemma AppliesEmpty(c: Cursor, seqNum: uint32)
    ensures Apply(c, Empty(seqNum)) == c.(additional := true)
  {
  }

  lemma {:induction false} AppliesAck(c: Cursor, seqNum: uint32)
    ensures Apply(c, Ack(seqNum))
         == c.(conn := c.conn.(pending := AckMessage(c.conn.pending, seqNum)), additional := true)
  {
  }

  lemma AppliesMessage(c: Cursor, seqNum: uint32, payload: Payload)
    ensures Apply(c, Msg(seqNum, payload)) == ApplyMessage(c, seqNum, payload).(additional := true)
  {
  }

  lemma AckBytes(seqNum: uint32)
    ensures ItemBytes(Ack(seqNum)) == U32(seqNum) + [ACK_ID]
  {
  }

  lemma EmptyBytes(seqNum: uint32)
    ensures ItemBytes(Empty(seqNum)) == U32(seqNum) + [EMPTY_ID]
    ensures |ItemBytes(Empty(seqNum))| == EMPTY_SERIALIZED_SIZE
  {
  }

  lemma {:induction false} FirstItemBytes(main: Item, rest: Packet)
    ensures PacketBytes([main] + rest) == ItemBytes(main) + PacketBytes(rest)
  {
    assert ([main] + rest)[1..] == rest;
  }

  lemma {:induction false} AcksLength(acks: Packet)
    requires forall i | 0 <= i < |acks| :: acks[i].Ack?
    ensures |PacketBytes(acks)| == ACK_SERIALIZED_SIZE * |acks|
  {
    if acks != [] {
      AcksLength(acks[1..]);
    }
  }

  lemma NoResendsYet(queue: seq<Pending>, now: int)
    ensures queue[0..] == queue && MarkSent(queue, 0, now) == queue
    ensures PacketBytes(ResendItems(queue[..0])) == []
  {
  }

  lemma {:induction false} NoMoreResends(kind: Kind, size: nat, queue: seq<Pending>, now: int)
    ensures queue == [] ==> CountResends(kind, size, queue, now) == 0
  {
  }

  lemma RejectedChangesNothing(list: seq<nat>, counter: nat)
    ensures !Accepts(list, counter) ==> Register(list, counter) == list
  {
  }
}
