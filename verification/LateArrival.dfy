// A run in which a reordered packet makes the receiver hand up a message twice.
module LateArrival {
  import opened Prelude
  import opened Bytes
  import opened Wire
  import opened ReplayWindow
  import opened Connection
  import opened Delivery
  import opened Sending
  import opened Link

  const M1: Payload := Raw([])
  const M2: Payload := Raw([7])
  const FIRST: uint32 := 0x4000_0001
  const THIRD: uint32 := 0x4000_0003

  /** m1 is sent and sent again; the second packet lingers while m1 is acknowledged and m2 sent and taken. */
  const STEPS: seq<Step> := [
    SendMessage(true, M1, true, 1),
    SendService(true, CAUSE_RESEND, 10000),
    Arrive(false, 0),
    SendService(false, CAUSE_NONE, 1),
    Arrive(true, 0),
    SendMessage(true, M2, true, 10001),
    Arrive(false, 2),
    Arrive(false, 1)]

  const FIRST_PACKET: Packet := [Msg(FIRST, M1)]
  const RESENT_PACKET: Packet := [Empty(2), Msg(FIRST, M1)]
  const ACK_PACKET: Packet := [Empty(1), Ack(FIRST)]
  const THIRD_PACKET: Packet := [Msg(THIRD, M2)]

  lemma Sizes()
    ensures |ItemBytes(Msg(FIRST, M1))| == 9 && |ItemBytes(Msg(THIRD, M2))| == 10
    ensures |ItemBytes(Empty(2))| == 5 && |ItemBytes(Empty(1))| == 5 && |ItemBytes(Ack(FIRST))| == 5
    ensures |PacketBytes(FIRST_PACKET)| == 9 && |PacketBytes(THIRD_PACKET)| == 10
    ensures |PacketBytes(RESENT_PACKET)| == 14 && |PacketBytes(ACK_PACKET)| == 10
  {
    assert FIRST_PACKET[1..] == [] && THIRD_PACKET[1..] == [];
    assert RESENT_PACKET[1..] == FIRST_PACKET;
    assert ACK_PACKET[1..] == [Ack(FIRST)] && [Ack(FIRST)][1..] == [];
  }

  lemma Shapes()
    ensures WellFormed(RawForm, FIRST_PACKET) && WellFormed(RawForm, RESENT_PACKET)
    ensures WellFormed(RawForm, ACK_PACKET) && WellFormed(RawForm, THIRD_PACKET)
    ensures PacketOnWire(FIRST_PACKET) == FIRST_PACKET && PacketOnWire(RESENT_PACKET) == RESENT_PACKET
    ensures PacketOnWire(ACK_PACKET) == ACK_PACKET && PacketOnWire(THIRD_PACKET) == THIRD_PACKET
  {
  }

  lemma Contents()
    ensures Carried(FIRST_PACKET) == [Entry(FIRST, M1)] && Carried(RESENT_PACKET) == [Entry(FIRST, M1)]
    ensures Carried(THIRD_PACKET) == [Entry(THIRD, M2)] && Carried(ACK_PACKET) == []
    ensures AcksIn(ACK_PACKET) == [FIRST]
    ensures AcksIn(FIRST_PACKET) == [] && AcksIn(RESENT_PACKET) == [] && AcksIn(THIRD_PACKET) == []
  {
    assert RESENT_PACKET[1..] == FIRST_PACKET && FIRST_PACKET[1..] == [] && THIRD_PACKET[1..] == [];
    assert ACK_PACKET[1..] == [Ack(FIRST)] && [Ack(FIRST)][1..] == [];
    assert Carried([Ack(FIRST)]) == [] && AcksIn([Ack(FIRST)]) == [FIRST];
  }

  /** Sending a small message with nothing else to send. */
  lemma SendsFirst(x: Side, seqNum: uint32, payload: Payload, now: int)
    requires x.conn.pending == [] && x.conn.acksToSend == [] && x.conn.counter < 100
    requires seqNum == MakeSeq(x.conn.counter + 1, true, false) && |ItemBytes(Msg(seqNum, payload))| <= 100
    ensures ActMessage(x, payload, true, now)
         == x.(conn := x.conn.(counter := x.conn.counter + 1, pending := [Pending(seqNum, payload, now)]),
               sent := x.sent + [[Msg(seqNum, payload)]],
               queued := x.queued + [EntryOf(Pending(seqNum, payload, now))])
  {
    hide ItemBytes, EntryOf;
    var r := PrepareMessage(x.conn, payload, true, now);
    assert [Msg(seqNum, payload)] + AckItems([]) == [Msg(seqNum, payload)];
    assert x.conn.acksToSend[0..] == [];
    assert r.conn.pending[0..] == [Pending(seqNum, payload, now)];
    assert Entries([Pending(seqNum, payload, now)]) == [EntryOf(Pending(seqNum, payload, now))];
  }

  lemma Resends(x: Side, p: Pending)
    requires x.conn.kind == Signaling && x.conn.pending == [p] && x.conn.acksToSend == []
    requires x.conn.counter == 1 && p.lastSent == 1 && |ItemBytes(p.AsItem())| <= 100
    ensures var y := ActService(x, CAUSE_RESEND, 10000);
            && y.sent == x.sent + [[Empty(2), p.AsItem()]]
            && y.conn.counter == 2 && y.conn.acksToSend == [] && y.conn.incoming == x.conn.incoming
            && y.conn.pending == [p.(lastSent := 10000)]
            && y.conn.kind == Signaling && y.delivered == x.delivered
  {
    hide ItemBytes;
    var c := ClearTimer(x.conn, CAUSE_RESEND).(counter := 2);
    assert CountResends(Signaling, 5, [p], 10000) == 1 by {
      assert [p][1..] == [];
    }
    assert [p][..1] == [p] && ResendItems([p]) == [p.AsItem()];
    assert AckItems([]) + ResendItems([p]) == [p.AsItem()];
    assert MarkSent([p], 1, 10000) == [p.(lastSent := 10000)];
    assert AppendAdditional(c, 5, 10000).packet == [p.AsItem()];
    assert [Empty(2)] + [p.AsItem()] == [Empty(2), p.AsItem()];
  }

  lemma Acknowledges(x: Side)
    requires x.conn.kind == Signaling && x.conn.pending == [] && x.conn.acksToSend == [FIRST] && x.conn.counter == 0
    ensures var y := ActService(x, CAUSE_NONE, 1);
            && y.sent == x.sent + [ACK_PACKET]
            && y.conn.acksToSend == [] && y.conn.incoming == x.conn.incoming && y.conn.acksSent == x.conn.acksSent
            && y.conn.pending == [] && y.conn.kind == Signaling && y.delivered == x.delivered
  {
    assert CountAcks(Signaling, 5, [FIRST]) == 1 by {
      assert [FIRST][1..] == [];
    }
    assert [FIRST][..1] == [FIRST] && AckItems([FIRST]) == [Ack(FIRST)];
    assert [Empty(1)] + [Ack(FIRST)] == ACK_PACKET;
  }

  /** Messages requiring an acknowledgement leave the replay window alone. */
  lemma {:induction false} WindowUntouched(c: Cursor, items: seq<Item>)
    requires forall i | 0 <= i < |items| && items[i].Msg? :: RequiresAck(items[i].seqNum)
    ensures ApplyAll(c, items).conn.incoming == c.conn.incoming
    decreases |items|
  {
    hide RegisterSentAck, AlreadyAcked, PostponeAck, AckMessage;
    if items != [] {
      WindowUntouched(Apply(c, items[0]), items[1..]);
    }
  }

  lemma {:induction false} WindowAfter(c: Conn, packet: Packet)
    requires WellFormed(RawForm, packet) && |PacketBytes(packet)| <= 100
    requires Accepts(c.incoming, CounterFromSeq(packet[0].seqNum))
    requires forall i | 0 <= i < |packet| && packet[i].Msg? :: RequiresAck(packet[i].seqNum)
    ensures HandleIncoming(c, RawForm, PacketBytes(packet)).conn.incoming
         == Register(c.incoming, CounterFromSeq(packet[0].seqNum))
  {
    hide Accepts, Register, PacketBytes, ReadU32, ParsePacket, ApplyAll, WellFormed;
    PacketRoundTrip(RawForm, packet);
    PacketIsLong(RawForm, packet);
    var counter := CounterFromSeq(packet[0].seqNum);
    var start := Cursor(c.(incoming := Register(c.incoming, counter)), counter, false, true, false, []);
    WindowUntouched(start, PacketOnWire(packet));
  }

  /** A packet whose counter is new is taken. */
  lemma {:induction false} Takes(x: Side, packet: Packet, index: nat)
    requires WellFormed(RawForm, packet) && |PacketBytes(packet)| <= 100
    requires Accepts(x.conn.incoming, CounterFromSeq(packet[0].seqNum))
    requires forall i | 0 <= i < |packet| && packet[i].Msg? :: RequiresAck(packet[i].seqNum)
    ensures var y := ActArrive(x, RawForm, packet, index);
            var l := AbsorbAll(Ledger(x.conn.acksSent, x.conn.acksToSend, true, x.delivered),
                               Carried(PacketOnWire(packet)));
            && y.delivered == l.log && y.conn.acksSent == l.acksSent && y.conn.acksToSend == l.acksToSend
            && y.conn.pending == AckAll(x.conn.pending, AcksIn(PacketOnWire(packet)))
            && y.conn.counter == x.conn.counter && y.conn.kind == x.conn.kind && y.sent == x.sent
            && y.conn.incoming == Register(x.conn.incoming, CounterFromSeq(packet[0].seqNum))
  {
    hide WellFormed, PacketBytes, AbsorbAll, Required, Carried, AcksIn, AckAll, HandleIncoming, Accepts, Register;
    ArrivalOfPacket(RawForm, x.conn, packet, x.delivered);
    WindowAfter(x.conn, packet);
  }

  // --- The run, step by step

  /** The system after the first steps. */
  ghost function After(n: nat): System
    requires n <= |STEPS|
  {
    if n == 0 then Start(RawForm, Signaling) else Next(After(n - 1), STEPS[n - 1])
  }

  lemma {:induction false} AfterIsRun(s: System, n: nat)
    requires n <= |STEPS| && s == After(n)
    ensures Run(s, STEPS[n..]) == After(|STEPS|)
    decreases |STEPS| - n
  {
    hide Next;
    if n < |STEPS| {
      assert STEPS[n..][0] == STEPS[n] && STEPS[n..][1..] == STEPS[n + 1..];
      AfterIsRun(After(n + 1), n + 1);
    } else {
      assert STEPS[n..] == [];
    }
  }

  lemma FirstHalf()
    ensures var s := After(4);
            && s.form == RawForm
            && s.left.sent == [FIRST_PACKET, RESENT_PACKET] && s.left.conn.counter == 2
            && s.left.conn.pending == [Pending(FIRST, M1, 10000)] && s.left.conn.acksToSend == []
            && s.left.conn.incoming == [] && s.left.conn.kind == Signaling
            && s.right.sent == [ACK_PACKET] && s.right.delivered == [Entry(FIRST, M1)]
            && s.right.conn.acksSent == [1] && s.right.conn.acksToSend == [] && s.right.conn.incoming == [1]
            && s.right.conn.pending == [] && s.right.conn.kind == Signaling
  {
    Sizes();
    Shapes();
    Contents();
    hide ItemBytes, PacketBytes, PacketOnWire, Carried, AcksIn, ActMessage, ActService, ActArrive, WellFormed;
    var s0, s1, s2, s3 := After(0), After(1), After(2), After(3);
    SendsFirst(s0.left, FIRST, M1, 1);
    assert s1 == s0.(left := s1.left) && s1.left.sent == [FIRST_PACKET];
    Resends(s1.left, Pending(FIRST, M1, 1));
    assert s2 == s1.(left := s2.left);
    assert s2.left.sent == [FIRST_PACKET, RESENT_PACKET];
    Takes(s2.right, FIRST_PACKET, 0);
    assert s3 == s2.(right := s3.right);
    AbsorbsFirst();
    Acknowledges(s3.right);
  }

  lemma AbsorbsFirst()
    ensures AbsorbAll(Ledger([], [], true, []), [Entry(FIRST, M1)])
         == Ledger([1], [FIRST], false, [Entry(FIRST, M1)])
    ensures Register([], 1) == [1] && Accepts([], 1)
  {
    assert [Entry(FIRST, M1)][1..] == [];
  }

  lemma {:induction false} AbsorbsThird(l: Ledger)
    requires l.acksSent == [1] && l.acksToSend == [] && l.first && l.log == [Entry(FIRST, M1)]
    ensures var l' := AbsorbAll(l, [Entry(THIRD, M2)]);
            && l'.acksSent == [3] && l'.acksToSend == [THIRD]
            && l'.log == [Entry(FIRST, M1), Entry(THIRD, M2)]
  {
    assert [Entry(THIRD, M2)][1..] == [];
    assert LowerBound(l.acksSent, 3) == 1;
  }

  lemma {:induction false} AbsorbsAgain(l: Ledger)
    requires l.acksSent == [3] && l.first && l.log == [Entry(FIRST, M1), Entry(THIRD, M2)]
    ensures AbsorbAll(l, [Entry(FIRST, M1)]).log == [Entry(FIRST, M1), Entry(THIRD, M2), Entry(FIRST, M1)]
  {
    assert [Entry(FIRST, M1)][1..] == [];
    assert LowerBound(l.acksSent, 1) == 0;
  }

  lemma WindowsAccept(list: seq<nat>)
    ensures list == [1] ==> Accepts(list, 3) && Register(list, 3) == [1, 3]
    ensures list == [1, 3] ==> Accepts(list, 2)
  {
    if list == [1] {
      assert LowerBound(list, 3) == 1 && CountStale(list, 3) == 0;
    } else if list == [1, 3] {
      assert list[1..] == [3];
      assert LowerBound(list, 2) == 1;
    }
  }

  lemma SecondHalf()
    ensures var s := After(6);
            && s.form == RawForm && s.left.sent == [FIRST_PACKET, RESENT_PACKET, THIRD_PACKET]
            && s.right == After(4).right
  {
    FirstHalf();
    Sizes();
    Shapes();
    Contents();
    hide ItemBytes, PacketBytes, PacketOnWire, Carried, AcksIn, ActMessage, ActService, ActArrive, WellFormed;
    var s4, s5, s6 := After(4), After(5), After(6);
    AbsorbsFirst();
    Takes(s4.left, ACK_PACKET, 0);
    assert AckAll([Pending(FIRST, M1, 10000)], [FIRST]) == [];
    assert s5 == s4.(left := s5.left);
    SendsFirst(s5.left, THIRD, M2, 10001);
    assert s6 == s5.(left := s6.left);
  }

  lemma ArrivesRight(n: nat, index: nat)
    requires n < |STEPS| && STEPS[n] == Arrive(false, index) && index < |After(n).left.sent|
    ensures After(n + 1) == After(n).(right := ActArrive(After(n).right, After(n).form, After(n).left.sent[index], index))
  {
    hide ActArrive;
  }

  lemma TakesThird(x: Side)
    requires x.delivered == [Entry(FIRST, M1)] && x.conn.acksSent == [1]
    requires x.conn.acksToSend == [] && x.conn.incoming == [1]
    ensures var y := ActArrive(x, RawForm, THIRD_PACKET, 2);
            && y.delivered == [Entry(FIRST, M1), Entry(THIRD, M2)]
            && y.conn.acksSent == [3] && y.conn.acksToSend == [THIRD] && y.conn.incoming == [1, 3]
  {
    Sizes();
    Shapes();
    Contents();
    AbsorbsThird(Ledger(x.conn.acksSent, x.conn.acksToSend, true, x.delivered));
    WindowsAccept(x.conn.incoming);
    hide PacketBytes, PacketOnWire, Carried, AcksIn, ActArrive, WellFormed, AbsorbAll, Accepts, Register;
    hide ItemBytes, AckAll;
    Takes(x, THIRD_PACKET, 2);
    assert CounterFromSeq(THIRD_PACKET[0].seqNum) == 3;
  }

  lemma TakesFirstAgain(x: Side)
    requires x.delivered == [Entry(FIRST, M1), Entry(THIRD, M2)] && x.conn.acksSent == [3]
    requires x.conn.acksToSend == [THIRD] && x.conn.incoming == [1, 3]
    ensures ActArrive(x, RawForm, RESENT_PACKET, 1).delivered
         == [Entry(FIRST, M1), Entry(THIRD, M2), Entry(FIRST, M1)]
  {
    Sizes();
    Shapes();
    Contents();
    AbsorbsAgain(Ledger(x.conn.acksSent, x.conn.acksToSend, true, x.delivered));
    WindowsAccept(x.conn.incoming);
    hide PacketBytes, PacketOnWire, Carried, AcksIn, ActArrive, WellFormed, AbsorbAll, Accepts, Register;
    Takes(x, RESENT_PACKET, 1);
  }

  lemma LastTwo()
    ensures After(8).right.delivered == [Entry(FIRST, M1), Entry(THIRD, M2), Entry(FIRST, M1)]
  {
    FirstHalf();
    SecondHalf();
    hide After, ActArrive;
    ArrivesRight(6, 2);
    TakesThird(After(6).right);
    ArrivesRight(7, 1);
    TakesFirstAgain(After(7).right);
  }

  /** At most once fails over a reordering network: m1, m2, and m1 again. */
  lemma ReorderingRepeats()
    ensures Run(Start(RawForm, Signaling), STEPS).right.delivered
         == [Entry(FIRST, M1), Entry(THIRD, M2), Entry(FIRST, M1)]
    ensures !NoRepeats(Run(Start(RawForm, Signaling), STEPS).right.delivered)
  {
    LastTwo();
    hide Run, After;
    AfterIsRun(After(0), 0);
    assert STEPS[0..] == STEPS;
    assert After(0) == Start(RawForm, Signaling) by { StartIsAfter(); }
    var log := Run(Start(RawForm, Signaling), STEPS).right.delivered;
    assert log[0] == log[2];
  }

  lemma StartIsAfter()
    ensures After(0) == Start(RawForm, Signaling)
  {
  }
}
