// What a packet that comes in hands up, message by message, said of its items and of the counters known
// before: the main part, and behind it whatever is new.
module HandingUp {
  import opened Bytes
  import opened Wire
  import opened ReplayWindow
  import opened Connection
  import opened Delivery
  import opened Sending
  import opened Link
  import Endpoint
  import Oversize
  import Progress
  import Recovery
  import Requests

  // --- Which messages are new

  predicate IsOptional(item: Item) {
    item.Msg? && !RequiresAck(item.seqNum)
  }

  /** The counter is known as acknowledged, those known before being acked, once these messages have come: they
      make those below the first of them forgotten. */
  ghost predicate Remembered(entries: seq<Entry>, acked: seq<nat>, counter: int) {
    HasCounter(entries, counter) || (counter in acked && (entries != [] ==> entries[0].Counter() <= counter))
  }

  /** Item number i of a packet is handed up. A message requiring an acknowledgement: when its counter is not
      remembered. Another one: as the main part always, and behind it when its counter is not above that of the
      packet, was not accepted before and is in the window. */
  ghost predicate IsNew(items: seq<Item>, i: nat, acked: seq<nat>, history: seq<nat>, counter: nat)
    requires i < |items|
  {
    var c := CounterFromSeq(items[i].seqNum);
    && items[i].Msg?
    && if RequiresAck(items[i].seqNum) then !Remembered(Carried(items[..i]), acked, c)
       else
         || i == 0
         || (&& c <= counter && Fresh(history, c)
             && forall j | 1 <= j < i && IsOptional(items[j]) :: CounterFromSeq(items[j].seqNum) != c)
  }

  /** The first n items, as far as they are handed up, in order. */
  ghost function HandedUp(items: seq<Item>, n: nat, acked: seq<nat>, history: seq<nat>, counter: nat): seq<Entry>
    requires n <= |items|
  {
    if n == 0 then []
    else
      HandedUp(items, n - 1, acked, history, counter)
      + (if IsNew(items, n - 1, acked, history, counter) then [Entry(items[n - 1].seqNum, items[n - 1].payload)] else [])
  }

  /** The counters that the first n items add to those accepted. */
  ghost function Accepted(items: seq<Item>, n: nat, acked: seq<nat>, history: seq<nat>, counter: nat): seq<nat>
    requires n <= |items|
  {
    if n == 0 then []
    else
      Accepted(items, n - 1, acked, history, counter)
      + (if n > 1 && IsOptional(items[n - 1]) && IsNew(items, n - 1, acked, history, counter)
         then [CounterFromSeq(items[n - 1].seqNum)] else [])
  }

  /** One of the first n items requires an acknowledgement and is new. */
  ghost predicate NewRequired(items: seq<Item>, n: nat, acked: seq<nat>, history: seq<nat>, counter: nat)
    requires n <= |items|
  {
    exists i :: 0 <= i < n && IsRequired(items[i]) && IsNew(items, i, acked, history, counter)
  }

  // --- The parse loop keeps to that

  lemma {:induction false} LargestAppend(history: seq<nat>, more: seq<nat>, bound: nat)
    requires bound in history && forall c | c in more :: c <= bound
    ensures Largest(history + more) == Largest(history)
    decreases |more|
  {
    if more == [] {
      assert history + more == history;
    } else {
      var n := |more| - 1;
      assert (history + more)[..|history| + n] == history + more[..n];
      assert forall c | c in more[..n] :: c in more;
      LargestAppend(history, more[..n], bound);
    }
  }

  /** What was accepted within the packet. */
  lemma {:induction false} AcceptedContents(
      items: seq<Item>, n: nat, acked: seq<nat>, history: seq<nat>, counter: nat, c: nat)
    requires n <= |items|
    ensures c in Accepted(items, n, acked, history, counter) ==> c <= counter
    ensures c <= counter && Fresh(history, c) ==>
              (c in Accepted(items, n, acked, history, counter)
               <==> exists j :: 1 <= j < n && IsOptional(items[j]) && CounterFromSeq(items[j].seqNum) == c)
  {
    hide Fresh, Remembered;
    if n > 0 {
      AcceptedContents(items, n - 1, acked, history, counter, c);
    }
  }

  /** Behind the main part: exactly what IsNew says is fresh by now. */
  lemma {:induction false} FreshWithin(items: seq<Item>, n: nat, acked: seq<nat>, history: seq<nat>, counter: nat)
    requires 0 < n < |items| && IsOptional(items[n]) && counter in history
    requires CounterFromSeq(items[n].seqNum) <= counter
    ensures Fresh(history + Accepted(items, n, acked, history, counter), CounterFromSeq(items[n].seqNum))
       <==> IsNew(items, n, acked, history, counter)
  {
    var c, more := CounterFromSeq(items[n].seqNum), Accepted(items, n, acked, history, counter);
    forall k | k in more
      ensures k <= counter
    {
      AcceptedContents(items, n, acked, history, counter, k);
    }
    LargestAppend(history, more, counter);
    AcceptedContents(items, n, acked, history, counter, c);
    hide Largest, Accepted, Remembered;
    assert c in history + more <==> c in history || c in more;
  }

  /** What is remembered, item by item. */
  ghost predicate AckedAre(list: seq<nat>, entries: seq<Entry>, acked: seq<nat>) {
    Ascending(list) && forall k: int :: k in list <==> Remembered(entries, acked, k)
  }

  /** The cursor after n items. */
  ghost predicate Follows(
      c: Cursor, items: seq<Item>, n: nat, acked: seq<nat>, history: seq<nat>, counter: nat)
    requires n <= |items|
  {
    && c.packetCounter == counter && c.additional == (n > 0)
    && AckedAre(c.conn.acksSent, Carried(items[..n]), acked)
    && c.firstRequired == (Carried(items[..n]) == [])
    && c.newRequired == NewRequired(items, n, acked, history, counter)
    && Represents(c.conn.incoming, history + Accepted(items, n, acked, history, counter))
    && c.received == HandedUp(items, n, acked, history, counter)
  }

  lemma CarriedPush(items: seq<Item>, n: nat)
    requires n < |items|
    ensures Carried(items[..n + 1]) == Carried(items[..n]) + CarriedBy(items[n])
  {
    hide CarriedBy;
    assert items[..n + 1] == items[..n] + [items[n]];
    CarriedConcat(items[..n], [items[n]]);
    assert [items[n]][1..] == [];
    assert Carried([items[n]]) == CarriedBy(items[n]) + Carried([]);
  }

  lemma RememberedPush(entries: seq<Entry>, e: Entry, acked: seq<nat>, k: int)
    ensures Remembered(entries + [e], acked, k)
       <==> k == e.Counter() || (Remembered(entries, acked, k) && (entries == [] ==> e.Counter() < k))
  {
    var more := entries + [e];
    assert more[|entries|] == e;
    assert forall i | 0 <= i < |entries| :: more[i] == entries[i];
    assert HasCounter(more, k) <==> HasCounter(entries, k) || k == e.Counter();
  }

  lemma NewRequiredPush(items: seq<Item>, n: nat, acked: seq<nat>, history: seq<nat>, counter: nat)
    requires n < |items|
    ensures NewRequired(items, n + 1, acked, history, counter)
       <==> NewRequired(items, n, acked, history, counter)
            || (IsRequired(items[n]) && IsNew(items, n, acked, history, counter))
  {
    hide IsNew;
  }

  lemma AckedPush(list: seq<nat>, entries: seq<Entry>, e: Entry, acked: seq<nat>)
    requires AckedAre(list, entries, acked)
    ensures AckedAre(RegisterSentAck(list, e.Counter(), entries == []), entries + [e], acked)
    ensures AlreadyAcked(list, e.Counter()) <==> Remembered(entries, acked, e.Counter())
  {
    RegisterSentAckContents(list, e.Counter(), entries == []);
    hide RegisterSentAck, AlreadyAcked, Remembered;
    forall k: int
      ensures k in RegisterSentAck(list, e.Counter(), entries == []) <==> Remembered(entries + [e], acked, k)
    {
      RememberedPush(entries, e, acked, k);
    }
  }

  lemma NothingAccepted(items: seq<Item>, n: nat, acked: seq<nat>, history: seq<nat>, counter: nat)
    requires n < |items| && (n == 0 || !IsOptional(items[n]))
    ensures Accepted(items, n + 1, acked, history, counter) == Accepted(items, n, acked, history, counter)
  {
  }

  lemma RequiredStep(c: Cursor, items: seq<Item>, n: nat, acked: seq<nat>, history: seq<nat>, counter: nat)
    requires n < |items| && IsRequired(items[n]) && Follows(c, items, n, acked, history, counter)
    ensures Follows(Apply(c, items[n]), items, n + 1, acked, history, counter)
  {
    hide RegisterSentAck, AlreadyAcked, PostponeAck, Remembered, Represents, NewRequired, AckedAre, Accepted, Carried;
    var e := Entry(items[n].seqNum, items[n].payload);
    CarriedPush(items, n);
    NewRequiredPush(items, n, acked, history, counter);
    AckedPush(c.conn.acksSent, Carried(items[..n]), e, acked);
    NothingAccepted(items, n, acked, history, counter);
  }

  lemma OtherStep(c: Cursor, items: seq<Item>, n: nat, acked: seq<nat>, history: seq<nat>, counter: nat)
    requires n < |items| && !items[n].Msg? && Follows(c, items, n, acked, history, counter)
    ensures Follows(Apply(c, items[n]), items, n + 1, acked, history, counter)
  {
    hide Remembered, Represents, NewRequired, AckMessage, AckedAre, Accepted, Carried;
    CarriedPush(items, n);
    NewRequiredPush(items, n, acked, history, counter);
    NothingAccepted(items, n, acked, history, counter);
    assert Carried(items[..n]) + [] == Carried(items[..n]) && c.received + [] == c.received;
  }

  /** The window at a message that requires no acknowledgement and is not the main part. */
  lemma WindowStep(
      list: seq<nat>, items: seq<Item>, n: nat, acked: seq<nat>, history: seq<nat>, counter: nat)
    requires 0 < n < |items| && IsOptional(items[n]) && counter in history
    requires Represents(list, history + Accepted(items, n, acked, history, counter))
    ensures var c, isNew := CounterFromSeq(items[n].seqNum), IsNew(items, n, acked, history, counter);
            && (isNew <==> c <= counter && Accepts(list, c))
            && Represents(if isNew then Register(list, c) else list,
                          history + Accepted(items, n + 1, acked, history, counter))
  {
    hide Remembered, Register, Accepts, Represents;
    var c, more := CounterFromSeq(items[n].seqNum), Accepted(items, n, acked, history, counter);
    if c <= counter {
      AcceptsIffFresh(list, history + more, c);
      FreshWithin(items, n, acked, history, counter);
      if Accepts(list, c) {
        RegisterRepresents(list, history + more, c);
      }
    }
    hide Fresh;
    assert history + more + [c] == history + (more + [c]) && more + [] == more;
  }

  lemma OptionalStep(c: Cursor, items: seq<Item>, n: nat, acked: seq<nat>, history: seq<nat>, counter: nat)
    requires n < |items| && IsOptional(items[n]) && counter in history && Follows(c, items, n, acked, history, counter)
    ensures Follows(Apply(c, items[n]), items, n + 1, acked, history, counter)
  {
    hide Remembered, Represents, NewRequired, Register, Accepts, AckedAre, Accepted, Carried;
    CarriedPush(items, n);
    NewRequiredPush(items, n, acked, history, counter);
    assert Carried(items[..n]) + [] == Carried(items[..n]) && c.received + [] == c.received;
    if n == 0 {
      NothingAccepted(items, n, acked, history, counter);
    } else {
      WindowStep(c.conn.incoming, items, n, acked, history, counter);
    }
  }

  lemma {:induction false} ItemsFollow(
      c: Cursor, items: seq<Item>, n: nat, acked: seq<nat>, history: seq<nat>, counter: nat)
    requires n <= |items| && counter in history && Follows(c, items, n, acked, history, counter)
    ensures Follows(ApplyAll(c, items[n..]), items, |items|, acked, history, counter)
    decreases |items| - n
  {
    hide Apply, Follows;
    if n < |items| {
      assert items[n..][0] == items[n] && items[n..][1..] == items[n + 1..];
      if IsRequired(items[n]) {
        RequiredStep(c, items, n, acked, history, counter);
      } else if items[n].Msg? {
        OptionalStep(c, items, n, acked, history, counter);
      } else {
        OtherStep(c, items, n, acked, history, counter);
      }
      ItemsFollow(Apply(c, items[n]), items, n + 1, acked, history, counter);
    }
  }

  // --- A packet

  /** What asking for acknowledgements adds to the requests: at once for a new message, otherwise by timer. */
  ghost predicate AsksForAcks(c: Conn, r: Conn, newRequired: bool) {
    && (newRequired ==> r.requests == c.requests + [Request(0, CAUSE_NONE)] && r.acksTimer == c.acksTimer)
    && (!newRequired ==>
          var later := r.acksToSend != [] && !c.acksTimer;
          && r.requests == c.requests + (if later then [Request(MaxDelayBeforeAckResend(c.kind), CAUSE_ACKS)] else [])
          && r.acksTimer == (c.acksTimer || later))
  }

  lemma {:induction false} PostponedIsThere(l: Ledger, entries: seq<Entry>)
    ensures l.acksToSend != [] || entries != [] ==> AbsorbAll(l, entries).acksToSend != []
    decreases |entries|
  {
    hide RegisterSentAck, AlreadyAcked;
    if entries != [] {
      PostponedIsThere(Absorb(l, entries[0]), entries[1..]);
    }
  }

  lemma {:induction false} RequiredIsCarried(items: seq<Item>, i: nat)
    requires i < |items| && IsRequired(items[i])
    ensures Carried(items) != []
  {
    if i > 0 {
      RequiredIsCarried(items[1..], i - 1);
    }
  }

  /** Of any packet: one of a wrong size, or whose counter was accepted before or is too old, changes nothing. Of
      any other, what is handed up is what is new, in order, and nothing if an error is met, though what was
      accepted and acknowledged until then stays so; a new message requiring an acknowledgement makes the
      endpoint ask for a service call at once, repeated ones make it ask by timer. */
  lemma PacketHandsUp(c: Conn, form: Form, bytes: seq<byte>, history: seq<nat>)
    requires Ascending(c.acksSent) && Represents(c.incoming, history)
    ensures |bytes| < 5 || MAX_INCOMING_PACKET_SIZE < MSG_KEY_SIZE + |bytes| ==>
              HandleIncoming(c, form, bytes) == Arrival(c, [])
    ensures 5 <= |bytes| && MSG_KEY_SIZE + |bytes| <= MAX_INCOMING_PACKET_SIZE ==>
              var r, parse := HandleIncoming(c, form, bytes), ParsePacket(form, bytes);
              var counter := CounterFromSeq(ReadU32(bytes).value);
              var n, now := |parse.items|, history + [counter];
              if !Fresh(history, counter) then r == Arrival(c, [])
              else
                && r.received == (if parse.ok then HandedUp(parse.items, n, c.acksSent, now, counter) else [])
                && Represents(r.conn.incoming, now + Accepted(parse.items, n, c.acksSent, now, counter))
                && AckedAre(r.conn.acksSent, Carried(parse.items), c.acksSent)
                && (!parse.ok ==> r.conn.requests == c.requests)
                && (parse.ok ==> AsksForAcks(c, r.conn, NewRequired(parse.items, n, c.acksSent, now, counter)))
  {
    hide ParsePacket, ApplyAll, HandedUp, Accepted, Represents, AckedAre, Fresh, Accepts, Register, Carried;
    hide NewRequired;
    if 5 <= |bytes| && MSG_KEY_SIZE + |bytes| <= MAX_INCOMING_PACKET_SIZE {
      var counter, items := CounterFromSeq(ReadU32(bytes).value), ParsePacket(form, bytes).items;
      AcceptsIffFresh(c.incoming, history, counter);
      if Accepts(c.incoming, counter) {
        var start := Cursor(c.(incoming := Register(c.incoming, counter)), counter, false, true, false, []);
        StartFollows(c, start, items, history, counter);
        ItemsFollow(start, items, 0, c.acksSent, history + [counter], counter);
        assert items[0..] == items && items[..|items|] == items;
        Endpoint.ApplyAllOnlyReceives(start, items);
        NewMakesAcks(start, items, c.acksSent, history + [counter], counter);
      }
    }
  }

  lemma StartFollows(c: Conn, start: Cursor, items: seq<Item>, history: seq<nat>, counter: nat)
    requires Ascending(c.acksSent) && Represents(c.incoming, history) && Accepts(c.incoming, counter)
    requires start == Cursor(c.(incoming := Register(c.incoming, counter)), counter, false, true, false, [])
    ensures Follows(start, items, 0, c.acksSent, history + [counter], counter)
  {
    hide Represents, Accepts, Register;
    RegisterRepresents(c.incoming, history, counter);
    assert items[..0] == [] && history + [counter] + [] == history + [counter];
    assert forall k: int :: !HasCounter([], k);
  }

  lemma {:induction false} NewMakesAcks(
      start: Cursor, items: seq<Item>, acked: seq<nat>, history: seq<nat>, counter: nat)
    ensures NewRequired(items, |items|, acked, history, counter) ==> ApplyAll(start, items).conn.acksToSend != []
  {
    hide ApplyAll, IsNew;
    if NewRequired(items, |items|, acked, history, counter) {
      var i :| 0 <= i < |items| && IsRequired(items[i]) && IsNew(items, i, acked, history, counter);
      RequiredIsCarried(items, i);
      ApplyAbsorbs(start, items, []);
      PostponedIsThere(LedgerOf(start, []), Carried(items));
    }
  }

  // --- Over runs of two endpoints

  /** The counters of the packets accepted on one side, by the rule of the full history. */
  ghost function History(s: System, steps: seq<Step>, atLeft: bool, history: seq<nat>): seq<nat>
    decreases |steps|
  {
    if steps == [] then history
    else History(Next(s, steps[0]), steps[1..], atLeft, HistoryStep(s, steps[0], atLeft, history))
  }

  ghost function HistoryStep(s: System, step: Step, atLeft: bool, history: seq<nat>): seq<nat> {
    var sent := Sender(s, atLeft).sent;
    if step.Arrive? && step.atLeft == atLeft && step.index < |sent| && sent[step.index] != [] then
      var counter := CounterFromSeq(sent[step.index][0].seqNum);
      if Fresh(history, counter) then history + [counter] else history
    else history
  }

  ghost predicate Keeping(s: System, atLeft: bool, history: seq<nat>) {
    && Progress.Ready(s) && Represents(Receiver(s, atLeft).conn.incoming, history)
    && forall k | 0 <= k < |Sender(s, atLeft).sent| :: TailRequired(Sender(s, atLeft).sent[k])
  }

  /** Behind the main part a packet carries only messages that require an acknowledgement. */
  ghost predicate TailRequired(packet: Packet) {
    forall i | 1 <= i < |packet| && packet[i].Msg? :: RequiresAck(packet[i].seqNum)
  }

  ghost predicate QueueRequired(pending: seq<Pending>) {
    forall i | 0 <= i < |pending| :: RequiresAck(pending[i].seqNum)
  }

  lemma AppendTail(c: Conn, main: Item, now: int)
    requires QueueRequired(c.pending)
    ensures TailRequired([main] + AppendAdditional(c, |ItemBytes(main)|, now).packet)
  {
    hide AppendAdditional, ItemBytes, AckCount, ResendCount, SameMessages;
    var size := |ItemBytes(main)|;
    AppendAdditionalEffect(c, size, now);
    var acks := AckItems(c.acksToSend[..AckCount(c, size)]);
    var resends := ResendItems(c.pending[..ResendCount(c, size, now)]);
    var packet := [main] + (acks + resends);
    forall i | 1 <= i < |packet| && packet[i].Msg?
      ensures RequiresAck(packet[i].seqNum)
    {
      assert packet[i] == (acks + resends)[i - 1];
    }
  }

  lemma ServiceTail(c: Conn, cause: nat, now: int)
    requires QueueRequired(c.pending)
    ensures TailRequired(PrepareService(c, cause, now).packet)
  {
    hide AppendAdditional, TailRequired;
    NoTail();
    var c' := ClearTimer(c, cause);
    if CounterLeft(c', false) {
      AppendTail(c'.(counter := c'.counter + 1), Empty(MakeSeq(c'.counter + 1, false, false)), now);
    }
  }

  lemma NoTail()
    ensures TailRequired([])
  {
  }

  lemma DueIsRequired(pending: seq<Pending>, p: Pending)
    requires QueueRequired(pending) && RequiresAck(p.seqNum)
    ensures QueueRequired(MakeDue(pending + [p]))
  {
  }

  lemma MessageTail(c: Conn, payload: Payload, requiresAck: bool, now: int)
    requires QueueRequired(c.pending)
    ensures TailRequired(PrepareMessage(c, payload, requiresAck, now).packet)
  {
    hide AppendAdditional, TailRequired, PrepareService, ItemBytes;
    NoTail();
    if CounterLeft(c, requiresAck) {
      var single := !HaveAdditional(c) && !requiresAck;
      var c1, main := c.(counter := c.counter + 1), Msg(MakeSeq(c.counter + 1, requiresAck, single), payload);
      AppendTail(c1, main, now);
      if requiresAck {
        DueIsRequired(c.pending, Pending(main.seqNum, payload, now));
        ServiceTail(c1.(pending := MakeDue(c.pending + [Pending(main.seqNum, payload, now)])), CAUSE_NONE, now);
      }
    }
  }

  /** Then nothing of it adds to the window but its own counter. */
  lemma {:induction false} EmittedAddsNothing(
      packet: Packet, n: nat, acked: seq<nat>, history: seq<nat>, counter: nat)
    requires TailRequired(packet) && n <= |packet|
    ensures Accepted(PacketOnWire(packet), n, acked, history, counter) == []
  {
    hide IsNew;
    if n > 0 {
      EmittedAddsNothing(packet, n - 1, acked, history, counter);
      assert PacketOnWire(packet)[n - 1] == ItemOnWire(packet[n - 1]);
    }
  }

  lemma ArrivalKeeping(s: System, index: nat, atLeft: bool, history: seq<nat>)
    requires Keeping(s, atLeft, history) && index < |Sender(s, atLeft).sent|
    ensures Represents(ActArrive(Receiver(s, atLeft), s.form, Sender(s, atLeft).sent[index], index).conn.incoming,
                       HistoryStep(s, Arrive(atLeft, index), atLeft, history))
  {
    hide Represents, Fresh, HandedUp, Accepted, AckedAre, NewRequired, AsksForAcks, PacketBytes, ParsePacket;
    hide HandleIncoming;
    hide WellFormed, Progress.Ready, PacketOnWire, Carried, TailRequired;
    var packet, y := Sender(s, atLeft).sent[index], Receiver(s, atLeft);
    Progress.ReadyPacket(s, atLeft, index);
    EmittedFits(s.form, Sender(s, atLeft).conn.kind, packet);
    PacketRoundTrip(s.form, packet);
    ReadyAscends(s, atLeft);
    PacketHandsUp(y.conn, s.form, PacketBytes(packet), history);
    var counter := CounterFromSeq(packet[0].seqNum);
    var now := history + [counter];
    EmittedAddsNothing(packet, |packet|, y.conn.acksSent, now, counter);
    assert now + [] == now;
  }

  lemma {:induction false} EmittedFits(form: Form, kind: Kind, packet: Packet)
    requires PacketOk(form, kind, packet)
    ensures packet != [] && WellFormed(form, packet) && |PacketOnWire(packet)| == |packet|
    ensures 5 <= |PacketBytes(packet)| && MSG_KEY_SIZE + |PacketBytes(packet)| <= MAX_INCOMING_PACKET_SIZE
  {
    PacketIsLong(form, packet);
  }

  lemma ReadyAscends(s: System, atLeft: bool)
    requires Progress.Ready(s)
    ensures Ascending(Receiver(s, atLeft).conn.acksSent)
  {
    Progress.ReadySides(s, atLeft);
    GoodParts(s.form, Sender(s, atLeft), Receiver(s, atLeft), false);
    InvIsAscending(Towards(Sender(s, atLeft), Receiver(s, atLeft)));
  }

  lemma ReadyRequired(s: System, atLeft: bool)
    requires Progress.Ready(s)
    ensures QueueRequired(Sender(s, atLeft).conn.pending)
  {
    hide Progress.Ready, Travels;
    Progress.ReadyTravels(s, atLeft);
    var pending := Sender(s, atLeft).conn.pending;
    forall i | 0 <= i < |pending|
      ensures RequiresAck(pending[i].seqNum)
    {
      assert PendingOk(s.form, pending[i]);
    }
  }

  lemma StepKeeping(s: System, step: Step, atLeft: bool, history: seq<nat>)
    requires Keeping(s, atLeft, history)
    ensures Keeping(Next(s, step), atLeft, HistoryStep(s, step, atLeft, history))
  {
    hide Represents, Fresh, Progress.Ready, PrepareService, PrepareMessage, HandleIncoming, Entries, CanSend, ActArrive;
    hide TailRequired, QueueRequired;
    Progress.StepKeepsReady(s, step);
    ReadyRequired(s, atLeft);
    var x, y := Sender(s, atLeft).conn, Receiver(s, atLeft).conn;
    match step
    case SendMessage(_, payload, requiresAck, now) =>
      Progress.MessageKeepsWindow(y, payload, requiresAck, now);
      MessageTail(x, payload, requiresAck, now);
    case SendService(_, cause, now) =>
      Progress.ServiceKeepsWindow(y, cause, now);
      ServiceTail(x, cause, now);
    case Arrive(at, index) =>
      if at == atLeft && index < |Sender(s, atLeft).sent| {
        ArrivalKeeping(s, index, atLeft, history);
        Progress.ReadyPacket(s, atLeft, index);
        EmittedFits(s.form, Sender(s, atLeft).conn.kind, Sender(s, atLeft).sent[index]);
      } else {
        OtherArrival(s, step, atLeft);
      }
  }

  lemma OtherArrival(s: System, step: Step, atLeft: bool)
    requires step.Arrive? && (step.atLeft == atLeft ==> |Sender(s, atLeft).sent| <= step.index)
    ensures Receiver(Next(s, step), atLeft).conn.incoming == Receiver(s, atLeft).conn.incoming
    ensures Sender(Next(s, step), atLeft).sent == Sender(s, atLeft).sent
  {
    hide HandleIncoming;
  }

  /** Over any run the window stands for the counters of the packets accepted. */
  lemma {:induction false} RunKeeping(s: System, steps: seq<Step>, atLeft: bool, history: seq<nat>)
    requires Keeping(s, atLeft, history)
    ensures Keeping(Run(s, steps), atLeft, History(s, steps, atLeft, history))
    decreases |steps|
  {
    hide Keeping, Next, HistoryStep;
    if steps != [] {
      StepKeeping(s, steps[0], atLeft, history);
      RunKeeping(Next(s, steps[0]), steps[1..], atLeft, HistoryStep(s, steps[0], atLeft, history));
    }
  }

  lemma StartKeeping(form: Form, kind: Kind, atLeft: bool)
    ensures Keeping(Start(form, kind), atLeft, [])
  {
    Progress.StartIsReady(form, kind);
  }

  /** What the receiving side hands up when a packet of the other side arrives. */
  ghost function Arriving(s: System, atLeft: bool, index: nat): seq<Entry>
    requires index < |Sender(s, atLeft).sent|
  {
    HandleIncoming(Receiver(s, atLeft).conn, s.form, PacketBytes(Sender(s, atLeft).sent[index])).received
  }

  /** Over any run, of any packet that arrives: nothing of it is handed up when its counter was accepted before or
      is too old, and otherwise its main part, if that needs no acknowledgement, and every new message that
      needs one, in order, as they are on the wire. */
  lemma {:induction false} ArrivalHandsUp(form: Form, kind: Kind, steps: seq<Step>, atLeft: bool, index: nat)
    requires index < |Sender(Run(Start(form, kind), steps), atLeft).sent|
    ensures var s := Run(Start(form, kind), steps);
            var packet, history := Sender(s, atLeft).sent[index], History(Start(form, kind), steps, atLeft, []);
            && packet != []
            && var counter := CounterFromSeq(packet[0].seqNum);
            Arriving(s, atLeft, index)
            == if Fresh(history, counter)
               then HandedUp(PacketOnWire(packet), |packet|, Receiver(s, atLeft).conn.acksSent,
                             history + [counter], counter)
               else []
  {
    hide Represents, Fresh, HandedUp, Accepted, AckedAre, NewRequired, AsksForAcks, PacketBytes, ParsePacket;
    hide HandleIncoming;
    hide WellFormed, Progress.Ready, PacketOnWire, Carried, Run, Start, History, TailRequired;
    StartKeeping(form, kind, atLeft);
    RunKeeping(Start(form, kind), steps, atLeft, []);
    var s := Run(Start(form, kind), steps);
    var packet, y := Sender(s, atLeft).sent[index], Receiver(s, atLeft);
    Progress.ReadyPacket(s, atLeft, index);
    EmittedFits(s.form, Sender(s, atLeft).conn.kind, packet);
    PacketRoundTrip(s.form, packet);
    ReadyAscends(s, atLeft);
    PacketHandsUp(y.conn, s.form, PacketBytes(packet), History(Start(form, kind), steps, atLeft, []));
  }

  lemma HandedUpPush(items: seq<Item>, n: nat, acked: seq<nat>, history: seq<nat>, counter: nat)
    requires n < |items|
    ensures HandedUp(items, n + 1, acked, history, counter)
         == HandedUp(items, n, acked, history, counter)
            + (if IsNew(items, n, acked, history, counter) then [Entry(items[n].seqNum, items[n].payload)] else [])
  {
    hide IsNew;
  }

  lemma {:induction false} MainComesFirst(items: seq<Item>, n: nat, acked: seq<nat>, history: seq<nat>, counter: nat)
    requires 0 < n <= |items| && IsOptional(items[0])
    ensures var up := HandedUp(items, n, acked, history, counter);
            up != [] && up[0] == Entry(items[0].seqNum, items[0].payload)
  {
    MainIsNew(items, acked, history, counter);
    HandedUpPush(items, n - 1, acked, history, counter);
    hide IsNew;
    if n > 1 {
      MainComesFirst(items, n - 1, acked, history, counter);
    } else {
      assert HandedUp(items, 0, acked, history, counter) == [];
    }
  }

  lemma MainIsNew(items: seq<Item>, acked: seq<nat>, history: seq<nat>, counter: nat)
    requires items != [] && IsOptional(items[0])
    ensures IsNew(items, 0, acked, history, counter)
  {
  }

  lemma OptionalIsMain(x: Side, payload: Payload, now: int)
    requires CounterLeft(x.conn, false)
    requires var main := Msg(MakeSeq(x.conn.counter + 1, false, !HaveAdditional(x.conn)), payload);
             Fits(x.conn.kind, |ItemBytes(main)|, 0)
    ensures var sent := ActMessage(x, payload, false, now).sent;
            && |sent| == |x.sent| + 1 && sent[|x.sent|] != []
            && sent[|x.sent|][0] == Msg(MakeSeq(x.conn.counter + 1, false, !HaveAdditional(x.conn)), payload)
  {
    hide AppendAdditional, ItemBytes, Entries;
  }

  /** Over any run: a message that needs no acknowledgement is the main part of a packet at once, in the single
      form when nothing else waits, and whenever that packet arrives with a counter that was not accepted
      before and is in the window, what is handed up starts with that message as it is on the wire. */
  lemma OptionalIsHandedUp(
      form: Form, kind: Kind, before: seq<Step>, payload: Payload, now: int, after: seq<Step>, atLeft: bool)
    requires CanSend(form, payload, false)
    requires var x := Sender(Run(Start(form, kind), before), atLeft).conn;
             CounterLeft(x, false)
             && Fits(x.kind, |ItemBytes(Msg(MakeSeq(x.counter + 1, false, !HaveAdditional(x)), payload))|, 0)
    requires var x := Sender(Run(Start(form, kind), before), atLeft).conn;
             var steps := before + [Step.SendMessage(!atLeft, payload, false, now)] + after;
             Fresh(History(Start(form, kind), steps, atLeft, []), x.counter + 1)
    ensures var x := Sender(Run(Start(form, kind), before), atLeft);
            var s := Run(Start(form, kind), before + [Step.SendMessage(!atLeft, payload, false, now)] + after);
            && |x.sent| < |Sender(s, atLeft).sent|
            && var up := Arriving(s, atLeft, |x.sent|);
            && up != []
            && up[0] == Entry(MakeSeq(x.conn.counter + 1, false, !HaveAdditional(x.conn)), PayloadOnWire(payload))
  {
    hide Fresh, Fits, HandedUp, PacketBytes, ItemBytes, HandleIncoming, PayloadOnWire;
    hide Run, Start, History, HaveAdditional, Arriving, CanSend, ActMessage;
    var step := Step.SendMessage(!atLeft, payload, false, now);
    var steps, s0 := before + [step] + after, Run(Start(form, kind), before);
    var x := Sender(s0, atLeft);
    Oversize.StartForm(form, kind, before);
    OptionalIsMain(x, payload, now);
    Recovery.RunConcat(Start(form, kind), before + [step], after);
    Requests.RunPush(Start(form, kind), before, step);
    var s1, s := Next(s0, step), Run(Start(form, kind), steps);
    SendsOptional(s0, payload, now, atLeft);
    hide Next;
    Oversize.RunSentGrows(s1, after, atLeft);
    var packet := Sender(s, atLeft).sent[|x.sent|];
    assert packet == Sender(s1, atLeft).sent[|x.sent|];
    ArrivalHandsUp(form, kind, steps, atLeft, |x.sent|);
    var history, counter := History(Start(form, kind), steps, atLeft, []), x.conn.counter + 1;
    assert PacketOnWire(packet)[0] == ItemOnWire(packet[0]);
    MainComesFirst(PacketOnWire(packet), |packet|, Receiver(s, atLeft).conn.acksSent, history + [counter], counter);
  }

  lemma SendsOptional(s: System, payload: Payload, now: int, atLeft: bool)
    requires CanSend(s.form, payload, false)
    ensures Sender(Next(s, Step.SendMessage(!atLeft, payload, false, now)), atLeft)
         == ActMessage(Sender(s, atLeft), payload, false, now)
  {
    hide CanSend, ActMessage;
  }
}
