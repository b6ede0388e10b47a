// When a message is handed up twice: exactly when a packet carrying it is taken
// after one that starts above it, itself taken after a delivery.
module Repeats {
  import opened Prelude
  import opened Wire
  import opened ReplayWindow
  import opened Connection
  import opened Delivery
  import opened Channel
  import opened InOrder
  import opened Sending
  import opened Link

  // --- What a list of taken packets makes the receiver remember

  /** The packet makes the receiver forget the counter. */
  ghost predicate Overtakes(packet: seq<Entry>, counter: int) {
    packet != [] && counter < packet[0].Counter()
  }

  /** Taken once and not forgotten since. */
  ghost predicate Known(taken: seq<seq<Entry>>, counter: int) {
    exists i :: 0 <= i < |taken| && KnownSince(taken, i, counter)
  }

  ghost predicate KnownSince(taken: seq<seq<Entry>>, i: nat, counter: int)
    requires i < |taken|
  {
    HasCounter(taken[i], counter) && forall j | i < j < |taken| :: !Overtakes(taken[j], counter)
  }

  /** Packet k, carrying e, comes after packet j, which starts above e, and that after packet i, carrying e. */
  ghost predicate LateAt(taken: seq<seq<Entry>>, i: nat, j: nat, k: nat, e: Entry) {
    i < j < k < |taken| && e in taken[i] && Overtakes(taken[j], e.Counter()) && e in taken[k]
  }

  ghost predicate Late(taken: seq<seq<Entry>>) {
    exists i: nat, j: nat, k: nat, e: Entry :: LateAt(taken, i, j, k, e)
  }

  ghost predicate TakenSome(taken: seq<seq<Entry>>, e: Entry) {
    exists i :: 0 <= i < |taken| && e in taken[i]
  }

  /** The packets hold messages of one queue, each packet in ascending order. */
  ghost predicate OfQueue(taken: seq<seq<Entry>>, queued: seq<Entry>) {
    && AscendingEntries(queued)
    && forall k | 0 <= k < |taken| :: AscendingEntries(taken[k]) && Within(taken[k], queued)
  }

  // --- One packet

  /** Exactly the messages whose counters are not remembered are new. */
  ghost predicate AddsUnknown(l: Ledger, entries: seq<Entry>, log: seq<Entry>) {
    && (forall e :: e in log <==> e in l.log || (e in entries && e.Counter() !in l.acksSent))
    && (NoRepeats(log) <==> NoRepeats(l.log) && NoneBack(l, entries))
  }

  /** No message comes back: delivered before, but forgotten. */
  ghost predicate NoneBack(l: Ledger, entries: seq<Entry>) {
    forall e | e in entries && e.Counter() !in l.acksSent :: e !in l.log
  }

  lemma NoRepeatsPush(log: seq<Entry>, e: Entry)
    ensures NoRepeats(log + [e]) <==> NoRepeats(log) && e !in log
  {
    var log' := log + [e];
    if NoRepeats(log') {
      assert forall i | 0 <= i < |log| :: log'[i] == log[i] && log'[i] != log'[|log|];
    }
  }

  lemma AbsorbEffect(l: Ledger, e: Entry)
    requires Ascending(l.acksSent)
    ensures AddsUnknown(l, [e], Absorb(l, e).log)
    ensures Ascending(Absorb(l, e).acksSent) && !Absorb(l, e).first
    ensures forall c: int :: c in Absorb(l, e).acksSent
                             <==> c == e.Counter() || (c in l.acksSent && (l.first ==> e.Counter() < c))
  {
    hide RegisterSentAck, AlreadyAcked, PostponeAck;
    RegisterSentAckContents(l.acksSent, e.Counter(), l.first);
    NoRepeatsPush(l.log, e);
  }

  /** Unknown messages of a whole list, given those of its first and those of its rest. */
  lemma AddsUnknownCons(l: Ledger, entries: seq<Entry>, log: seq<Entry>)
    requires entries != [] && AscendingEntries(entries)
    requires AddsUnknown(l, [entries[0]], Absorb(l, entries[0]).log)
    requires forall c: int | entries[0].Counter() < c :: c in Absorb(l, entries[0]).acksSent <==> c in l.acksSent
    requires AddsUnknown(Absorb(l, entries[0]), entries[1..], log)
    ensures AddsUnknown(l, entries, log)
  {
    hide Absorb, NoRepeats;
    var e, rest := entries[0], entries[1..];
    var l1 := Absorb(l, e);
    assert entries == [e] + rest;
    assert forall x | x in rest :: e.Counter() < x.Counter();
    assert NoneBack(l, entries) <==> NoneBack(l, [e]) && NoneBack(l1, rest);
  }

  lemma {:induction false} AbsorbAllEffect(l: Ledger, entries: seq<Entry>)
    requires Ascending(l.acksSent) && AscendingEntries(entries)
    ensures AddsUnknown(l, entries, AbsorbAll(l, entries).log)
    ensures Ascending(AbsorbAll(l, entries).acksSent)
    ensures forall c: int :: c in AbsorbAll(l, entries).acksSent
                             <==> HasCounter(entries, c)
                                  || (c in l.acksSent && (l.first && entries != [] ==> entries[0].Counter() <= c))
    decreases |entries|
  {
    hide Absorb, AddsUnknown, HasCounter;
    if entries == [] {
      NothingAdded(l);
    } else {
      var e, rest := entries[0], entries[1..];
      AbsorbEffect(l, e);
      AbsorbAllEffect(Absorb(l, e), rest);
      AddsUnknownCons(l, entries, AbsorbAll(l, entries).log);
      HasCounterCons(entries);
    }
  }

  lemma NothingAdded(l: Ledger)
    ensures AddsUnknown(l, [], l.log)
    ensures forall c: int :: !HasCounter([], c)
  {
  }

  lemma HasCounterCons(entries: seq<Entry>)
    requires entries != [] && AscendingEntries(entries)
    ensures forall c: int :: HasCounter(entries, c) <==> c == entries[0].Counter() || HasCounter(entries[1..], c)
    ensures forall c: int | HasCounter(entries[1..], c) :: entries[0].Counter() < c
  {
    forall c: int
      ensures HasCounter(entries, c) <==> c == entries[0].Counter() || HasCounter(entries[1..], c)
      ensures HasCounter(entries[1..], c) ==> entries[0].Counter() < c
    {
      if HasCounter(entries, c) && c != entries[0].Counter() {
        var k :| 0 <= k < |entries| && entries[k].Counter() == c;
        assert entries[1..][k - 1].Counter() == c;
      }
      if HasCounter(entries[1..], c) {
        var k :| 0 <= k < |entries[1..]| && entries[1..][k].Counter() == c;
        assert entries[k + 1].Counter() == c;
      }
    }
  }

  // --- All packets taken so far

  lemma KnownPush(taken: seq<seq<Entry>>, packet: seq<Entry>, c: int)
    requires AscendingEntries(packet)
    ensures Known(taken + [packet], c)
            <==> HasCounter(packet, c) || (Known(taken, c) && !Overtakes(packet, c))
  {
    var all := taken + [packet];
    var n := |taken|;
    assert all[n] == packet;
    if HasCounter(packet, c) {
      assert KnownSince(all, n, c);
    } else if Known(taken, c) && !Overtakes(packet, c) {
      var i :| 0 <= i < n && KnownSince(taken, i, c);
      assert forall j | i < j < |all| :: all[j] == if j < n then taken[j] else packet;
      assert KnownSince(all, i, c);
    }
    if Known(all, c) && !HasCounter(packet, c) {
      var i :| 0 <= i < |all| && KnownSince(all, i, c);
      assert i < n;
      assert forall j | i < j < n :: all[j] == taken[j];
      assert !Overtakes(all[n], c);
      assert KnownSince(taken, i, c);
    }
  }

  lemma TakenSomePush(taken: seq<seq<Entry>>, packet: seq<Entry>, e: Entry)
    ensures TakenSome(taken + [packet], e) <==> TakenSome(taken, e) || e in packet
  {
    var all := taken + [packet];
    assert all[|taken|] == packet;
    assert forall i | 0 <= i < |taken| :: all[i] == taken[i];
  }

  /** Some message of the packet was taken before and has been forgotten since. */
  ghost predicate BringsBack(taken: seq<seq<Entry>>, packet: seq<Entry>) {
    exists e :: e in packet && TakenSome(taken, e) && !Known(taken, e.Counter())
  }

  lemma MemberHasCounter(packet: seq<Entry>, e: Entry)
    requires e in packet
    ensures HasCounter(packet, e.Counter())
  {
  }

  lemma CarrierDoesNotOvertake(packet: seq<Entry>, e: Entry)
    requires AscendingEntries(packet) && e in packet
    ensures !Overtakes(packet, e.Counter())
  {
  }

  lemma LateIfBringsBack(taken: seq<seq<Entry>>, packet: seq<Entry>)
    requires BringsBack(taken, packet)
    ensures Late(taken + [packet])
  {
    hide Overtakes, HasCounter;
    var all := taken + [packet];
    var e :| e in packet && TakenSome(taken, e) && !Known(taken, e.Counter());
    var i :| 0 <= i < |taken| && e in taken[i];
    MemberHasCounter(taken[i], e);
    assert !KnownSince(taken, i, e.Counter());
    var j :| i < j < |taken| && Overtakes(taken[j], e.Counter());
    assert all[i] == taken[i] && all[j] == taken[j] && all[|taken|] == packet;
    assert LateAt(all, i, j, |taken|, e);
  }

  lemma LateGrows(taken: seq<seq<Entry>>, packet: seq<Entry>)
    requires Late(taken)
    ensures Late(taken + [packet])
  {
    hide Overtakes;
    var all := taken + [packet];
    var i: nat, j: nat, k: nat, e: Entry :| LateAt(taken, i, j, k, e);
    assert all[i] == taken[i] && all[j] == taken[j] && all[k] == taken[k];
    assert LateAt(all, i, j, k, e);
  }

  lemma LateWasLateOrBringsBack(taken: seq<seq<Entry>>, packet: seq<Entry>, queued: seq<Entry>)
    requires OfQueue(taken + [packet], queued) && Late(taken + [packet])
    ensures Late(taken) || BringsBack(taken, packet)
  {
    hide Overtakes, HasCounter;
    var all := taken + [packet];
    assert forall i | 0 <= i < |taken| :: all[i] == taken[i];
    var i: nat, j: nat, k: nat, e: Entry :| LateAt(all, i, j, k, e);
    if k < |taken| {
      assert LateAt(taken, i, j, k, e);
    } else {
      assert e in packet && TakenSome(taken, e);
      if Known(taken, e.Counter()) {
        var m :| 0 <= m < |taken| && KnownSince(taken, m, e.Counter());
        CarriesKnown(all, queued, m, e, k);
        CarrierDoesNotOvertake(all[m], e);
        assert LateAt(taken, i, j, m, e);
      }
    }
  }

  /** A packet with the counter of a queued message carries that message. */
  lemma CarriesKnown(taken: seq<seq<Entry>>, queued: seq<Entry>, m: nat, e: Entry, k: nat)
    requires OfQueue(taken, queued) && m < |taken| && k < |taken|
    requires e in taken[k] && HasCounter(taken[m], e.Counter())
    ensures e in taken[m] && AscendingEntries(taken[m])
  {
    var t :| 0 <= t < |taken[m]| && taken[m][t].Counter() == e.Counter();
    assert Within(taken[m], queued) && Within(taken[k], queued);
    SameCounterSameEntry(queued, taken[m][t], e);
  }

  lemma LatePush(taken: seq<seq<Entry>>, packet: seq<Entry>, queued: seq<Entry>)
    requires OfQueue(taken + [packet], queued)
    ensures Late(taken + [packet]) <==> Late(taken) || BringsBack(taken, packet)
  {
    hide Late, BringsBack, OfQueue;
    if Late(taken) {
      LateGrows(taken, packet);
    }
    if BringsBack(taken, packet) {
      LateIfBringsBack(taken, packet);
    }
    if Late(taken + [packet]) {
      LateWasLateOrBringsBack(taken, packet, queued);
    }
  }

  /** What the receiver's records say about the packets it has taken. */
  ghost predicate Recorded(l: Ledger, taken: seq<seq<Entry>>) {
    && Ascending(l.acksSent)
    && (forall c: int :: c in l.acksSent <==> Known(taken, c))
    && (forall e :: e in l.log <==> TakenSome(taken, e))
    && (NoRepeats(l.log) <==> !Late(taken))
  }

  lemma {:induction false} TakeOneRecorded(l: Ledger, taken: seq<seq<Entry>>, packet: seq<Entry>, queued: seq<Entry>)
    requires OfQueue(taken + [packet], queued) && Recorded(l, taken) && l.first
    ensures Recorded(AbsorbAll(l, packet), taken + [packet])
  {
    assert (taken + [packet])[|taken|] == packet;
    assert AscendingEntries(packet);
    hide OfQueue, AscendingEntries, Known, TakenSome, Late, NoRepeats, AbsorbAll, Ascending, HasCounter;
    var l' := AbsorbAll(l, packet);
    AbsorbAllEffect(l, packet);
    forall c: int
      ensures c in l'.acksSent <==> Known(taken + [packet], c)
    {
      KnownPush(taken, packet, c);
    }
    forall e: Entry
      ensures e in l'.log <==> TakenSome(taken + [packet], e)
    {
      TakenSomePush(taken, packet, e);
      KnownIsTaken(l, taken, packet, queued, e);
    }
    LatePush(taken, packet, queued);
    assert NoneBack(l, packet) <==> !BringsBack(taken, packet);
  }

  lemma KnownIsTaken(l: Ledger, taken: seq<seq<Entry>>, packet: seq<Entry>, queued: seq<Entry>, e: Entry)
    requires OfQueue(taken + [packet], queued) && Recorded(l, taken)
    ensures e in packet && e.Counter() in l.acksSent ==> e in l.log
  {
    hide Overtakes, HasCounter, AscendingEntries, Late;
    if e in packet && e.Counter() in l.acksSent {
      var all := taken + [packet];
      var m :| 0 <= m < |taken| && KnownSince(taken, m, e.Counter());
      assert all[m] == taken[m] && all[|taken|] == packet;
      CarriesKnown(all, queued, m, e, |taken|);
      assert TakenSome(taken, e);
    }
  }

  // --- Over whole runs

  /** The packets that an endpoint takes during a run, as the messages they carry. */
  ghost function TakenBy(s: System, steps: seq<Step>, atLeft: bool): seq<seq<Entry>>
    decreases |steps|
  {
    if steps == [] then [] else TakenInStep(s, steps[0], atLeft) + TakenBy(Next(s, steps[0]), steps[1..], atLeft)
  }

  ghost function TakenInStep(s: System, step: Step, atLeft: bool): seq<seq<Entry>> {
    var sent := Sender(s, atLeft).sent;
    if && step.Arrive? && step.atLeft == atLeft && step.index < |sent| && sent[step.index] != []
       && Accepts(Receiver(s, atLeft).conn.incoming, CounterFromSeq(sent[step.index][0].seqNum))
    then [Carried(PacketOnWire(sent[step.index]))]
    else []
  }

  ghost function LedgerAt(s: System, atLeft: bool): Ledger {
    ReceiverLedger(Towards(Sender(s, atLeft), Receiver(s, atLeft)))
  }

  lemma SendingKeepsReceiver(x: Side, payload: Payload, requiresAck: bool, cause: nat, now: int)
    ensures ActService(x, cause, now).conn.acksSent == x.conn.acksSent
    ensures ActService(x, cause, now).delivered == x.delivered && ActService(x, cause, now).queued == x.queued
    ensures ActMessage(x, payload, requiresAck, now).conn.acksSent == x.conn.acksSent
    ensures ActMessage(x, payload, requiresAck, now).delivered == x.delivered
    ensures x.queued <= ActMessage(x, payload, requiresAck, now).queued
  {
    hide PrepareMain, PrepareService, Entries;
    ServiceKeepsAcksSent(x.conn, cause, now);
    if CounterLeft(x.conn, requiresAck) {
      var main := Msg(MakeSeq(x.conn.counter + 1, requiresAck, !HaveAdditional(x.conn) && !requiresAck), payload);
      MainKeepsAcksSent(x.conn.(counter := x.conn.counter + 1), main, requiresAck, now);
    }
  }

  lemma ServiceKeepsAcksSent(c: Conn, cause: nat, now: int)
    ensures PrepareService(c, cause, now).conn.acksSent == c.acksSent
  {
    hide AppendAdditional, AckCount, ResendCount, SameMessages;
    var c0 := ClearTimer(c, cause);
    if HaveAdditional(c0) && CounterLeft(c0, false) {
      AppendAdditionalEffect(c0.(counter := c0.counter + 1), EMPTY_SERIALIZED_SIZE, now);
    }
  }

  lemma MainKeepsAcksSent(c: Conn, main: Item, requiresAck: bool, now: int)
    requires main.Msg?
    ensures PrepareMain(c, main, requiresAck, now).conn.acksSent == c.acksSent
  {
    hide AppendAdditional, AckCount, ResendCount, SameMessages, PrepareService, ItemBytes;
    AppendAdditionalEffect(c, |ItemBytes(main)|, now);
    var queued := Pending(main.seqNum, main.payload, now);
    ServiceKeepsAcksSent(c.(pending := MakeDue(c.pending + [queued])), CAUSE_NONE, now);
  }

  /** The records after one step, and what they are records of. */
  ghost predicate SideRecorded(s: System, atLeft: bool, taken: seq<seq<Entry>>) {
    Recorded(LedgerAt(s, atLeft), taken) && OfQueue(taken, Sender(s, atLeft).queued)
  }

  lemma SameRecords(a: Ledger, b: Ledger, taken: seq<seq<Entry>>)
    requires Recorded(a, taken) && a.acksSent == b.acksSent && a.log == b.log
    ensures Recorded(b, taken)
  {
  }

  lemma OfLongerQueue(taken: seq<seq<Entry>>, queued: seq<Entry>, more: seq<Entry>)
    requires OfQueue(taken, queued) && queued <= more && AscendingEntries(more)
    ensures OfQueue(taken, more)
  {
    hide AscendingEntries;
  }

  lemma SafeQueueAscends(s: System, atLeft: bool)
    requires Safe(s, false)
    ensures var x := Sender(s, atLeft);
            && AscendingEntries(x.queued)
            && forall k | 0 <= k < |x.sent| ::
              && PacketOk(s.form, x.conn.kind, x.sent[k])
              && AscendingEntries(Carried(PacketOnWire(x.sent[k])))
              && Within(Carried(PacketOnWire(x.sent[k])), x.queued)
  {
    hide OnceInv, NothingLost, GapFree, Honest, AcksOk, PacketOk, AscendingEntries, AllBefore, QueueTravels;
    var x, y := Sender(s, atLeft), Receiver(s, atLeft);
    assert Good(s.form, x, y, false);
    var ch := Towards(x, y);
    assert QueueOk(ch) && AllBacked(ch) && PacketsAscend(ch);
    forall k | 0 <= k < |x.sent|
      ensures AscendingEntries(Carried(PacketOnWire(x.sent[k])))
      ensures Within(Carried(PacketOnWire(x.sent[k])), x.queued)
    {
      assert Backed(ch.packets[k], ch.queued, ch.delivered);
    }
  }

  /** Steps other than an arrival on one side leave the records of that side alone. */
  lemma QuietStep(s: System, step: Step, atLeft: bool)
    requires !(step.Arrive? && step.atLeft == atLeft)
    ensures Receiver(Next(s, step), atLeft).conn.acksSent == Receiver(s, atLeft).conn.acksSent
    ensures Receiver(Next(s, step), atLeft).delivered == Receiver(s, atLeft).delivered
    ensures Sender(s, atLeft).queued <= Sender(Next(s, step), atLeft).queued
  {
    hide CanSend, ActMessage, ActService;
    match step
    case SendMessage(byLeft, payload, requiresAck, now) =>
      SendingKeepsReceiver(if byLeft then s.left else s.right, payload, requiresAck, 0, now);
    case SendService(byLeft, cause, now) =>
      SendingKeepsReceiver(if byLeft then s.left else s.right, Raw([]), false, cause, now);
    case Arrive(_, _) =>
  }

  lemma StepRecorded(s: System, step: Step, atLeft: bool, taken: seq<seq<Entry>>)
    requires Safe(s, false) && SideRecorded(s, atLeft, taken)
    ensures SideRecorded(Next(s, step), atLeft, taken + TakenInStep(s, step, atLeft))
  {
    var s' := Next(s, step);
    SafeQueueAscends(s, atLeft);
    StepKeepsSafe(s, step, false);
    SafeQueueAscends(s', atLeft);
    hide Safe, Recorded, AscendingEntries, Within, Next;
    if step.Arrive? && step.atLeft == atLeft {
      if step.index < |Sender(s, atLeft).sent| {
        hide OfQueue;
        ArrivalRecorded(s, step.index, atLeft, taken);
      } else {
        NothingArrives(s, step);
        assert taken + [] == taken;
      }
    } else {
      QuietStep(s, step, atLeft);
      SameRecords(LedgerAt(s, atLeft), LedgerAt(s', atLeft), taken);
      OfLongerQueue(taken, Sender(s, atLeft).queued, Sender(s', atLeft).queued);
      assert taken + [] == taken;
    }
  }

  lemma NothingArrives(s: System, step: Step)
    requires step.Arrive? && |Sender(s, step.atLeft).sent| <= step.index
    ensures Next(s, step) == s
  {
  }

  lemma ArrivalRecorded(s: System, index: nat, atLeft: bool, taken: seq<seq<Entry>>)
    requires SideRecorded(s, atLeft, taken) && index < |Sender(s, atLeft).sent|
    requires var x := Sender(s, atLeft);
             && PacketOk(s.form, x.conn.kind, x.sent[index])
             && AscendingEntries(Carried(PacketOnWire(x.sent[index])))
             && Within(Carried(PacketOnWire(x.sent[index])), x.queued)
    ensures var step := Arrive(atLeft, index);
            SideRecorded(Next(s, step), atLeft, taken + TakenInStep(s, step, atLeft))
  {
    var x, y := Sender(s, atLeft), Receiver(s, atLeft);
    var packet, step := x.sent[index], Arrive(atLeft, index);
    var s' := Next(s, step);
    assert packet != [];
    assert Sender(s', atLeft) == x && Receiver(s', atLeft) == ActArrive(y, s.form, packet, index);
    hide Recorded, AscendingEntries, Within, PacketOk, Carried, PacketOnWire, ActArrive, Next;
    if Accepts(y.conn.incoming, CounterFromSeq(packet[0].seqNum)) {
      var carried := Carried(PacketOnWire(packet));
      ArrivalSteps(s.form, x, y, index);
      OneMoreOfQueue(taken, carried, x.queued);
      TakeOneRecorded(LedgerAt(s, atLeft), taken, carried, x.queued);
      SameRecords(AbsorbAll(LedgerAt(s, atLeft), carried), LedgerAt(s', atLeft), taken + [carried]);
    } else {
      DroppedChangesNothing(s.form, x, y, index);
      SameRecords(LedgerAt(s, atLeft), LedgerAt(s', atLeft), taken);
      assert taken + [] == taken;
    }
  }

  lemma OneMoreOfQueue(taken: seq<seq<Entry>>, packet: seq<Entry>, queued: seq<Entry>)
    requires OfQueue(taken, queued) && AscendingEntries(packet) && Within(packet, queued)
    ensures OfQueue(taken + [packet], queued)
  {
    hide AscendingEntries, Within;
  }

  lemma {:induction false} RunRecorded(s: System, steps: seq<Step>, atLeft: bool, taken: seq<seq<Entry>>)
    requires Safe(s, false) && SideRecorded(s, atLeft, taken)
    ensures SideRecorded(Run(s, steps), atLeft, taken + TakenBy(s, steps, atLeft))
    decreases |steps|
  {
    hide Safe, SideRecorded, Next, TakenInStep;
    if steps == [] {
      assert taken + [] == taken;
    } else {
      var s1, now := Next(s, steps[0]), TakenInStep(s, steps[0], atLeft);
      StepRecorded(s, steps[0], atLeft, taken);
      StepKeepsSafe(s, steps[0], false);
      RunRecorded(s1, steps[1..], atLeft, taken + now);
      assert taken + now + TakenBy(s1, steps[1..], atLeft) == taken + TakenBy(s, steps, atLeft);
    }
  }

  lemma StartIsRecorded(form: Form, kind: Kind, atLeft: bool)
    ensures SideRecorded(Start(form, kind), atLeft, [])
  {
    assert forall c: int :: !Known([], c);
  }

  /** Over any network, on either side: a message is handed up twice exactly when some packet carrying it
      is taken after a packet that starts above it, itself taken after one that carried it. */
  lemma {:induction false} RepeatsIffLate(form: Form, kind: Kind, steps: seq<Step>, atLeft: bool)
    ensures NoRepeats(Receiver(Run(Start(form, kind), steps), atLeft).delivered)
       <==> !Late(TakenBy(Start(form, kind), steps, atLeft))
  {
    StartIsSafe(form, kind, false);
    StartIsRecorded(form, kind, atLeft);
    var taken := TakenBy(Start(form, kind), steps, atLeft);
    RunRecorded(Start(form, kind), steps, atLeft, []);
    hide Run, Start, TakenBy, NoRepeats, Late;
    assert [] + taken == taken;
  }
}
