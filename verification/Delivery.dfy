// What a packet does to the receiving endpoint, seen as a list of messages
// requiring an acknowledgement, and when that keeps the order of sending.
module Delivery {
  import opened Prelude
  import opened Bytes
  import opened Wire
  import opened ReplayWindow
  import opened Connection

  predicate IsRequired(item: Item) {
    item.Msg? && RequiresAck(item.seqNum)
  }

  function CarriedBy(item: Item): seq<Entry> {
    if IsRequired(item) then [Entry(item.seqNum, item.payload)] else []
  }

  /** The messages requiring an acknowledgement among the items of a packet. */
  function Carried(items: seq<Item>): seq<Entry> {
    if items == [] then [] else CarriedBy(items[0]) + Carried(items[1..])
  }

  function AcksIn(items: seq<Item>): seq<uint32> {
    if items == [] then []
    else (if items[0].Ack? then [items[0].seqNum] else []) + AcksIn(items[1..])
  }

  /** Of the messages handed up, those that required an acknowledgement. */
  function Required(received: seq<Entry>): seq<Entry> {
    if received == [] then []
    else
      var last := received[|received| - 1];
      Required(received[..|received| - 1]) + (if RequiresAck(last.seqNum) then [last] else [])
  }

  lemma {:induction false} CarriedConcat(a: seq<Item>, b: seq<Item>)
    ensures Carried(a + b) == Carried(a) + Carried(b)
  {
    hide CarriedBy;
    if a == [] {
      assert a + b == b;
    } else {
      var head := CarriedBy(a[0]);
      assert (a + b)[1..] == a[1..] + b;
      CarriedConcat(a[1..], b);
      assert head + (Carried(a[1..]) + Carried(b)) == head + Carried(a[1..]) + Carried(b);
    }
  }

  lemma {:induction false} AcksInConcat(a: seq<Item>, b: seq<Item>)
    ensures AcksIn(a + b) == AcksIn(a) + AcksIn(b)
  {
    if a == [] {
      assert a + b == b;
    } else {
      var head := if a[0].Ack? then [a[0].seqNum] else [];
      assert (a + b)[1..] == a[1..] + b;
      AcksInConcat(a[1..], b);
      assert head + (AcksIn(a[1..]) + AcksIn(b)) == head + AcksIn(a[1..]) + AcksIn(b);
    }
  }

  // --- The part of the receiver that a message requiring an acknowledgement touches

  datatype Ledger = Ledger(acksSent: seq<nat>, acksToSend: seq<uint32>, first: bool, log: seq<Entry>)

  function Absorb(l: Ledger, e: Entry): Ledger {
    Ledger(
      RegisterSentAck(l.acksSent, e.Counter(), l.first),
      PostponeAck(l.acksToSend, e.seqNum),
      false,
      if AlreadyAcked(l.acksSent, e.Counter()) then l.log else l.log + [e])
  }

  function AbsorbAll(l: Ledger, entries: seq<Entry>): Ledger
    decreases |entries|
  {
    if entries == [] then l else AbsorbAll(Absorb(l, entries[0]), entries[1..])
  }

  function AckAll(pending: seq<Pending>, acks: seq<uint32>): seq<Pending>
    decreases |acks|
  {
    if acks == [] then pending else AckAll(AckMessage(pending, acks[0]), acks[1..])
  }

  function LedgerOf(c: Cursor, delivered: seq<Entry>): Ledger {
    Ledger(c.conn.acksSent, c.conn.acksToSend, c.firstRequired, delivered + Required(c.received))
  }

  lemma {:induction false} RequiredPush(received: seq<Entry>, e: Entry)
    ensures Required(received + [e]) == Required(received) + (if RequiresAck(e.seqNum) then [e] else [])
  {
    assert (received + [e])[..|received|] == received;
  }

  lemma ApplyOne(c: Cursor, item: Item, delivered: seq<Entry>)
    ensures LedgerOf(Apply(c, item), delivered)
         == if IsRequired(item) then Absorb(LedgerOf(c, delivered), Entry(item.seqNum, item.payload))
            else LedgerOf(c, delivered)
    ensures Apply(c, item).conn.pending
         == if item.Ack? then AckMessage(c.conn.pending, item.seqNum) else c.conn.pending
    ensures Apply(c, item).conn.counter == c.conn.counter && Apply(c, item).conn.kind == c.conn.kind
  {
    hide RegisterSentAck, PostponeAck, AlreadyAcked, Register, Accepts, Required, AckMessage;
    if item.Msg? {
      var e := Entry(item.seqNum, item.payload);
      RequiredPush(c.received, e);
      assert delivered + (Required(c.received) + [e]) == delivered + Required(c.received) + [e];
    }
  }

  /** A whole packet: its messages are absorbed in order, its acknowledgements taken in order. */
  lemma {:induction false} ApplyAbsorbs(c: Cursor, items: seq<Item>, delivered: seq<Entry>)
    ensures LedgerOf(ApplyAll(c, items), delivered) == AbsorbAll(LedgerOf(c, delivered), Carried(items))
    ensures ApplyAll(c, items).conn.pending == AckAll(c.conn.pending, AcksIn(items))
    ensures ApplyAll(c, items).conn.counter == c.conn.counter && ApplyAll(c, items).conn.kind == c.conn.kind
    decreases |items|
  {
    hide Apply, LedgerOf, Absorb, AckMessage, IsRequired;
    if items != [] {
      ApplyOne(c, items[0], delivered);
      ApplyAbsorbs(Apply(c, items[0]), items[1..], delivered);
      if IsRequired(items[0]) {
        assert Carried(items)[1..] == Carried(items[1..]);
      } else {
        assert Carried(items) == Carried(items[1..]);
      }
      if items[0].Ack? {
        assert AcksIn(items)[1..] == AcksIn(items[1..]);
      } else {
        assert AcksIn(items) == AcksIn(items[1..]);
      }
    }
  }

  // --- Order of delivery

  /** The counters of a list of messages ascend. */
  ghost predicate AscendingEntries(list: seq<Entry>) {
    forall i, j | 0 <= i < j < |list| :: list[i].Counter() < list[j].Counter()
  }

  /** Everything queued before e is in log. */
  ghost predicate AllBefore(queued: seq<Entry>, e: Entry, log: seq<Entry>) {
    forall i | 0 <= i < |queued| && queued[i].Counter() < e.Counter() :: queued[i] in log
  }

  /** Only queued messages are delivered, each after everything that was queued before it. */
  ghost predicate GapFree(queued: seq<Entry>, log: seq<Entry>) {
    && (forall k | 0 <= k < |log| :: log[k] in queued)
    && (forall k | 0 <= k < |log| :: AllBefore(queued, log[k], log[..k]))
  }

  /** What was queued before a message of the packet is delivered already or comes before it in the packet. */
  ghost predicate Backed(entries: seq<Entry>, queued: seq<Entry>, log: seq<Entry>) {
    forall j | 0 <= j < |entries| ::
      entries[j] in queued && AllBefore(queued, entries[j], log + entries[..j])
  }

  ghost predicate HasCounter(log: seq<Entry>, counter: int) {
    exists k | 0 <= k < |log| :: log[k].Counter() == counter
  }

  ghost predicate HasSeq(log: seq<Entry>, seqNum: uint32) {
    exists k | 0 <= k < |log| :: log[k].seqNum == seqNum
  }

  /** The receiver remembers and acknowledges only what it has delivered. */
  ghost predicate Honest(l: Ledger) {
    && Ascending(l.acksSent)
    && (forall c | c in l.acksSent :: HasCounter(l.log, c))
    && (forall s | s in l.acksToSend :: HasSeq(l.log, s))
  }

  lemma SameCounterSameEntry(queued: seq<Entry>, a: Entry, b: Entry)
    requires AscendingEntries(queued) && a in queued && b in queued && a.Counter() == b.Counter()
    ensures a == b
  {
    var i :| 0 <= i < |queued| && queued[i] == a;
    var j :| 0 <= j < |queued| && queued[j] == b;
    assert i == j;
  }

  lemma KnownCounterIsDelivered(queued: seq<Entry>, l: Ledger, e: Entry)
    requires AscendingEntries(queued) && GapFree(queued, l.log) && Honest(l) && e in queued
    requires AlreadyAcked(l.acksSent, e.Counter())
    ensures e in l.log
  {
    hide AllBefore, LowerBound;
    assert e.Counter() in l.acksSent;
    var k :| 0 <= k < |l.log| && l.log[k].Counter() == e.Counter();
    SameCounterSameEntry(queued, l.log[k], e);
  }

  lemma InsertContents(list: seq<nat>, p: nat, c: nat, a: int)
    requires p <= |list|
    ensures a in list[..p] + [c] + list[p..] <==> a == c || a in list
  {
    assert list == list[..p] + list[p..];
  }

  lemma SuffixContents(list: seq<nat>, p: nat, a: int)
    requires Ascending(list) && p <= |list|
    ensures a in list[p..] <==> p < |list| && a in list && list[p] <= a
  {
    assert list == list[..p] + list[p..];
  }

  /** registerSentAck leaves an ascending list: the old one, cut below the first counter of a packet, and the new counter. */
  lemma RegisterSentAckContents(list: seq<nat>, counter: nat, first: bool)
    requires Ascending(list)
    ensures Ascending(RegisterSentAck(list, counter, first))
    ensures AlreadyAcked(list, counter) <==> counter in list
    ensures forall c: int :: c in RegisterSentAck(list, counter, first)
                             <==> c == counter || (c in list && (first ==> counter < c))
  {
    hide LowerBound;
    LowerBoundFinds(list, counter);
    var p := LowerBound(list, counter);
    if first {
      FirstRegisters(list, counter);
    } else if !AlreadyAcked(list, counter) {
      SpliceKeepsAscending(list, 0, p, counter);
      assert list[0..p] == list[..p];
      forall c: int {
        InsertContents(list, p, counter, c);
      }
    }
  }

  lemma FirstRegisters(list: seq<nat>, counter: nat)
    requires Ascending(list)
    ensures Ascending(RegisterSentAck(list, counter, true))
    ensures forall c: int :: c in RegisterSentAck(list, counter, true) <==> c == counter || (c in list && counter < c)
  {
    var p := LowerBound(list, counter);
    var next := RegisterSentAck(list, counter, true);
    assert next == (if AlreadyAcked(list, counter) then [] else [counter]) + list[p..];
    hide LowerBound, RegisterSentAck;
    forall c: int
      ensures c in next <==> c == counter || (c in list && counter < c)
    {
      SuffixContents(list, p, c);
    }
  }

  lemma AllBeforeGrows(queued: seq<Entry>, e: Entry, log: seq<Entry>, more: seq<Entry>)
    requires AllBefore(queued, e, log)
    requires forall x | x in log :: x in more
    ensures AllBefore(queued, e, more)
  {
  }

  lemma GapFreePush(queued: seq<Entry>, log: seq<Entry>, e: Entry)
    requires GapFree(queued, log) && e in queued && AllBefore(queued, e, log)
    ensures GapFree(queued, log + [e])
  {
    hide AllBefore;
    var log' := log + [e];
    forall k | 0 <= k < |log'|
      ensures AllBefore(queued, log'[k], log'[..k])
    {
      if k < |log| {
        assert log'[..k] == log[..k];
      } else {
        assert log'[..k] == log;
      }
    }
  }

  lemma HonestAbsorb(l: Ledger, e: Entry)
    requires Honest(l)
    requires AlreadyAcked(l.acksSent, e.Counter()) ==> e in l.log
    ensures Honest(Absorb(l, e))
  {
    hide AlreadyAcked, RegisterSentAck;
    var l' := Absorb(l, e);
    RegisterSentAckContents(l.acksSent, e.Counter(), l.first);
    assert l.log <= l'.log && e in l'.log;
    assert HasCounter(l'.log, e.Counter()) && HasSeq(l'.log, e.seqNum);
    forall c | c in l'.acksSent
      ensures HasCounter(l'.log, c)
    {
      if c != e.Counter() {
        var k :| 0 <= k < |l.log| && l.log[k].Counter() == c;
        assert l'.log[k].Counter() == c;
      }
    }
    forall s | s in l'.acksToSend
      ensures HasSeq(l'.log, s)
    {
      if s != e.seqNum {
        assert s in l.acksToSend;
        var k :| 0 <= k < |l.log| && l.log[k].seqNum == s;
        assert l'.log[k].seqNum == s;
      }
    }
  }

  lemma AbsorbOne(queued: seq<Entry>, l: Ledger, e: Entry)
    requires AscendingEntries(queued) && GapFree(queued, l.log) && Honest(l)
    requires e in queued && AllBefore(queued, e, l.log)
    ensures GapFree(queued, Absorb(l, e).log) && Honest(Absorb(l, e))
    ensures l.log <= Absorb(l, e).log && e in Absorb(l, e).log
  {
    hide GapFree, Honest, AllBefore, AlreadyAcked, RegisterSentAck, PostponeAck;
    if AlreadyAcked(l.acksSent, e.Counter()) {
      KnownCounterIsDelivered(queued, l, e);
    } else {
      GapFreePush(queued, l.log, e);
    }
    HonestAbsorb(l, e);
  }

  /** A packet whose messages are backed by what was delivered before is absorbed without leaving a gap. */
  lemma {:induction false} AbsorbKeepsOrder(
    queued: seq<Entry>, base: seq<Entry>, entries: seq<Entry>, j: nat, l: Ledger)
    requires AscendingEntries(queued) && GapFree(queued, l.log) && Honest(l)
    requires Backed(entries, queued, base)
    requires j <= |entries| && base <= l.log && forall i | 0 <= i < j :: entries[i] in l.log
    ensures var l' := AbsorbAll(l, entries[j..]);
            GapFree(queued, l'.log) && Honest(l') && l.log <= l'.log
    decreases |entries| - j
  {
    hide GapFree, Honest, AllBefore, Absorb, AscendingEntries;
    if j < |entries| {
      var e := entries[j];
      AllBeforeGrows(queued, e, base + entries[..j], l.log);
      AbsorbOne(queued, l, e);
      assert entries[j..][1..] == entries[j + 1..];
      AbsorbKeepsOrder(queued, base, entries, j + 1, Absorb(l, e));
    }
  }

  // --- First deliveries

  /** The log without repetitions. */
  function Firsts(log: seq<Entry>): seq<Entry> {
    if log == [] then []
    else
      var last, before := log[|log| - 1], log[..|log| - 1];
      if last in before then Firsts(before) else Firsts(before) + [last]
  }

  ghost predicate SameElements(a: seq<Entry>, b: seq<Entry>) {
    forall x :: x in a <==> x in b
  }

  lemma GapFreeInit(queued: seq<Entry>, log: seq<Entry>, n: nat)
    requires GapFree(queued, log) && n <= |log|
    ensures GapFree(queued, log[..n])
  {
    hide AllBefore;
    forall k | 0 <= k < n
      ensures AllBefore(queued, log[..n][k], log[..n][..k])
    {
      assert log[..n][..k] == log[..k];
    }
  }

  lemma SameElementsPush(a: seq<Entry>, b: seq<Entry>, e: Entry)
    requires SameElements(a, b)
    ensures SameElements(a + [e], b + [e])
    ensures e in b ==> SameElements(a, b + [e])
  {
  }

  lemma {:induction false} FirstsUnfold(log: seq<Entry>, e: Entry)
    ensures Firsts(log + [e]) == if e in log then Firsts(log) else Firsts(log) + [e]
  {
    assert (log + [e])[..|log|] == log;
  }

  lemma PrefixPush(queued: seq<Entry>, a: seq<Entry>, e: Entry)
    requires a <= queued && |a| < |queued| && queued[|a|] == e
    ensures a + [e] <= queued
  {
  }

  lemma {:induction false} FirstsPush(queued: seq<Entry>, log: seq<Entry>, e: Entry)
    requires AscendingEntries(queued) && Firsts(log) <= queued
    requires SameElements(Firsts(log), log)
    requires e in queued && AllBefore(queued, e, log)
    ensures Firsts(log + [e]) <= queued
    ensures SameElements(Firsts(log + [e]), log + [e])
  {
    hide Firsts, AllBefore, AscendingEntries, SameElements;
    FirstsUnfold(log, e);
    SameElementsPush(Firsts(log), log, e);
    if e !in log {
      var n := |Firsts(log)|;
      assert Firsts(log) == queued[..n];
      var m :| 0 <= m < |queued| && queued[m] == e;
      FirstNotYetDelivered(queued, log, n, m);
      PrefixPush(queued, Firsts(log), e);
    }
  }

  lemma FirstsOfNothing()
    ensures Firsts([]) == [] && SameElements([], [])
  {
  }

  lemma GapFreeLast(queued: seq<Entry>, log: seq<Entry>)
    requires GapFree(queued, log) && log != []
    ensures log[|log| - 1] in queued && AllBefore(queued, log[|log| - 1], log[..|log| - 1])
  {
  }

  /** First deliveries come in the order of sending and without a gap. */
  lemma {:induction false} FirstsArePrefix(queued: seq<Entry>, log: seq<Entry>)
    requires AscendingEntries(queued) && GapFree(queued, log)
    ensures Firsts(log) <= queued
    ensures SameElements(Firsts(log), log)
  {
    hide GapFree, AllBefore, AscendingEntries, Firsts, SameElements;
    FirstsOfNothing();
    if log != [] {
      var e, before := log[|log| - 1], log[..|log| - 1];
      GapFreeLast(queued, log);
      GapFreeInit(queued, log, |log| - 1);
      FirstsArePrefix(queued, before);
      FirstsPush(queued, before, e);
      assert log == before + [e];
    }
  }

  lemma FirstNotYetDelivered(queued: seq<Entry>, log: seq<Entry>, n: nat, m: nat)
    requires AscendingEntries(queued) && n <= |queued| && m < |queued|
    requires SameElements(queued[..n], log)
    requires queued[m] !in log && AllBefore(queued, queued[m], log)
    ensures m == n
  {
    assert forall i | 0 <= i < n :: queued[i] in log by {
      assert forall i | 0 <= i < n :: queued[..n][i] in log;
    }
    assert forall i | n <= i < |queued| :: queued[i] !in log;
    assert n <= m;
    assert n == |queued| || queued[n] !in log;
  }

  // --- At most once, when no packet comes late

  /** Whatever was delivered is remembered, unless it is below the bound. */
  ghost predicate RemembersFrom(l: Ledger, bound: nat) {
    forall k | 0 <= k < |l.log| :: l.log[k].Counter() in l.acksSent || l.log[k].Counter() < bound
  }

  lemma AbsorbOnce(l: Ledger, e: Entry, bound: nat)
    requires Ascending(l.acksSent) && RemembersFrom(l, bound) && NoRepeats(l.log)
    requires bound <= e.Counter() && (l.first ==> e.Counter() == bound)
    ensures RemembersFrom(Absorb(l, e), bound) && NoRepeats(Absorb(l, e).log)
    ensures Ascending(Absorb(l, e).acksSent) && !Absorb(l, e).first
  {
    hide AlreadyAcked, RegisterSentAck, PostponeAck;
    RegisterSentAckContents(l.acksSent, e.Counter(), l.first);
    if !AlreadyAcked(l.acksSent, e.Counter()) {
      assert forall k | 0 <= k < |l.log| :: l.log[k] != e;
    }
  }

  /** Nothing is delivered twice if all messages of the packet are above what was forgotten. */
  lemma {:induction false} AbsorbAllOnce(l: Ledger, entries: seq<Entry>, bound: nat)
    requires Ascending(l.acksSent) && RemembersFrom(l, bound) && NoRepeats(l.log)
    requires forall j | 0 <= j < |entries| :: bound <= entries[j].Counter()
    requires l.first && entries != [] ==> entries[0].Counter() == bound
    ensures RemembersFrom(AbsorbAll(l, entries), bound) && NoRepeats(AbsorbAll(l, entries).log)
    decreases |entries|
  {
    hide Absorb, RemembersFrom, NoRepeats;
    if entries != [] {
      AbsorbOnce(l, entries[0], bound);
      AbsorbAllOnce(Absorb(l, entries[0]), entries[1..], bound);
    }
  }

  lemma {:induction false} NoRepeatsFirsts(log: seq<Entry>)
    requires NoRepeats(log)
    ensures Firsts(log) == log
  {
    if log != [] {
      NoRepeatsFirsts(log[..|log| - 1]);
      assert log == log[..|log| - 1] + [log[|log| - 1]];
    }
  }
}
