// One direction of the link, stripped to what its safety rests on: the messages
// requiring an acknowledgement that the sender queued and put into packets, and
// the receiver's records of them.
module Channel {
  import opened Bytes
  import opened Connection
  import opened Delivery

  datatype Channel = Channel(
    counter: nat,                    // the last counter the sender used
    queued: seq<Entry>,              // every message ever put into the queue
    pending: seq<Entry>,             // those not yet acknowledged
    packets: seq<seq<Entry>>,        // the messages carried by each packet sent
    acksSent: seq<nat>,              // the receiver's pruned list of counters
    acksToSend: seq<uint32>,         // what the receiver is about to acknowledge
    ackPackets: seq<seq<uint32>>,    // the acknowledgements in each packet the receiver sent
    delivered: seq<Entry>)           // what the receiver handed up, in order

  // --- Steps

  function Bump(ch: Channel, counter: nat): Channel {
    ch.(counter := counter)
  }

  function Enqueue(ch: Channel, e: Entry): Channel {
    ch.(queued := ch.queued + [e], pending := ch.pending + [e])
  }

  /** A packet takes a prefix of the queue along. */
  function Emit(ch: Channel, n: nat): Channel
    requires n <= |ch.pending|
  {
    ch.(packets := ch.packets + [ch.pending[..n]])
  }

  /** The receiver sends some of the waiting acknowledgements and keeps others. */
  function EmitAcks(ch: Channel, acks: seq<uint32>, kept: seq<uint32>): Channel {
    ch.(acksToSend := kept, ackPackets := ch.ackPackets + [acks])
  }

  function ReceiverLedger(ch: Channel): Ledger {
    Ledger(ch.acksSent, ch.acksToSend, true, ch.delivered)
  }

  /** A packet arrives at the receiver and is taken. */
  function Receive(ch: Channel, k: nat): Channel
    requires k < |ch.packets|
  {
    var l := AbsorbAll(ReceiverLedger(ch), ch.packets[k]);
    ch.(acksSent := l.acksSent, acksToSend := l.acksToSend, delivered := l.log)
  }

  function DropSeq(pending: seq<Entry>, seqNum: uint32): seq<Entry> {
    if pending == [] then []
    else if pending[0].seqNum == seqNum then pending[1..]
    else [pending[0]] + DropSeq(pending[1..], seqNum)
  }

  function DropSeqs(pending: seq<Entry>, acks: seq<uint32>): seq<Entry>
    decreases |acks|
  {
    if acks == [] then pending else DropSeqs(DropSeq(pending, acks[0]), acks[1..])
  }

  /** A packet of the receiver arrives back at the sender. */
  function TakeAcks(ch: Channel, k: nat): Channel
    requires k < |ch.ackPackets|
  {
    ch.(pending := DropSeqs(ch.pending, ch.ackPackets[k]))
  }

  // --- The invariant under any loss, duplication and reordering

  ghost predicate Within(list: seq<Entry>, all: seq<Entry>) {
    forall e | e in list :: e in all
  }

  /** A message leaves the queue only after its delivery. */
  ghost predicate NothingLost(ch: Channel) {
    forall e | e in ch.queued :: e in ch.delivered || e in ch.pending
  }

  ghost predicate QueueOk(ch: Channel) {
    && AscendingEntries(ch.queued)
    && (forall e | e in ch.queued :: e.Counter() <= ch.counter)
    && AscendingEntries(ch.pending)
    && Within(ch.pending, ch.queued)
  }

  ghost predicate AllBacked(ch: Channel) {
    forall k | 0 <= k < |ch.packets| :: Backed(ch.packets[k], ch.queued, ch.delivered)
  }

  ghost predicate PacketsAscend(ch: Channel) {
    forall k | 0 <= k < |ch.packets| :: AscendingEntries(ch.packets[k])
  }

  ghost predicate AllDelivered(acks: seq<uint32>, delivered: seq<Entry>) {
    forall s | s in acks :: HasSeq(delivered, s)
  }

  ghost predicate AcksOk(ch: Channel) {
    forall k | 0 <= k < |ch.ackPackets| :: AllDelivered(ch.ackPackets[k], ch.delivered)
  }

  ghost predicate Inv(ch: Channel) {
    && QueueOk(ch)
    && NothingLost(ch)
    && AllBacked(ch)
    && PacketsAscend(ch)
    && GapFree(ch.queued, ch.delivered)
    && Honest(ReceiverLedger(ch))
    && AcksOk(ch)
  }

  lemma BumpKeeps(ch: Channel, counter: nat)
    requires Inv(ch) && ch.counter <= counter
    ensures Inv(Bump(ch, counter))
  {
    hide Honest, GapFree, Backed, AllDelivered;
  }

  // Enqueue

  lemma AllBeforeUnmoved(queued: seq<Entry>, e: Entry, x: Entry, log: seq<Entry>)
    requires AllBefore(queued, x, log) && x.Counter() <= e.Counter()
    ensures AllBefore(queued + [e], x, log)
  {
  }

  lemma BackedUnmoved(entries: seq<Entry>, queued: seq<Entry>, e: Entry, log: seq<Entry>)
    requires Backed(entries, queued, log)
    requires forall x | x in queued :: x.Counter() < e.Counter()
    ensures Backed(entries, queued + [e], log)
  {
    hide AllBefore;
    forall j | 0 <= j < |entries|
      ensures AllBefore(queued + [e], entries[j], log + entries[..j])
    {
      AllBeforeUnmoved(queued, e, entries[j], log + entries[..j]);
    }
  }

  lemma GapFreeUnmoved(queued: seq<Entry>, e: Entry, log: seq<Entry>)
    requires GapFree(queued, log)
    requires forall x | x in queued :: x.Counter() < e.Counter()
    ensures GapFree(queued + [e], log)
  {
    hide AllBefore;
    forall k | 0 <= k < |log|
      ensures AllBefore(queued + [e], log[k], log[..k])
    {
      AllBeforeUnmoved(queued, e, log[k], log[..k]);
    }
  }

  lemma AscendingPush(list: seq<Entry>, e: Entry)
    requires AscendingEntries(list) && forall x | x in list :: x.Counter() < e.Counter()
    ensures AscendingEntries(list + [e])
  {
  }

  lemma EnqueueKeeps(ch: Channel, e: Entry)
    requires Inv(ch) && e.Counter() <= ch.counter
    requires forall x | x in ch.queued :: x.Counter() < e.Counter()
    ensures Inv(Enqueue(ch, e))
  {
    var ch' := Enqueue(ch, e);
    AscendingPush(ch.queued, e);
    AscendingPush(ch.pending, e);
    GapFreeUnmoved(ch.queued, e, ch.delivered);
    assert QueueOk(ch') && NothingLost(ch');
    hide Honest, GapFree, Backed, AllDelivered, QueueOk, NothingLost;
    forall k | 0 <= k < |ch'.packets|
      ensures Backed(ch'.packets[k], ch'.queued, ch'.delivered)
    {
      BackedUnmoved(ch.packets[k], ch.queued, e, ch.delivered);
    }
  }

  // Emit

  lemma PrefixIsBacked(ch: Channel, n: nat)
    requires QueueOk(ch) && NothingLost(ch) && n <= |ch.pending|
    ensures Backed(ch.pending[..n], ch.queued, ch.delivered)
  {
    var entries := ch.pending[..n];
    forall j | 0 <= j < n
      ensures AllBefore(ch.queued, entries[j], ch.delivered + entries[..j])
    {
      forall i | 0 <= i < |ch.queued| && ch.queued[i].Counter() < entries[j].Counter()
        ensures ch.queued[i] in ch.delivered + entries[..j]
      {
        if ch.queued[i] !in ch.delivered {
          var t :| 0 <= t < |ch.pending| && ch.pending[t] == ch.queued[i];
          assert t < j;
          assert entries[..j][t] == ch.queued[i];
        }
      }
    }
  }

  lemma EmitKeeps(ch: Channel, n: nat)
    requires Inv(ch) && n <= |ch.pending|
    ensures Inv(Emit(ch, n))
  {
    assert AscendingEntries(ch.pending[..n]);
    hide Honest, GapFree, Backed, AllDelivered;
    PrefixIsBacked(ch, n);
    hide AscendingEntries;
  }

  lemma EmitAcksKeeps(ch: Channel, acks: seq<uint32>, kept: seq<uint32>)
    requires Inv(ch)
    requires forall s | s in acks || s in kept :: s in ch.acksToSend
    ensures Inv(EmitAcks(ch, acks, kept))
  {
    hide GapFree, Backed, HasSeq, HasCounter;
    assert AllDelivered(acks, ch.delivered);
  }

  // Receive

  lemma BackedGrows(entries: seq<Entry>, queued: seq<Entry>, log: seq<Entry>, more: seq<Entry>)
    requires Backed(entries, queued, log) && log <= more
    ensures Backed(entries, queued, more)
  {
    hide AllBefore;
    forall j | 0 <= j < |entries|
      ensures AllBefore(queued, entries[j], more + entries[..j])
    {
      AllBeforeGrows(queued, entries[j], log + entries[..j], more + entries[..j]);
    }
  }

  lemma AllDeliveredGrows(acks: seq<uint32>, log: seq<Entry>, more: seq<Entry>)
    requires AllDelivered(acks, log) && log <= more
    ensures AllDelivered(acks, more)
  {
    forall s | s in acks
      ensures HasSeq(more, s)
    {
      var k :| 0 <= k < |log| && log[k].seqNum == s;
      assert more[k].seqNum == s;
    }
  }

  /** What holds of the packets goes on holding as more is delivered. */
  lemma MoreDelivered(ch: Channel, more: seq<Entry>)
    requires AllBacked(ch) && AcksOk(ch) && NothingLost(ch) && ch.delivered <= more
    ensures var ch' := ch.(delivered := more); AllBacked(ch') && AcksOk(ch') && NothingLost(ch')
  {
    hide Backed, AllDelivered;
    forall i | 0 <= i < |ch.packets|
      ensures Backed(ch.packets[i], ch.queued, more)
    {
      BackedGrows(ch.packets[i], ch.queued, ch.delivered, more);
    }
    forall i | 0 <= i < |ch.ackPackets|
      ensures AllDelivered(ch.ackPackets[i], more)
    {
      AllDeliveredGrows(ch.ackPackets[i], ch.delivered, more);
    }
  }

  lemma ReceivedInOrder(ch: Channel, k: nat)
    requires Inv(ch) && k < |ch.packets|
    ensures var l := AbsorbAll(ReceiverLedger(ch), ch.packets[k]);
            GapFree(ch.queued, l.log) && Honest(l) && ch.delivered <= l.log
  {
    hide AbsorbAll, GapFree, Backed, AllDelivered, Honest, AscendingEntries, Within, NothingLost, AcksOk, PacketsAscend;
    var entries := ch.packets[k];
    assert entries[0..] == entries;
    AbsorbKeepsOrder(ch.queued, ch.delivered, entries, 0, ReceiverLedger(ch));
  }

  lemma ReceiveKeeps(ch: Channel, k: nat)
    requires Inv(ch) && k < |ch.packets|
    ensures Inv(Receive(ch, k))
    ensures ch.delivered <= Receive(ch, k).delivered
  {
    hide AbsorbAll, GapFree, AllBacked, AcksOk, NothingLost, HasSeq, HasCounter, AscendingEntries, Within;
    ReceivedInOrder(ch, k);
    MoreDelivered(ch, Receive(ch, k).delivered);
    SameRecords(ch.(delivered := Receive(ch, k).delivered), Receive(ch, k));
  }

  /** The records of the receiver are not part of these. */
  lemma SameRecords(a: Channel, b: Channel)
    requires a.packets == b.packets && a.queued == b.queued && a.pending == b.pending
    requires a.delivered == b.delivered && a.ackPackets == b.ackPackets
    ensures AllBacked(a) <==> AllBacked(b)
    ensures AcksOk(a) <==> AcksOk(b)
    ensures NothingLost(a) <==> NothingLost(b)
  {
    hide Backed, AllDelivered;
  }

  // Take acknowledgements

  lemma {:induction false} DropSeqContents(pending: seq<Entry>, seqNum: uint32)
    requires AscendingEntries(pending)
    ensures AscendingEntries(DropSeq(pending, seqNum))
    ensures Within(DropSeq(pending, seqNum), pending)
    ensures forall e | e in pending :: e in DropSeq(pending, seqNum) || e.seqNum == seqNum
  {
    if pending != [] {
      var rest := pending[1..];
      assert pending == [pending[0]] + rest;
      DropSeqContents(rest, seqNum);
      if pending[0].seqNum != seqNum {
        AscendingUnshift(pending[0], DropSeq(rest, seqNum));
      }
    }
  }

  lemma AscendingUnshift(e: Entry, list: seq<Entry>)
    requires AscendingEntries(list) && forall x | x in list :: e.Counter() < x.Counter()
    ensures AscendingEntries([e] + list)
  {
  }

  lemma SeqIsDelivered(ch: Channel, e: Entry, seqNum: uint32)
    requires QueueOk(ch) && GapFree(ch.queued, ch.delivered)
    requires e in ch.queued && e.seqNum == seqNum && HasSeq(ch.delivered, seqNum)
    ensures e in ch.delivered
  {
    hide AllBefore;
    var k :| 0 <= k < |ch.delivered| && ch.delivered[k].seqNum == seqNum;
    SameCounterSameEntry(ch.queued, ch.delivered[k], e);
  }

  lemma {:induction false} DropSeqKeeps(ch: Channel, seqNum: uint32)
    requires Inv(ch) && HasSeq(ch.delivered, seqNum)
    ensures Inv(ch.(pending := DropSeq(ch.pending, seqNum)))
  {
    var ch' := ch.(pending := DropSeq(ch.pending, seqNum));
    hide Honest, GapFree, Backed, AllDelivered, HasSeq;
    DropSeqContents(ch.pending, seqNum);
    forall e | e in ch'.queued
      ensures e in ch'.delivered || e in ch'.pending
    {
      if e in ch.pending && e !in ch'.pending {
        SeqIsDelivered(ch, e, seqNum);
      }
    }
  }

  lemma {:induction false} DropSeqsKeeps(ch: Channel, acks: seq<uint32>)
    requires Inv(ch) && AllDelivered(acks, ch.delivered)
    ensures Inv(ch.(pending := DropSeqs(ch.pending, acks)))
    decreases |acks|
  {
    hide Inv, DropSeq, HasSeq;
    if acks == [] {
      assert ch.(pending := ch.pending) == ch;
    } else {
      DropSeqKeeps(ch, acks[0]);
      DropSeqsKeeps(ch.(pending := DropSeq(ch.pending, acks[0])), acks[1..]);
    }
  }

  lemma TakeAcksKeeps(ch: Channel, k: nat)
    requires Inv(ch) && k < |ch.ackPackets|
    ensures Inv(TakeAcks(ch, k))
  {
    assert AllDelivered(ch.ackPackets[k], ch.delivered);
    hide Inv;
    DropSeqsKeeps(ch, ch.ackPackets[k]);
  }
}
