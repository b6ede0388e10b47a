// The same direction of the link when packets may be lost or doubled but never
// arrive after a packet sent later: the pruned list of counters is then enough.
module InOrder {
  import opened Prelude
  import opened ReplayWindow
  import opened Connection
  import opened Delivery
  import opened Channel

  /** The first messages of the packets ascend, and none is above the queue. */
  ghost predicate Ordered(ch: Channel) {
    && (forall i, k | 0 <= i < k < |ch.packets| && ch.packets[i] != [] && ch.packets[k] != [] ::
          ch.packets[i][0].Counter() <= ch.packets[k][0].Counter())
    && (forall k | 0 <= k < |ch.packets| && ch.packets[k] != [] :: NotBelow(ch.pending, ch.packets[k][0]))
  }

  ghost predicate NotBelow(pending: seq<Entry>, first: Entry) {
    forall e | e in pending :: first.Counter() <= e.Counter()
  }

  /** Some packet up to index next starts above the counter. */
  ghost predicate Overtaken(packets: seq<seq<Entry>>, next: nat, counter: nat) {
    exists j :: 0 <= j <= next && j < |packets| && packets[j] != [] && counter < packets[j][0].Counter()
  }

  /** A delivered message is still remembered, or no packet that may still come carries it. */
  ghost predicate Remembered(ch: Channel, next: nat) {
    forall k | 0 <= k < |ch.delivered| ::
      ch.delivered[k].Counter() in ch.acksSent || Overtaken(ch.packets, next, ch.delivered[k].Counter())
  }

  ghost predicate OnceInv(ch: Channel, next: nat) {
    Ordered(ch) && Remembered(ch, next) && NoRepeats(ch.delivered)
  }

  lemma EnqueueOnce(ch: Channel, next: nat, e: Entry)
    requires Inv(ch) && OnceInv(ch, next)
    requires forall x | x in ch.queued :: x.Counter() < e.Counter()
    ensures OnceInv(Enqueue(ch, e), next)
  {
    hide AllBefore, Honest, GapFree, AllDelivered, NoRepeats, Overtaken;
    var ch' := Enqueue(ch, e);
    forall k | 0 <= k < |ch'.packets| && ch'.packets[k] != []
      ensures NotBelow(ch'.pending, ch'.packets[k][0])
    {
      assert Backed(ch.packets[k], ch.queued, ch.delivered);
      assert ch.packets[k][0] in ch.queued;
      assert NotBelow(ch.pending, ch.packets[k][0]);
    }
  }

  lemma EmitOnce(ch: Channel, next: nat, n: nat)
    requires QueueOk(ch) && OnceInv(ch, next) && n <= |ch.pending|
    ensures OnceInv(Emit(ch, n), next)
  {
    hide NoRepeats;
    var ch' := Emit(ch, n);
    assert Ordered(ch') by {
      hide Overtaken, Remembered;
    }
    assert Remembered(ch', next) by {
      hide Ordered;
      forall k | 0 <= k < |ch.delivered| && Overtaken(ch.packets, next, ch.delivered[k].Counter())
        ensures Overtaken(ch'.packets, next, ch.delivered[k].Counter())
      {
        var j :| 0 <= j <= next && j < |ch.packets| && ch.packets[j] != []
                 && ch.delivered[k].Counter() < ch.packets[j][0].Counter();
        assert ch'.packets[j] == ch.packets[j];
      }
    }
  }

  lemma TakeAcksOnce(ch: Channel, next: nat, pending: seq<Entry>)
    requires OnceInv(ch, next) && Within(pending, ch.pending)
    ensures OnceInv(ch.(pending := pending), next)
  {
    hide AscendingEntries, NoRepeats, Overtaken;
    var ch' := ch.(pending := pending);
    forall k | 0 <= k < |ch'.packets| && ch'.packets[k] != []
      ensures NotBelow(ch'.pending, ch'.packets[k][0])
    {
      assert NotBelow(ch.pending, ch.packets[k][0]);
    }
  }

  lemma BoundOfPacket(ch: Channel, next: nat, k: nat)
    requires Ordered(ch) && Remembered(ch, next) && next <= k < |ch.packets| && ch.packets[k] != []
    ensures RemembersFrom(ReceiverLedger(ch), ch.packets[k][0].Counter())
  {
    hide NotBelow, AscendingEntries;
    forall i | 0 <= i < |ch.delivered|
      ensures ch.delivered[i].Counter() in ch.acksSent || ch.delivered[i].Counter() < ch.packets[k][0].Counter()
    {
      if ch.delivered[i].Counter() !in ch.acksSent {
        var j :| 0 <= j <= next && j < |ch.packets| && ch.packets[j] != []
                 && ch.delivered[i].Counter() < ch.packets[j][0].Counter();
        assert j == k || ch.packets[j][0].Counter() <= ch.packets[k][0].Counter();
      }
    }
  }

  /** What is remembered from the first message of packet k on is enough once packet k has come. */
  lemma RememberedAfter(ch: Channel, k: nat)
    requires k < |ch.packets| && ch.packets[k] != []
    requires RemembersFrom(ReceiverLedger(ch), ch.packets[k][0].Counter())
    ensures Remembered(ch, k)
  {
    forall i | 0 <= i < |ch.delivered| && ch.delivered[i].Counter() < ch.packets[k][0].Counter()
      ensures Overtaken(ch.packets, k, ch.delivered[i].Counter())
    {
      assert ch.packets[k] != [];
    }
  }

  lemma AbsorbsOnce(ch: Channel, next: nat, k: nat)
    requires Ascending(ch.acksSent)
    requires OnceInv(ch, next) && next <= k < |ch.packets| && ch.packets[k] != []
    requires AscendingEntries(ch.packets[k])
    ensures RemembersFrom(ReceiverLedger(Receive(ch, k)), ch.packets[k][0].Counter())
    ensures NoRepeats(Receive(ch, k).delivered)
  {
    hide NoRepeats, Overtaken, AbsorbAll;
    var bound := ch.packets[k][0].Counter();
    assert forall j | 0 <= j < |ch.packets[k]| :: bound <= ch.packets[k][j].Counter();
    BoundOfPacket(ch, next, k);
    AbsorbAllOnce(ReceiverLedger(ch), ch.packets[k], bound);
  }

  lemma ReceiveOnce(ch: Channel, next: nat, k: nat)
    requires Ascending(ch.acksSent)
    requires OnceInv(ch, next) && next <= k < |ch.packets| && AscendingEntries(ch.packets[k])
    ensures OnceInv(Receive(ch, k), k)
  {
    hide NoRepeats, Remembered, RemembersFrom, NotBelow;
    if ch.packets[k] == [] {
      assert Receive(ch, k) == ch;
      OvertakenLater(ch, next, k);
    } else {
      AbsorbsOnce(ch, next, k);
      hide AbsorbAll;
      RememberedAfter(Receive(ch, k), k);
    }
  }

  lemma OvertakenLater(ch: Channel, next: nat, k: nat)
    requires Remembered(ch, next) && next <= k
    ensures Remembered(ch, k)
  {
    forall i | 0 <= i < |ch.delivered| && Overtaken(ch.packets, next, ch.delivered[i].Counter())
      ensures Overtaken(ch.packets, k, ch.delivered[i].Counter())
    {
      var j :| 0 <= j <= next && j < |ch.packets| && ch.packets[j] != []
               && ch.delivered[i].Counter() < ch.packets[j][0].Counter();
      assert 0 <= j <= k;
    }
  }

  /** Without gaps and without repetitions the receiver has exactly a beginning of the queue. */
  lemma DeliveredIsPrefix(ch: Channel, next: nat)
    requires Inv(ch) && OnceInv(ch, next)
    ensures ch.delivered <= ch.queued
  {
    NoRepeatsFirsts(ch.delivered);
    FirstsArePrefix(ch.queued, ch.delivered);
  }
}
