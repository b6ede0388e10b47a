// Hosts that make a service call only to answer a request, as the callers of _requestSendService do: when a
// message whose packet was lost is handed up after all.
module Requests {
  import opened Wire
  import opened Connection
  import opened Delivery
  import opened Sending
  import opened Link
  import opened Oversize
  import opened Progress
  import opened Recovery
  import Acknowledgements
  import Endpoint

  // --- Requests and answers

  /** How many service calls a side has made for a cause. */
  function Served(steps: seq<Step>, byLeft: bool, cause: nat): nat {
    if steps == [] then 0
    else
      var last := steps[|steps| - 1];
      Served(steps[..|steps| - 1], byLeft, cause)
      + (if last.SendService? && last.byLeft == byLeft && last.cause == cause then 1 else 0)
  }

  /** How many requests of a side for a cause are unanswered. */
  ghost function Open(form: Form, kind: Kind, steps: seq<Step>, byLeft: bool, cause: nat): int {
    Endpoint.Count(Sender(Run(Start(form, kind), steps), !byLeft).conn.requests, cause) - Served(steps, byLeft, cause)
  }

  ghost predicate NoneOpen(form: Form, kind: Kind, steps: seq<Step>, byLeft: bool) {
    forall cause :: Open(form, kind, steps, byLeft, cause) <= 0
  }

  /** Every service call answers a request. */
  ghost predicate Answers(form: Form, kind: Kind, before: seq<Step>, after: seq<Step>) {
    forall k | 0 <= k < |after| && after[k].SendService? ::
      Open(form, kind, before + after[..k], after[k].byLeft, after[k].cause) > 0
  }

  ghost predicate NothingIsSent(after: seq<Step>) {
    forall k | 0 <= k < |after| :: !after[k].SendMessage?
  }

  // --- Without a request nothing happens

  lemma {:induction false} ServedPush(steps: seq<Step>, step: Step, byLeft: bool, cause: nat)
    ensures Served(steps + [step], byLeft, cause)
         == Served(steps, byLeft, cause)
            + (if step.SendService? && step.byLeft == byLeft && step.cause == cause then 1 else 0)
  {
    assert (steps + [step])[..|steps|] == steps;
  }

  lemma ArrivalOfNothing(s: System, step: Step)
    requires step.Arrive? && |Sender(s, step.atLeft).sent| <= step.index
    ensures Next(s, step) == s
  {
  }

  lemma {:induction false} RunPush(s: System, steps: seq<Step>, step: Step)
    ensures Run(s, steps + [step]) == Next(Run(s, steps), step)
  {
    hide Next;
    RunConcat(s, steps, [step]);
    var s' := Run(s, steps);
    assert [step][1..] == [];
    assert Run(s', [step]) == Run(Next(s', step), []);
  }

  lemma {:induction false} QuietRun(form: Form, kind: Kind, before: seq<Step>, after: seq<Step>)
    requires NoneOpen(form, kind, before, true) && NoneOpen(form, kind, before, false)
    requires NothingIsSent(after) && Answers(form, kind, before, after)
    requires InFlightIsLost(Run(Start(form, kind), before), after)
    ensures Run(Run(Start(form, kind), before), after) == Run(Start(form, kind), before)
    decreases |after|
  {
    hide Next, Start, Served, Endpoint.Count, Run;
    var s := Run(Start(form, kind), before);
    if after == [] {
      RunNothing(s);
    } else {
      var step, rest := after[0], after[1..];
      FirstIsAnswer(form, kind, before, after);
      assert step.Arrive?;
      ArrivalOfNothing(s, step);
      RunPush(Start(form, kind), before, step);
      RestAnswers(form, kind, before, after);
      forall byLeft, cause
        ensures Open(form, kind, before + [step], byLeft, cause) == Open(form, kind, before, byLeft, cause)
      {
        ServedPush(before, step, byLeft, cause);
      }
      QuietRun(form, kind, before + [step], rest);
      RunFirst(s, after);
    }
  }

  lemma {:induction false} RunNothing(s: System)
    ensures Run(s, []) == s
  {
  }

  lemma {:induction false} RunFirst(s: System, steps: seq<Step>)
    requires steps != []
    ensures Run(s, steps) == Run(Next(s, steps[0]), steps[1..])
  {
  }

  lemma FirstIsAnswer(form: Form, kind: Kind, before: seq<Step>, after: seq<Step>)
    requires after != [] && Answers(form, kind, before, after)
    ensures after[0].SendService? ==> Open(form, kind, before, after[0].byLeft, after[0].cause) > 0
  {
    hide Open;
    assert before + after[..0] == before;
  }

  lemma RestAnswers(form: Form, kind: Kind, before: seq<Step>, after: seq<Step>)
    requires after != [] && Answers(form, kind, before, after)
    ensures Answers(form, kind, before + [after[0]], after[1..])
  {
    hide Open;
    forall k | 0 <= k < |after[1..]| && after[1..][k].SendService?
      ensures Open(form, kind, before + [after[0]] + after[1..][..k], after[1..][k].byLeft, after[1..][k].cause) > 0
    {
      assert before + [after[0]] + after[1..][..k] == before + after[..k + 1];
    }
  }

  // --- One answer brings the first message

  /** The side that sends towards that side, its flag for the cause lowered. */
  ghost function Cleared(s: System, atLeft: bool, cause: nat): System {
    var x := Sender(s, atLeft);
    var x' := x.(conn := ClearTimer(x.conn, cause));
    if atLeft then s.(right := x') else s.(left := x')
  }

  lemma ClearedService(s: System, atLeft: bool, cause: nat, now: int)
    ensures Next(s, Step.SendService(!atLeft, cause, now))
         == Next(Cleared(s, atLeft, cause), Step.SendService(!atLeft, CAUSE_NONE, now))
  {
    hide AppendAdditional;
  }

  lemma ClearedIsReady(s: System, atLeft: bool, cause: nat)
    requires Ready(s)
    ensures Ready(Cleared(s, atLeft, cause))
  {
    ReadySides(s, atLeft);
    var x, y := Sender(s, atLeft), Receiver(s, atLeft);
    var x' := x.(conn := ClearTimer(x.conn, cause));
    GoodHasSide(s.form, y, x, false);
    GoodHasSide(s.form, x, y, false);
    assert Orderly(x', y) && Orderly(y, x');
    hide Good, SideOk, SameMessages, Orderly, Ready;
    SameMessagesReflexive(x.conn.pending);
    UnseenKeeps(s.form, x, y, false, x'.conn);
    GoodIsMutual(s.form, x', y, false);
    MakesReady(Cleared(s, atLeft, cause), atLeft);
  }

  lemma MakesReady(s: System, atLeft: bool)
    requires Orderly(Sender(s, atLeft), Receiver(s, atLeft)) && Orderly(Receiver(s, atLeft), Sender(s, atLeft))
    requires Good(s.form, Sender(s, atLeft), Receiver(s, atLeft), false)
    requires Good(s.form, Receiver(s, atLeft), Sender(s, atLeft), false)
    ensures Ready(s)
  {
    hide Orderly, Good;
  }

  lemma HeadIsHandedUp(s: System, atLeft: bool, now: int)
    requires Ready(s) && Sender(s, atLeft).conn.pending != [] && Sender(s, atLeft).conn.counter < MAX_ALLOWED_COUNTER
    requires MessagesTaken(Sender(s, atLeft).conn, now) > 0
    ensures EntryOf(Sender(s, atLeft).conn.pending[0]) in Receiver(Ping(s, atLeft, now), atLeft).delivered
  {
    hide Ready, PrepareService, Ping, AbsorbAll, Carried, AcksIn, AckAll, PacketOnWire, Good, AcksTaken;
    hide MessagesTaken, QueueTravels, Orderly, Endpoint.SeqsOf, SameMessages, Entries, EntryOf;
    var x, y := Sender(s, atLeft), Receiver(s, atLeft);
    var s' := Ping(s, atLeft, now);
    var x', y' := Sender(s', atLeft), Receiver(s', atLeft);
    PingArrives(s, atLeft, now);
    ReadyTravels(s, atLeft);
    ServiceCarries(s.form, x.conn, now);
    FirstSeq(x.conn.pending, MessagesTaken(x.conn, now));
    ReadySides(s, atLeft);
    OrderlyWindow(y, x);
    Acknowledgements.AbsorbedAcks(LedgerOfSide(y), Entries(x.conn.pending[..MessagesTaken(x.conn, now)]));
    SameFirst(x.conn.pending, x'.conn.pending);
    ReadySides(s', atLeft);
    if EntryOf(x'.conn.pending[0]) !in y'.delivered {
      NotHandedUp(s'.form, x', y', 0);
      NotAcknowledged(s'.form, x', y', x'.conn.pending[0].seqNum);
    }
  }

  lemma SameFirst(a: seq<Pending>, b: seq<Pending>)
    requires SameMessages(a, b) && a != []
    ensures b != [] && EntryOf(a[0]) == EntryOf(b[0]) && a[0].seqNum == b[0].seqNum
  {
    assert a[0].AsItem() == b[0].AsItem();
  }

  /** The first message fits behind the acknowledgements that wait. */
  predicate HeadFits(c: Conn)
    requires c.pending != []
  {
    MSG_KEY_SIZE + EMPTY_SERIALIZED_SIZE + ACK_SERIALIZED_SIZE * AcksTaken(c) + |ItemBytes(c.pending[0].AsItem())|
    <= PacketLimit(c.kind)
  }

  lemma FittingIsTaken(c: Conn, cause: nat) returns (now: int)
    requires c.pending != [] && HeadFits(c)
    ensures MessagesTaken(ClearTimer(c, cause), now) > 0
  {
    hide ItemBytes;
    now := if c.pending[0].lastSent < 0 then 5000 else c.pending[0].lastSent + 5000;
  }

  /** Answering one request: a run in which nothing sent before arrives. */
  lemma OneAnswer(form: Form, kind: Kind, before: seq<Step>, atLeft: bool, cause: nat) returns (after: seq<Step>)
    requires var x := Sender(Run(Start(form, kind), before), atLeft).conn;
             x.pending != [] && HeadFits(x) && x.counter < MAX_ALLOWED_COUNTER
    requires Open(form, kind, before, !atLeft, cause) > 0
    ensures var s := Run(Start(form, kind), before);
            && NothingIsSent(after) && InFlightIsLost(s, after) && Answers(form, kind, before, after)
            && EntryOf(Sender(s, atLeft).conn.pending[0]) in Receiver(Run(s, after), atLeft).delivered
  {
    hide Run, Start, Ready, Open, HeadFits, EntryOf, MessagesTaken, Ping;
    StartIsReady(form, kind);
    RunKeepsReady(Start(form, kind), before);
    var s := Run(Start(form, kind), before);
    var x := Sender(s, atLeft);
    var now := FittingIsTaken(x.conn, cause);
    var index := |x.sent|;
    after := [Step.SendService(!atLeft, cause, now), Arrive(atLeft, index)];
    assert before + after[..0] == before;
    var s' := Cleared(s, atLeft, cause);
    ClearedIsReady(s, atLeft, cause);
    ClearedSender(s, atLeft, cause);
    HeadIsHandedUp(s', atLeft, now);
    AnswerIsPing(s, atLeft, cause, now);
  }

  lemma ClearedSender(s: System, atLeft: bool, cause: nat)
    ensures var x, x' := Sender(s, atLeft), Sender(Cleared(s, atLeft, cause), atLeft);
            && x' == x.(conn := ClearTimer(x.conn, cause)) && x'.conn.pending == x.conn.pending
            && x'.conn.counter == x.conn.counter
  {
  }

  lemma {:induction false} AnswerIsPing(s: System, atLeft: bool, cause: nat, now: int)
    ensures Run(s, [Step.SendService(!atLeft, cause, now), Arrive(atLeft, |Sender(s, atLeft).sent|)])
         == Ping(Cleared(s, atLeft, cause), atLeft, now)
  {
    hide Next;
    var steps := [Step.SendService(!atLeft, cause, now), Arrive(atLeft, |Sender(s, atLeft).sent|)];
    ClearedService(s, atLeft, cause, now);
    ClearedSender(s, atLeft, cause);
    assert steps[1..][1..] == [];
    assert Run(s, steps) == Run(Next(s, steps[0]), steps[1..]) == Run(Next(Next(s, steps[0]), steps[1]), []);
  }

  // --- Main results

  /** The message at the head of the queue is handed up in some continuation in which nothing is sent, nothing
      in flight arrives and every service call answers a request. */
  ghost predicate CanBeHandedUp(form: Form, kind: Kind, before: seq<Step>, atLeft: bool)
    requires Sender(Run(Start(form, kind), before), atLeft).conn.pending != []
  {
    var s := Run(Start(form, kind), before);
    exists after ::
      && NothingIsSent(after) && InFlightIsLost(s, after) && Answers(form, kind, before, after)
      && EntryOf(Sender(s, atLeft).conn.pending[0]) in Receiver(Run(s, after), atLeft).delivered
  }

  /** From any reachable state with a counter left, a first message that fits, and no request of the other side
      unanswered: when all that is in flight is lost and nothing is sent, that message can be handed up by
      answering requests exactly when it was already, or a request of its sender is unanswered. */
  lemma {:induction false} HandedUpIffRequested(form: Form, kind: Kind, before: seq<Step>, atLeft: bool)
    requires var x := Sender(Run(Start(form, kind), before), atLeft).conn;
             x.pending != [] && HeadFits(x) && x.counter < MAX_ALLOWED_COUNTER
    requires NoneOpen(form, kind, before, atLeft)
    ensures var s := Run(Start(form, kind), before);
            CanBeHandedUp(form, kind, before, atLeft)
            <==> || EntryOf(Sender(s, atLeft).conn.pending[0]) in Receiver(s, atLeft).delivered
                 || !NoneOpen(form, kind, before, !atLeft)
  {
    hide Run, Start, Open, HeadFits, EntryOf, Answers, InFlightIsLost;
    var s, byLeft := Run(Start(form, kind), before), !atLeft;
    if EntryOf(Sender(s, atLeft).conn.pending[0]) in Receiver(s, atLeft).delivered {
      NothingIsFine(form, kind, before);
      RunNothing(s);
      assert EntryOf(Sender(s, atLeft).conn.pending[0]) in Receiver(Run(s, []), atLeft).delivered;
    } else if cause: nat :| Open(form, kind, before, byLeft, cause) > 0 {
      var after := OneAnswer(form, kind, before, atLeft, cause);
    } else {
      assert NoneOpen(form, kind, before, !atLeft);
      forall after | NothingIsSent(after) && InFlightIsLost(s, after) && Answers(form, kind, before, after)
        ensures Run(s, after) == s
      {
        QuietRun(form, kind, before, after);
      }
    }
  }

  lemma {:induction false} NothingIsFine(form: Form, kind: Kind, before: seq<Step>)
    ensures InFlightIsLost(Run(Start(form, kind), before), []) && Answers(form, kind, before, [])
  {
    hide Run, Start;
  }

  /** From any reachable state without an unanswered request: a message sent with an empty queue whose packet is
      lost is never handed up, nor is anything else, unless something more is sent. */
  lemma LoneLossIsFinal(
      form: Form, kind: Kind, before: seq<Step>, payload: Payload, now: int, after: seq<Step>, atLeft: bool)
    requires Sender(Run(Start(form, kind), before), atLeft).conn.pending == []
    requires NoneOpen(form, kind, before, true) && NoneOpen(form, kind, before, false)
    requires var sent := before + [Step.SendMessage(!atLeft, payload, true, now)];
             && NothingIsSent(after) && Answers(form, kind, sent, after)
             && InFlightIsLost(Run(Start(form, kind), sent), after)
    ensures var s := Run(Start(form, kind), before + [Step.SendMessage(!atLeft, payload, true, now)]);
            Receiver(Run(s, after), atLeft).delivered == Receiver(Run(Start(form, kind), before), atLeft).delivered
  {
    hide Run, Start, Served, Endpoint.Count;
    var step := Step.SendMessage(!atLeft, payload, true, now);
    var s := Run(Start(form, kind), before);
    RunPush(Start(form, kind), before, step);
    LoneAsksNothing(s, payload, now, atLeft);
    forall byLeft, cause
      ensures Open(form, kind, before + [step], byLeft, cause) == Open(form, kind, before, byLeft, cause)
    {
      ServedPush(before, step, byLeft, cause);
    }
    QuietRun(form, kind, before + [step], after);
  }

  lemma LoneAsksNothing(s: System, payload: Payload, now: int, atLeft: bool)
    requires Sender(s, atLeft).conn.pending == []
    ensures var s' := Next(s, Step.SendMessage(!atLeft, payload, true, now));
            && Sender(s', atLeft).conn.requests == Sender(s, atLeft).conn.requests
            && Receiver(s', atLeft) == Receiver(s, atLeft)
  {
    hide CanSend, ItemBytes, CountAcks, Entries;
  }
}
