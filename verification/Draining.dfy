// Two peers in a state they can reach, and nothing but deliveries from there on: they come to rest after
// at most five, whatever the order, and so to an agreement.
module Draining {
  import opened Prelude
  import opened Negotiation
  import opened Exchange
  import opened CrossingOffers

  function Cost(f: Flight): nat {
    if f.isAnswer then 1 else 2
  }

  /** What is in flight: an offer may call for an answer, an answer for nothing. */
  function Weight(queue: seq<Flight>): nat {
    if queue == [] then 0 else Cost(queue[0]) + Weight(queue[1..])
  }

  function InFlight(s: System): nat {
    Weight(s.toInitiator) + Weight(s.toResponder)
  }

  ghost predicate OnlyDelivers(steps: seq<Step>) {
    forall i | 0 <= i < |steps| :: steps[i].Deliver?
  }

  lemma {:induction false} WeightAppend(queue: seq<Flight>, f: Flight)
    ensures Weight(queue + [f]) == Weight(queue) + Cost(f)
  {
    if queue == [] {
      assert [f][1..] == [];
    } else {
      assert (queue + [f])[1..] == queue[1..] + [f];
      WeightAppend(queue[1..], f);
    }
  }

  lemma {:induction false} ShortWeight(q: seq<Flight>)
    ensures |q| == 0 <==> Weight(q) == 0
    ensures |q| == 1 ==> Weight(q) == Cost(q[0])
    ensures |q| == 2 ==> Weight(q) == Cost(q[0]) + Cost(q[1])
    ensures |q| == 3 ==> Weight(q) == Cost(q[0]) + Cost(q[1]) + Cost(q[2])
    decreases |q|
  {
    if q != [] {
      ShortWeight(q[1..]);
    }
  }

  /** At most three contents are in flight, and one of three is an answer. */
  lemma LittleIsInFlight(s: System)
    requires Inv(s)
    ensures InFlight(s) <= 5
  {
    hide Flow, SideInv, UsedIds, Weight;
    ShortWeight(s.toInitiator);
    ShortWeight(s.toResponder);
  }

  /** What a side sends when contents arrive: nothing for an answer, at most an answer for an offer. */
  lemma {:induction false} OnlyAnswersAreSent(
      side: Side, contents: Contents, factory: AnswerFactory, queue: seq<Flight>)
    ensures var sent := ReceiveBy(side, contents, factory).sent;
            && Weight(queue + sent) <= Weight(queue) + 1
            && (side.peer.pending == Some(contents.exchangeId) ==> Weight(queue + sent) == Weight(queue))
  {
    hide Weight, GetAnswer, SetAnswer;
    var sent := ReceiveBy(side, contents, factory).sent;
    if sent == [] {
      assert queue + sent == queue;
    } else {
      WeightAppend(queue, sent[0]);
      assert sent == [sent[0]];
    }
  }

  /** A delivery takes something out of flight, and what comes of it is lighter. */
  lemma DeliveryIsLighter(s: System, step: Step)
    requires Inv(s) && step.Deliver? && Enabled(s, step)
    ensures InFlight(Next(s, step)) < InFlight(s)
  {
    hide Flow, SideInv, Shape, UsedIds, AnswersWell, ReceiveBy;
    var i, r := s.initiator.peer.pending, s.responder.peer.pending;
    if step.toInitiator {
      HeadToInitiator(i, r, s.toResponder, s.toInitiator);
      OnlyAnswersAreSent(s.initiator, s.toInitiator[0].contents, step.answerFactory, s.toResponder);
    } else {
      HeadToResponder(i, r, s.toResponder, s.toInitiator);
      OnlyAnswersAreSent(s.responder, s.toResponder[0].contents, step.answerFactory, s.toInitiator);
    }
  }

  lemma {:induction false} DeliveriesCount(s: System, steps: seq<Step>, result: System)
    requires Inv(s) && OnlyDelivers(steps) && Leads(s, steps, result)
    ensures |steps| + InFlight(result) <= InFlight(s)
    decreases |steps|
  {
    hide Inv, Enabled, Next, InFlight;
    if steps != [] {
      assert steps[0].Deliver?;
      StepKeeps(s, steps[0]);
      DeliveryIsLighter(s, steps[0]);
      assert OnlyDelivers(steps[1..]);
      DeliveriesCount(Next(s, steps[0]), steps[1..], result);
    }
  }

  lemma RestIff(s: System)
    ensures Idle(s) <==> InFlight(s) == 0
    ensures Idle(s) <==> !exists step: Step :: step.Deliver? && Enabled(s, step)
  {
    hide Weight, Accepting, AnswersWell, Leads;
    ShortWeight(s.toInitiator);
    ShortWeight(s.toResponder);
    if s.toInitiator != [] {
      MayAccept(s, true);
    }
    if s.toResponder != [] {
      MayAccept(s, false);
    }
  }

  /** From any reachable state, however deliveries are ordered and whatever the answering side's factory
      makes of them: there are at most five, and as long as anything is in flight one more can be made. */
  lemma {:induction false} DeliveriesEnd(before: seq<Step>, s: System, steps: seq<Step>, result: System)
    requires Leads(NewSystem(), before, s) && OnlyDelivers(steps) && Leads(s, steps, result)
    ensures |steps| <= 5
    ensures |steps| == 5 ==> Idle(result)
    ensures Idle(result) <==> !exists step: Step :: step.Deliver? && Enabled(result, step)
  {
    hide Inv, Leads, Enabled, Idle, InFlight, OnlyDelivers;
    InitialInv();
    RunKeeps(NewSystem(), before, s);
    RunKeeps(s, steps, result);
    LittleIsInFlight(s);
    DeliveriesCount(s, steps, result);
    RestIff(result);
  }

  /** From any reachable state at most five deliveries lead to rest, and there the sides agree. */
  lemma DrainsToAgreement(before: seq<Step>, s: System) returns (steps: seq<Step>, result: System)
    requires Leads(NewSystem(), before, s)
    ensures |steps| <= 5 && OnlyDelivers(steps) && Leads(s, steps, result) && Idle(result)
    ensures Coordinated(result.initiator.peer).outgoingContents == Coordinated(result.responder.peer).incomingContents
    ensures Coordinated(result.responder.peer).outgoingContents == Coordinated(result.initiator.peer).incomingContents
  {
    hide Inv, Accepting, Enabled, Next, Coordinated, Idle;
    InitialInv();
    RunKeeps(NewSystem(), before, s);
    steps, result := Drain(s);
    DeliveriesEnd(before, s, steps, result);
    LeadsConcat(NewSystem(), before, s, steps, result);
    assert Idle(result);
    IdleQueues(result);
    QuiescenceMeansAgreement(before + steps, result);
  }

  lemma IdleQueues(s: System)
    requires Idle(s)
    ensures s.toInitiator == [] && s.toResponder == []
  {
  }

  lemma {:induction false} LeadsConcat(s: System, a: seq<Step>, middle: System, b: seq<Step>, result: System)
    requires Leads(s, a, middle) && Leads(middle, b, result)
    ensures Leads(s, a + b, result)
    decreases |a|
  {
    hide Enabled, Next;
    if a == [] {
      assert a + b == b;
    } else {
      assert (a + b)[0] == a[0] && (a + b)[1..] == a[1..] + b;
      LeadsConcat(Next(s, a[0]), a[1..], middle, b, result);
    }
  }

  /** Deliver until nothing is in flight. */
  lemma Drain(s: System) returns (steps: seq<Step>, result: System)
    requires Inv(s)
    ensures OnlyDelivers(steps) && Leads(s, steps, result) && Idle(result)
    decreases InFlight(s)
  {
    hide Inv, Accepting, AnswersWell, Next, Enabled;
    if Idle(s) {
      steps, result := [], s;
    } else {
      var step := Deliver(s.toInitiator != [], Accepting());
      MayAccept(s, s.toInitiator != []);
      StepKeeps(s, step);
      DeliveryIsLighter(s, step);
      var rest, end := Drain(Next(s, step));
      steps, result := [step] + rest, end;
      assert steps[1..] == rest;
      LeadsFirst(s, steps, result);
    }
  }
}
