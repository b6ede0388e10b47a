// When the parts of a live stream are asked for: after every check each pending part is finished, asked for or
// held back until a time ahead, only an answer that is not ready holds one back, and asking and answering
// brings a stream that waits back to playing.
module Asking {
  import opened Streaming

  predicate HeldBack(p: Part, now: int) {
    p.minRequest != 0 && p.minRequest > now
  }

  predicate CaredFor(p: Part, now: int) {
    p.result || p.task || HeldBack(p, now)
  }

  ghost predicate AllCaredFor(p: PendingSegment, now: int) {
    forall j | 0 <= j < |p.parts| :: CaredFor(p.parts[j], now)
  }

  ghost predicate IsNew(p: PendingSegment) {
    p.parts != [] && forall j | 0 <= j < |p.parts| :: p.parts[j] == NEW_PART
  }

  // --- One check

  /** The part after a check: what was missing and not held back is asked for, nothing else is changed. */
  predicate PartAfter(before: Part, after: Part, now: int) {
    && after.result == before.result && after.minRequest == before.minRequest
    && (after.task <==> before.task || (!before.result && !HeldBack(before, now)))
  }

  ghost predicate SegmentAfter(before: PendingSegment, after: PendingSegment, now: int) {
    && after.timestamp == before.timestamp && |after.parts| == |before.parts|
    && forall j | 0 <= j < |before.parts| :: PartAfter(before.parts[j], after.parts[j], now)
  }

  lemma {:induction false} RequestAddsNew(s: State, videoParts: nat)
    ensures var r := Request(s, videoParts);
            && s.pending <= r.pending && r.available == s.available
            && forall i | |s.pending| <= i < |r.pending| :: IsNew(r.pending[i])
    decreases if s.next == UNKNOWN || SEGMENT_BUFFER_DURATION < Buffered(s) then 0
              else SEGMENT_BUFFER_DURATION + 1 - Buffered(s)
  {
    hide Duration;
    if s.next != UNKNOWN && Buffered(s) <= SEGMENT_BUFFER_DURATION {
      var more := s.(
        pending := s.pending + [PendingSegment(s.next, NewParts(videoParts))],
        next := s.next + SEGMENT_DURATION);
      if more.next != UNKNOWN {
        RequestAddsNew(more, videoParts);
      }
    }
  }

  /** After a check: the finished segments at the front, k of them, are available; in the others each part is
      finished, asked for or held back; behind them are new segments, and only if some became available. */
  ghost predicate Checked(s: State, r: State, k: nat, now: int) {
    && k <= |s.pending| && |s.pending| - k <= |r.pending|
    && |r.available| == |s.available| + k
    && (forall i | 0 <= i < k :: Finished(s.pending[i]))
    && (k < |s.pending| ==> !Finished(s.pending[k]))
    && (forall i | 0 <= i < |s.pending| - k :: SegmentAfter(s.pending[k + i], r.pending[i], now))
    && (forall i | |s.pending| - k <= i < |r.pending| :: IsNew(r.pending[i]))
    && (k == 0 ==> |r.pending| == |s.pending|)
  }

  lemma AskedIsAfter(p: PendingSegment, now: int)
    ensures SegmentAfter(p, AskSegment(p, now), now)
  {
  }

  lemma PromoteAsks(s: State, now: int)
    ensures var k, r := FinishedPrefix(s.pending), Promote(s, now);
            && |r.pending| == |s.pending| - k && |r.available| == |s.available| + k
            && forall i | 0 <= i < |s.pending| - k :: SegmentAfter(s.pending[k + i], r.pending[i], now)
  {
    hide AskSegment, SegmentAfter, FinishedPrefix, Finished;
    var k, r := FinishedPrefix(s.pending), Promote(s, now);
    forall i | 0 <= i < |s.pending| - k
      ensures SegmentAfter(s.pending[k + i], r.pending[i], now)
    {
      assert r.pending[i] == AskSegment(s.pending[k..][i], now);
      AskedIsAfter(s.pending[k + i], now);
    }
  }

  lemma CheckAsks(s: State, now: int, videoParts: nat)
    ensures Checked(s, Check(s, now, videoParts), FinishedPrefix(s.pending), now)
  {
    hide SegmentAfter, Promote, Request, FinishedPrefix, Finished, IsNew;
    PromoteAsks(s, now);
    RequestAddsNew(Promote(s, now), videoParts);
  }

  lemma CaredForAfter(before: PendingSegment, after: PendingSegment, now: int)
    requires SegmentAfter(before, after, now)
    ensures AllCaredFor(after, now)
  {
  }

  /** After any check each pending part is finished, asked for or held back until a time ahead, except in new
      segments, and those are only there when others have just become available. */
  lemma EveryPartIsCaredFor(s: State, now: int, videoParts: nat)
    ensures var r := Check(s, now, videoParts);
            && |s.available| <= |r.available|
            && forall i | 0 <= i < |r.pending| ::
                 AllCaredFor(r.pending[i], now) || (IsNew(r.pending[i]) && |s.available| < |r.available|)
  {
    hide SegmentAfter, Check, AllCaredFor, IsNew;
    CheckAsks(s, now, videoParts);
    var k, r := FinishedPrefix(s.pending), Check(s, now, videoParts);
    forall i | 0 <= i < |s.pending| - k
      ensures AllCaredFor(r.pending[i], now)
    {
      CaredForAfter(s.pending[k + i], r.pending[i], now);
    }
  }

  /** The same after a render, for what it has just asked for too. */
  lemma RenderCaresForAll(s: State, now: int, exhausted: bool, videoParts: nat, laterParts: nat)
    ensures var played, r := Play(s, now, exhausted), Render(s, now, exhausted, videoParts, laterParts);
            && |played.available| <= |r.available|
            && forall i | 0 <= i < |r.pending| ::
                 AllCaredFor(r.pending[i], now) || (IsNew(r.pending[i]) && |played.available| < |r.available|)
  {
    hide Play, Check, Request, AllCaredFor, IsNew;
    var played := Play(s, now, exhausted);
    RequestAddsNew(played, videoParts);
    EveryPartIsCaredFor(Request(played, videoParts), now, laterParts);
  }

  // --- One step, for one part

  /** The steps that look at the parts of pending segments again. */
  predicate Checks(e: Event) {
    e.PartArrives? || e.Rendering? || e.Recheck?
  }

  /** The answers that drop all pending segments. */
  predicate Restarts(s: State, e: Event)
    requires Possible(s, e)
  {
    && e.PartArrives?
    && (e.status.ResyncNeeded? || (e.status.NotReady? && s.pending[e.segment].timestamp == 0 && !s.unified))
  }

  /** In r the segment i of s is pending as the i'th, and its part j is as given. */
  ghost predicate PartIs(s: State, i: nat, r: State, i': nat, j: nat, part: Part)
    requires i < |s.pending|
  {
    && i' < |r.pending| && r.pending[i'].timestamp == s.pending[i].timestamp
    && |r.pending[i'].parts| == |s.pending[i].parts| && j < |r.pending[i'].parts|
    && r.pending[i'].parts[j] == part
  }

  ghost predicate StaysAs(s: State, i: nat, r: State, j: nat, part: Part)
    requires i < |s.pending|
  {
    exists i': nat :: i' <= i && PartIs(s, i, r, i', j, part)
  }

  /** The part after a check, when it is missing. */
  function MissingAfter(p: Part, now: int): Part {
    if HeldBack(p, now) then p else p.(task := true)
  }

  lemma CheckLeadsTo(s: State, now: int, videoParts: nat, i: nat, j: nat)
    requires i < |s.pending| && j < |s.pending[i].parts| && !s.pending[i].parts[j].result
    ensures StaysAs(s, i, Check(s, now, videoParts), j, MissingAfter(s.pending[i].parts[j], now))
  {
    hide Check, FinishedPrefix;
    CheckAsks(s, now, videoParts);
    var k, r := FinishedPrefix(s.pending), Check(s, now, videoParts);
    assert !Finished(s.pending[i]);
    assert s.pending[k + (i - k)] == s.pending[i] && SegmentAfter(s.pending[i], r.pending[i - k], now);
    assert PartAfter(s.pending[i].parts[j], r.pending[i - k].parts[j], now);
    assert PartIs(s, i, r, i - k, j, MissingAfter(s.pending[i].parts[j], now));
  }

  /** Over any step, a missing part stays pending unless all are dropped or it is answered itself; a step that
      checks asks for it unless it is held back beyond then; nothing else happens to it. */
  lemma MissingPartStays(s: State, step: Step, i: nat, j: nat)
    requires Possible(s, step.event) && !Restarts(s, step.event)
    requires i < |s.pending| && j < |s.pending[i].parts| && !s.pending[i].parts[j].result
    requires step.event.PartArrives? ==> (step.event.segment, step.event.part) != (i, j)
    ensures var part := s.pending[i].parts[j];
            StaysAs(s, i, Next(s, step), j, if Checks(step.event) then MissingAfter(part, step.now) else part)
  {
    hide Request, Check, Play, Boundary;
    var r := Next(s, step);
    match step.event
    case Time(timestamp) =>
      var adjusted := if timestamp > 0 then Boundary(timestamp) - SEGMENT_BUFFER_DURATION else 0;
      RequestAddsNew(s.(timeTask := false, next := adjusted), step.videoParts);
      assert PartIs(s, i, r, i, j, s.pending[i].parts[j]);
    case Retry(_) =>
      RequestAddsNew(s.(delayTaskId := 0), step.videoParts);
      assert PartIs(s, i, r, i, j, s.pending[i].parts[j]);
    case PartArrives(_, _, status) =>
      OtherAnswer(s, step, i, j);
    case Rendering(exhausted) =>
      PlayPending(s, step.now, exhausted);
      RequestAddsNew(Play(s, step.now, exhausted), step.videoParts);
      var asked := Request(Play(s, step.now, exhausted), step.videoParts);
      CheckLeadsTo(asked, step.now, step.laterParts, i, j);
      var i': nat :| i' <= i && PartIs(asked, i, r, i', j, MissingAfter(s.pending[i].parts[j], step.now));
      assert PartIs(s, i, r, i', j, MissingAfter(s.pending[i].parts[j], step.now));
    case Recheck =>
      CheckLeadsTo(s, step.now, step.laterParts, i, j);
  }

  lemma PlayPending(s: State, now: int, exhausted: bool)
    ensures Play(s, now, exhausted).pending == s.pending && Play(s, now, exhausted).next == s.next
  {
  }

  /** The state in which a check follows the answer. */
  lemma AnsweredThenChecked(s: State, step: Step) returns (m: State)
    requires step.event.PartArrives? && Possible(s, step.event) && !Restarts(s, step.event)
    ensures !step.event.status.ResyncNeeded?
    ensures var (i, j) := (step.event.segment, step.event.part);
            var part := s.pending[i].parts[j].(task := false);
            var answered := SetPart(s, i, j, if step.event.status.Success? then part.(result := true)
                                             else part.(minRequest := step.now + 100));
            m == answered.(next := m.next) && (s.next != UNKNOWN ==> m == answered)
    ensures Next(s, step) == Check(m, step.now, step.laterParts)
  {
    hide Check;
    var i, j, status := step.event.segment, step.event.part, step.event.status;
    var part := s.pending[i].parts[j].(task := false);
    if status.Success? {
      var done := SetPart(s, i, j, part.(result := true));
      m := if s.next == UNKNOWN then done.(next := status.timestamp + SEGMENT_DURATION) else done;
    } else {
      m := SetPart(s, i, j, part.(minRequest := step.now + 100));
    }
  }

  lemma OtherAnswer(s: State, step: Step, i: nat, j: nat)
    requires step.event.PartArrives? && Possible(s, step.event) && !Restarts(s, step.event)
    requires i < |s.pending| && j < |s.pending[i].parts| && !s.pending[i].parts[j].result
    requires (step.event.segment, step.event.part) != (i, j)
    ensures StaysAs(s, i, Next(s, step), j, MissingAfter(s.pending[i].parts[j], step.now))
  {
    hide Check, Next;
    var m := AnsweredThenChecked(s, step);
    assert m.pending[i].parts[j] == s.pending[i].parts[j] && m.pending[i].timestamp == s.pending[i].timestamp;
    CheckLeadsTo(m, step.now, step.laterParts, i, j);
    var i': nat :| i' <= i && PartIs(m, i, Next(s, step), i', j, MissingAfter(s.pending[i].parts[j], step.now));
    assert PartIs(s, i, Next(s, step), i', j, MissingAfter(s.pending[i].parts[j], step.now));
  }

  /** A part whose answer is not ready stays missing, is not asked for in the same step, and is held back for
      100 milliseconds. */
  lemma NotReadyHoldsBack(s: State, step: Step)
    requires step.event.PartArrives? && step.event.status.NotReady? && Possible(s, step.event)
    requires !Restarts(s, step.event) && step.now >= 0
    requires !s.pending[step.event.segment].parts[step.event.part].result
    ensures var (i, j) := (step.event.segment, step.event.part);
            StaysAs(s, i, Next(s, step), j, Part(step.now + 100, false, false))
  {
    hide Check, Next;
    var i, j := step.event.segment, step.event.part;
    var m := AnsweredThenChecked(s, step);
    CheckLeadsTo(m, step.now, step.laterParts, i, j);
    var i': nat :| i' <= i && PartIs(m, i, Next(s, step), i', j, MissingAfter(m.pending[i].parts[j], step.now));
    assert PartIs(s, i, Next(s, step), i', j, Part(step.now + 100, false, false));
  }

  /** A part that is answered with success is finished: its segment is pending with it, or has become available. */
  lemma SuccessFinishes(s: State, step: Step)
    requires step.event.PartArrives? && step.event.status.Success? && Possible(s, step.event)
    ensures var (i, j, r) := (step.event.segment, step.event.part, Next(s, step));
            || i < |r.available| - |s.available|
            || StaysAs(s, i, r, j, s.pending[i].parts[j].(task := false, result := true))
  {
    hide Check, Next, FinishedPrefix;
    var i, j, r := step.event.segment, step.event.part, Next(s, step);
    var m := AnsweredThenChecked(s, step);
    CheckAsks(m, step.now, step.laterParts);
    var k := FinishedPrefix(m.pending);
    if i >= k {
      assert SegmentAfter(m.pending[k + (i - k)], r.pending[i - k], step.now);
      assert PartAfter(m.pending[i].parts[j], r.pending[i - k].parts[j], step.now);
      assert PartIs(s, i, r, i - k, j, s.pending[i].parts[j].(task := false, result := true));
    }
  }

  // --- Whole runs: what holds a part back

  predicate IsNotReady(step: Step) {
    step.event.PartArrives? && step.event.status.NotReady?
  }

  /** The time is 100 milliseconds after one of the answers that were not ready. */
  ghost predicate SetBy(steps: seq<Step>, minRequest: int) {
    exists x | 0 <= x < |steps| :: IsNotReady(steps[x]) && minRequest == steps[x].now + 100
  }

  ghost predicate HeldBackBy(pending: seq<PendingSegment>, steps: seq<Step>) {
    forall i, j | 0 <= i < |pending| && 0 <= j < |pending[i].parts| ::
      pending[i].parts[j].minRequest == 0 || SetBy(steps, pending[i].parts[j].minRequest)
  }

  lemma NewIsNotHeldBack(pending: seq<PendingSegment>, more: seq<PendingSegment>, steps: seq<Step>)
    requires HeldBackBy(pending, steps) && pending <= more
    requires forall i | |pending| <= i < |more| :: IsNew(more[i])
    ensures HeldBackBy(more, steps)
  {
    hide SetBy;
  }

  lemma CheckHoldsBackNone(s: State, now: int, videoParts: nat, steps: seq<Step>)
    requires HeldBackBy(s.pending, steps)
    ensures HeldBackBy(Check(s, now, videoParts).pending, steps)
  {
    hide Check, SetBy, FinishedPrefix;
    CheckAsks(s, now, videoParts);
    var k, r := FinishedPrefix(s.pending), Check(s, now, videoParts);
    forall i, j | 0 <= i < |r.pending| && 0 <= j < |r.pending[i].parts|
      ensures r.pending[i].parts[j].minRequest == 0 || SetBy(steps, r.pending[i].parts[j].minRequest)
    {
      if i < |s.pending| - k {
        assert SegmentAfter(s.pending[k + i], r.pending[i], now);
        assert PartAfter(s.pending[k + i].parts[j], r.pending[i].parts[j], now);
      } else {
        assert IsNew(r.pending[i]);
      }
    }
  }

  lemma {:induction false} RequestHoldsBackNone(s: State, videoParts: nat, steps: seq<Step>)
    requires HeldBackBy(s.pending, steps)
    ensures HeldBackBy(Request(s, videoParts).pending, steps)
  {
    hide Request, HeldBackBy, IsNew;
    RequestAddsNew(s, videoParts);
    NewIsNotHeldBack(s.pending, Request(s, videoParts).pending, steps);
  }

  lemma SetByMore(steps: seq<Step>, step: Step, minRequest: int)
    ensures SetBy(steps, minRequest) ==> SetBy(steps + [step], minRequest)
    ensures IsNotReady(step) ==> SetBy(steps + [step], step.now + 100)
  {
    assert (steps + [step])[|steps|] == step;
    if SetBy(steps, minRequest) {
      var x :| 0 <= x < |steps| && IsNotReady(steps[x]) && minRequest == steps[x].now + 100;
      assert (steps + [step])[x] == steps[x];
    }
  }

  lemma HeldBackByMore(pending: seq<PendingSegment>, steps: seq<Step>, step: Step)
    requires HeldBackBy(pending, steps)
    ensures HeldBackBy(pending, steps + [step])
  {
    hide SetBy;
    forall minRequest: int
      ensures SetBy(steps, minRequest) ==> SetBy(steps + [step], minRequest)
    {
      SetByMore(steps, step, minRequest);
    }
  }

  lemma AnswerHoldsBack(s: State, steps: seq<Step>, step: Step)
    requires HeldBackBy(s.pending, steps) && step.event.PartArrives? && Possible(s, step.event)
    ensures HeldBackBy(Next(s, step).pending, steps + [step])
  {
    hide Check, Request, SetBy, Boundary;
    HeldBackByMore(s.pending, steps, step);
    if Restarts(s, step.event) {
      var status := step.event.status;
      var next := if status.ResyncNeeded? && s.unified then UNKNOWN else Boundary(status.response);
      var cleared := s.(next := next, pending := []);
      RequestHoldsBackNone(cleared, step.videoParts, steps + [step]);
      CheckHoldsBackNone(Request(cleared, step.videoParts), step.now, step.laterParts, steps + [step]);
    } else {
      var m := AnsweredThenChecked(s, step);
      SetByMore(steps, step, 0);
      CheckHoldsBackNone(m, step.now, step.laterParts, steps + [step]);
    }
  }

  lemma StepHoldsBack(s: State, steps: seq<Step>, step: Step)
    requires HeldBackBy(s.pending, steps) && Possible(s, step.event)
    ensures HeldBackBy(Next(s, step).pending, steps + [step])
  {
    hide HeldBackBy, Request, Check, Play, OnPart, Boundary;
    HeldBackByMore(s.pending, steps, step);
    var run := steps + [step];
    match step.event
    case Time(timestamp) =>
      var adjusted := if timestamp > 0 then Boundary(timestamp) - SEGMENT_BUFFER_DURATION else 0;
      RequestHoldsBackNone(s.(timeTask := false, next := adjusted), step.videoParts, run);
    case Retry(_) =>
      RequestHoldsBackNone(s.(delayTaskId := 0), step.videoParts, run);
    case PartArrives(_, _, _) =>
      AnswerHoldsBack(s, steps, step);
    case Rendering(exhausted) =>
      PlayPending(s, step.now, exhausted);
      RequestHoldsBackNone(Play(s, step.now, exhausted), step.videoParts, run);
      CheckHoldsBackNone(Request(Play(s, step.now, exhausted), step.videoParts), step.now, step.laterParts, run);
    case Recheck =>
      CheckHoldsBackNone(s, step.now, step.laterParts, run);
  }

  lemma {:induction false} RunHoldsBack(before: seq<Step>, s: State, steps: seq<Step>, r: State)
    requires HeldBackBy(s.pending, before) && Leads(s, steps, r)
    ensures HeldBackBy(r.pending, before + steps)
    decreases |steps|
  {
    hide HeldBackBy, Next;
    if steps == [] {
      assert before + steps == before;
    } else {
      StepHoldsBack(s, before, steps[0]);
      RunHoldsBack(before + [steps[0]], Next(s, steps[0]), steps[1..], r);
      assert before + [steps[0]] + steps[1..] == before + steps;
    }
  }

  /** Over any run, a part is held back only by an answer that was not ready, and until 100 milliseconds after it. */
  lemma {:induction false} OnlyNotReadyHoldsBack(unified: bool, steps: seq<Step>, s: State, i: nat, j: nat)
    requires Leads(NewState(unified), steps, s)
    requires i < |s.pending| && j < |s.pending[i].parts| && s.pending[i].parts[j].minRequest != 0
    ensures exists x | 0 <= x < |steps| ::
              IsNotReady(steps[x]) && s.pending[i].parts[j].minRequest == steps[x].now + 100
  {
    RunHoldsBack([], NewState(unified), steps, s);
    assert [] + steps == steps;
    assert SetBy(steps, s.pending[i].parts[j].minRequest);
  }

  // --- Whole runs: asking and answering ends a wait

  /** A render that asks for parts, or the successful answer to a part asked for. */
  predicate AsksOrSucceeds(s: State, step: Step)
    requires Possible(s, step.event)
  {
    match step.event
    case Recheck => true
    case PartArrives(i, j, status) => status.Success? && s.pending[i].parts[j].task
    case _ => false
  }

  /** A run of such steps. */
  ghost predicate Succeeds(s: State, steps: seq<Step>, result: State)
    decreases |steps|
  {
    if steps == [] then s == result
    else
      && Possible(s, steps[0].event) && AsksOrSucceeds(s, steps[0])
      && Succeeds(Next(s, steps[0]), steps[1..], result)
  }

  lemma {:induction false} SucceedsLeads(s: State, steps: seq<Step>, result: State)
    requires Succeeds(s, steps, result)
    ensures Leads(s, steps, result)
    decreases |steps|
  {
    hide Next;
    if steps != [] {
      SucceedsLeads(Next(s, steps[0]), steps[1..], result);
    }
  }

  ghost predicate NoneHeldBack(s: State, now: int) {
    forall i, j | 0 <= i < |s.pending| && 0 <= j < |s.pending[i].parts| :: !HeldBack(s.pending[i].parts[j], now)
  }

  function Missing(parts: seq<Part>): nat {
    if parts == [] then 0 else Missing(parts[..|parts| - 1]) + if parts[|parts| - 1].result then 0 else 1
  }

  lemma {:induction false} SomeMissing(parts: seq<Part>) returns (j: nat)
    requires exists k | 0 <= k < |parts| :: !parts[k].result
    ensures j < |parts| && !parts[j].result
  {
    j :| 0 <= j < |parts| && !parts[j].result;
  }

  lemma {:induction false} OneFewer(parts: seq<Part>, after: seq<Part>, j: nat)
    requires j < |parts| == |after| && !parts[j].result
    requires forall k | 0 <= k < |parts| :: after[k].result == (parts[k].result || k == j)
    ensures Missing(after) == Missing(parts) - 1
  {
    var n := |parts| - 1;
    if j == n {
      SameMissing(parts[..n], after[..n]);
    } else {
      OneFewer(parts[..n], after[..n], j);
    }
  }

  lemma {:induction false} SameMissing(parts: seq<Part>, after: seq<Part>)
    requires |parts| == |after| && forall k | 0 <= k < |parts| :: after[k].result == parts[k].result
    ensures Missing(after) == Missing(parts)
  {
    if parts != [] {
      SameMissing(parts[..|parts| - 1], after[..|parts| - 1]);
    }
  }

  /** Three segments, some of them available. */
  ghost predicate Full(s: State) {
    Inv(s) && s.next != UNKNOWN && |s.available| + |s.pending| == 3
  }

  ghost predicate FirstIsMissing(s: State) {
    s.pending != [] ==> !Finished(s.pending[0])
  }

  lemma CheckKeepsFull(s: State, now: int, videoParts: nat)
    requires Full(s) && NoneHeldBack(s, now)
    ensures var r := Check(s, now, videoParts);
            Full(r) && NoneHeldBack(r, now) && FirstIsMissing(r) && |s.available| <= |r.available|
  {
    hide Inv, Promote, Request, Check, FinishedPrefix;
    CheckKeeps(s, now, videoParts);
    CheckNext(s, now, videoParts);
    CheckAsks(s, now, videoParts);
    var k, r := FinishedPrefix(s.pending), Check(s, now, videoParts);
    forall i, j | 0 <= i < |r.pending| && 0 <= j < |r.pending[i].parts|
      ensures !HeldBack(r.pending[i].parts[j], now)
    {
      assert SegmentAfter(s.pending[k + i], r.pending[i], now);
      assert PartAfter(s.pending[k + i].parts[j], r.pending[i].parts[j], now);
    }
    if r.pending != [] {
      assert SegmentAfter(s.pending[k + 0], r.pending[0], now);
      MissingAfterToo(s.pending[k], r.pending[0], now);
    }
  }

  lemma MissingAfterToo(before: PendingSegment, after: PendingSegment, now: int)
    requires SegmentAfter(before, after, now)
    ensures Finished(after) <==> Finished(before)
  {
    assert forall j | 0 <= j < |before.parts| :: PartAfter(before.parts[j], after.parts[j], now);
  }

  lemma CheckNext(s: State, now: int, videoParts: nat)
    requires Full(s)
    ensures var r := Check(s, now, videoParts); r.next != UNKNOWN && |r.available| + |r.pending| == 3
  {
    hide Inv, Promote, Request, FinishedPrefix;
    PromoteKeeps(s, now);
    RequestFills(Promote(s, now), videoParts);
    PromoteNext(s, now);
  }

  lemma PromoteNext(s: State, now: int)
    ensures Promote(s, now).next == s.next
  {
  }

  /** One part of the first pending segment is asked for and answered: more is available, or one part fewer is
      missing there. */
  lemma AskAndAnswer(s: State, now: int) returns (steps: seq<Step>, r: State)
    requires Full(s) && NoneHeldBack(s, now) && s.pending != [] && !Finished(s.pending[0])
    ensures Succeeds(s, steps, r) && Full(r) && NoneHeldBack(r, now)
    ensures FirstIsMissing(r) && |r.available| >= |s.available|
    ensures |r.available| == |s.available| ==>
              r.pending != [] && Missing(r.pending[0].parts) < Missing(s.pending[0].parts)
  {
    hide Check, Full, NoneHeldBack, Finished, FinishedPrefix;
    var ask := Step(Recheck, now, 0, 0);
    var asked := Next(s, ask);
    CheckAsks(s, now, 0);
    CheckKeepsFull(s, now, 0);
    assert SegmentAfter(s.pending[0], asked.pending[0], now);
    var j := SomeMissing(s.pending[0].parts) by { MissingOne(s.pending[0]); }
    assert PartAfter(s.pending[0].parts[j], asked.pending[0].parts[j], now);
    FirstIsNotHeldBack(s, j, now);
    var answer := Step(PartArrives(0, j, Success(0)), now, 0, 0);
    r := Next(asked, answer);
    steps := [ask, answer];
    SucceedsTwo(s, ask, answer);
    AnswerFirst(asked, answer, j);
    SameMissing(s.pending[0].parts, asked.pending[0].parts);
  }

  lemma MissingOne(p: PendingSegment)
    requires !Finished(p)
    ensures exists k | 0 <= k < |p.parts| :: !p.parts[k].result
  {
  }

  lemma FirstIsNotHeldBack(s: State, j: nat, now: int)
    requires NoneHeldBack(s, now) && s.pending != [] && j < |s.pending[0].parts|
    ensures !HeldBack(s.pending[0].parts[j], now)
  {
  }

  lemma {:induction false} SucceedsTwo(s: State, first: Step, second: Step)
    requires Possible(s, first.event) && AsksOrSucceeds(s, first)
    requires Possible(Next(s, first), second.event) && AsksOrSucceeds(Next(s, first), second)
    ensures Succeeds(s, [first, second], Next(Next(s, first), second))
  {
    hide Next, AsksOrSucceeds;
    assert [first, second][1..] == [second] && [second][1..] == [];
    assert Succeeds(Next(Next(s, first), second), [], Next(Next(s, first), second));
    assert Succeeds(Next(s, first), [second], Next(Next(s, first), second));
  }

  lemma AnswerFirst(s: State, step: Step, j: nat)
    requires Full(s) && NoneHeldBack(s, step.now)
    requires s.pending != [] && j < |s.pending[0].parts| && !s.pending[0].parts[j].result
    requires step.event == PartArrives(0, j, Success(0))
    ensures var r := Next(s, step);
            && Full(r) && NoneHeldBack(r, step.now) && FirstIsMissing(r) && |r.available| >= |s.available|
            && (|r.available| == |s.available| ==>
                  r.pending != [] && Missing(r.pending[0].parts) == Missing(s.pending[0].parts) - 1)
  {
    hide Check, Inv, FinishedPrefix, Next;
    var m := AnsweredThenChecked(s, step);
    var part := s.pending[0].parts[j].(task := false, result := true);
    SetPartKeeps(s, 0, j, part);
    assert s.next != UNKNOWN && m == SetPart(s, 0, j, part);
    CheckKeepsFull(m, step.now, step.laterParts);
    CheckAsks(m, step.now, step.laterParts);
    var r := Next(s, step);
    if |r.available| == |s.available| {
      assert SegmentAfter(m.pending[0], r.pending[0], step.now);
      assert forall k | 0 <= k < |m.pending[0].parts| ::
          PartAfter(m.pending[0].parts[k], r.pending[0].parts[k], step.now);
      OneFewer(s.pending[0].parts, m.pending[0].parts, j);
      SameMissing(m.pending[0].parts, r.pending[0].parts);
    }
  }

  lemma {:induction false} SucceedsConcat(s: State, a: seq<Step>, middle: State, b: seq<Step>, result: State)
    requires Succeeds(s, a, middle) && Succeeds(middle, b, result)
    ensures Succeeds(s, a + b, result)
    decreases |a|
  {
    hide Next, AsksOrSucceeds;
    if a == [] {
      assert a + b == b;
    } else {
      assert (a + b)[0] == a[0] && (a + b)[1..] == a[1..] + b;
      SucceedsConcat(Next(s, a[0]), a[1..], middle, b, result);
    }
  }

  /** Part by part, until nothing is pending. */
  lemma {:induction false} AllAreAnswered(s: State, now: int) returns (steps: seq<Step>, r: State)
    requires Full(s) && NoneHeldBack(s, now) && FirstIsMissing(s)
    ensures Succeeds(s, steps, r) && Full(r) && r.pending == []
    decreases |s.pending|, if s.pending == [] then 0 else Missing(s.pending[0].parts)
  {
    hide Succeeds, Next, NoneHeldBack, Inv;
    if s.pending == [] {
      steps, r := [], s;
      assert Succeeds(s, [], s) by { SucceedsNone(s); }
    } else {
      var more, m := AskAndAnswer(s, now);
      var rest;
      rest, r := AllAreAnswered(m, now);
      SucceedsConcat(s, more, m, rest, r);
      steps := more + rest;
    }
  }

  lemma {:induction false} SucceedsNone(s: State)
    ensures Succeeds(s, [], s)
  {
  }

  lemma RenderFills(s: State, now: int, exhausted: bool, videoParts: nat, laterParts: nat)
    requires Inv(s) && s.next != UNKNOWN && NoneHeldBack(s, now)
    ensures var r := Render(s, now, exhausted, videoParts, laterParts);
            Full(r) && NoneHeldBack(r, now) && FirstIsMissing(r)
  {
    hide Inv, Play, Request, Check;
    var played := Play(s, now, exhausted);
    PlayKeeps(s, now, exhausted);
    PlayPending(s, now, exhausted);
    RequestFills(played, videoParts);
    RequestAddsNew(played, videoParts);
    NewAreNotHeldBack(s.pending, Request(played, videoParts), now);
    CheckKeepsFull(Request(played, videoParts), now, laterParts);
  }

  lemma NewAreNotHeldBack(pending: seq<PendingSegment>, s: State, now: int)
    requires forall i, j | 0 <= i < |pending| && 0 <= j < |pending[i].parts| :: !HeldBack(pending[i].parts[j], now)
    requires pending <= s.pending && forall i | |pending| <= i < |s.pending| :: IsNew(s.pending[i])
    ensures NoneHeldBack(s, now)
  {
  }

  /** From every reachable state whose start is known, at any time past what is held back: after a render, asking
      for parts and answering those asked for leads to as much to play as a wait needs, and the next render
      plays. */
  lemma WaitCanEnd(
      unified: bool, steps: seq<Step>, s: State, render: Step, exhausted: bool) returns (more: seq<Step>, r: State)
    requires Leads(NewState(unified), steps, s) && s.next != UNKNOWN
    requires render.event.Rendering? && NoneHeldBack(s, render.now)
    ensures Succeeds(Next(s, render), more, r) && Leads(NewState(unified), steps + [render] + more, r)
    ensures Duration(r.available) == REBUFFER_DURATION && r.pending == []
    ensures Play(r, render.now, exhausted).wait.None?
  {
    hide Render, Leads, Succeeds, NoneHeldBack;
    RunKeeps(NewState(unified), steps, s);
    RenderFills(s, render.now, render.event.exhausted, render.videoParts, render.laterParts);
    var m := Next(s, render);
    more, r := AllAreAnswered(m, render.now);
    DurationCounts(r.available);
    SucceedsLeads(m, more, r);
    LeadsOne(s, render);
    LeadsConcat(NewState(unified), steps, s, [render], m);
    LeadsConcat(NewState(unified), steps + [render], m, more, r);
  }

  lemma {:induction false} LeadsOne(s: State, step: Step)
    requires Possible(s, step.event)
    ensures Leads(s, [step], Next(s, step))
  {
    hide Next;
    assert [step][1..] == [];
    assert Leads(Next(s, step), [], Next(s, step));
  }

  // --- Where segments start

  /** The nearest whole segment toward zero. */
  lemma BoundaryIsNearest(milliseconds: int)
    ensures Boundary(milliseconds) % SEGMENT_DURATION == 0
    ensures var boundary := Boundary(milliseconds);
            && (milliseconds >= 0 ==> 0 <= boundary <= milliseconds < boundary + SEGMENT_DURATION)
            && (milliseconds <= 0 ==> boundary - SEGMENT_DURATION < milliseconds <= boundary <= 0)
  {
  }

  /** All that is pending is from this timestamp on, segment by segment. */
  ghost predicate StartsAt(s: State, timestamp: int) {
    && |s.available| + |s.pending| == 3
    && forall i | 0 <= i < |s.pending| :: s.pending[i].timestamp == timestamp + SEGMENT_DURATION * i
  }

  lemma {:induction false} RequestStartsAt(s: State, videoParts: nat, timestamp: int)
    requires Inv(s) && s.next != UNKNOWN && s.next == timestamp + SEGMENT_DURATION * |s.pending|
    ensures StartsAt(Request(s, videoParts), timestamp)
  {
    hide Request;
    RequestFills(s, videoParts);
    RequestNext(s, videoParts);
  }

  lemma {:induction false} RequestNext(s: State, videoParts: nat)
    requires s.next % SEGMENT_DURATION == 0
    ensures var r := Request(s, videoParts); r.next == s.next + SEGMENT_DURATION * (|r.pending| - |s.pending|)
    decreases if s.next == UNKNOWN || SEGMENT_BUFFER_DURATION < Buffered(s) then 0
              else SEGMENT_BUFFER_DURATION + 1 - Buffered(s)
  {
    if s.next != UNKNOWN && Buffered(s) <= SEGMENT_BUFFER_DURATION {
      var more := s.(
        pending := s.pending + [PendingSegment(s.next, NewParts(videoParts))],
        next := s.next + SEGMENT_DURATION);
      RequestNext(more, videoParts);
    }
  }

  /** A usable time: three segments become pending, from two whole segments before it on. */
  lemma {:induction false} TimeStarts(unified: bool, steps: seq<Step>, s: State, step: Step)
    requires Leads(NewState(unified), steps, s) && step.event.Time? && Possible(s, step.event)
    requires Boundary(step.event.timestamp) > SEGMENT_BUFFER_DURATION
    ensures var r := Next(s, step);
            && StartsAt(r, Boundary(step.event.timestamp) - SEGMENT_BUFFER_DURATION) && r.available == s.available
            && forall i | 0 <= i < |r.pending| :: IsNew(r.pending[i])
  {
    hide Request;
    RunKeeps(NewState(unified), steps, s);
    BoundaryIsNearest(step.event.timestamp);
    var started := s.(timeTask := false, next := Boundary(step.event.timestamp) - SEGMENT_BUFFER_DURATION);
    RequestStartsAt(started, step.videoParts, started.next);
    RequestAddsNew(started, step.videoParts);
  }

  ghost predicate JustAsked(p: PendingSegment) {
    p.parts != [] && forall j | 0 <= j < |p.parts| :: p.parts[j] == Part(0, true, false)
  }

  lemma NewIsJustAsked(before: PendingSegment, after: PendingSegment, now: int)
    requires IsNew(before) && SegmentAfter(before, after, now)
    ensures JustAsked(after)
  {
    assert forall j | 0 <= j < |before.parts| :: PartAfter(before.parts[j], after.parts[j], now);
  }

  /** All new ones that are checked stay pending, asked for. */
  lemma NewAreAsked(s: State, now: int, videoParts: nat, timestamp: int)
    requires StartsAt(s, timestamp) && forall i | 0 <= i < |s.pending| :: IsNew(s.pending[i])
    ensures var r := Check(s, now, videoParts);
            && StartsAt(r, timestamp) && |r.available| == |s.available|
            && forall i | 0 <= i < |r.pending| :: JustAsked(r.pending[i])
  {
    hide Check, FinishedPrefix, JustAsked;
    CheckAsks(s, now, videoParts);
    var k, r := FinishedPrefix(s.pending), Check(s, now, videoParts);
    assert k == 0 by {
      if s.pending != [] {
        NewIsMissing(s.pending[0]);
      }
    }
    forall i | 0 <= i < |r.pending|
      ensures JustAsked(r.pending[i]) && r.pending[i].timestamp == timestamp + SEGMENT_DURATION * i
    {
      assert SegmentAfter(s.pending[k + i], r.pending[i], now);
      NewIsJustAsked(s.pending[i], r.pending[i], now);
    }
  }

  lemma NewIsMissing(p: PendingSegment)
    requires IsNew(p)
    ensures !Finished(p)
  {
    assert p.parts[0] == NEW_PART;
  }

  /** An answer that drops all pending segments: what comes next is asked for at once, from the whole segment of
      the response on; a unified stream asks for the time, unless that has been done or is put off. */
  lemma {:induction false} RestartStarts(unified: bool, steps: seq<Step>, s: State, step: Step)
    requires Leads(NewState(unified), steps, s) && Possible(s, step.event) && Restarts(s, step.event)
    ensures var r, status := Next(s, step), step.event.status;
            && |r.available| == |s.available|
            && if status.ResyncNeeded? && s.unified then
                 r.pending == [] && r.next == UNKNOWN && (r.timeTask <==> s.timeTask || s.delayTaskId == 0)
               else
                 && StartsAt(r, Boundary(status.response))
                 && forall i | 0 <= i < |r.pending| :: JustAsked(r.pending[i])
  {
    hide Request, Check, JustAsked, IsNew;
    RunKeeps(NewState(unified), steps, s);
    var status := step.event.status;
    BoundaryIsWhole(status.response);
    if status.ResyncNeeded? && s.unified {
      RestartUnknown(s, step.now, step.videoParts, step.laterParts);
    } else {
      var cleared := s.(next := Boundary(status.response), pending := []);
      RequestStartsAt(cleared, step.videoParts, cleared.next);
      RequestAddsNew(cleared, step.videoParts);
      NewAreAsked(Request(cleared, step.videoParts), step.now, step.laterParts, cleared.next);
    }
  }

  lemma RestartUnknown(s: State, now: int, videoParts: nat, laterParts: nat)
    ensures Restart(s, UNKNOWN, now, videoParts, laterParts)
         == s.(next := UNKNOWN, pending := [], timeTask := s.timeTask || s.delayTaskId == 0)
  {
    assert Promoted([]) == [] && Asked([], now) == [] && s.available + [] == s.available;
  }

  // --- Three at any time

  /** Once the start is known, three segments are available or pending. */
  ghost predicate Three(s: State) {
    Inv(s) && (s.next != UNKNOWN ==> |s.available| + |s.pending| == 3)
  }

  lemma CheckThree(s: State, now: int, videoParts: nat)
    requires Three(s)
    ensures Three(Check(s, now, videoParts))
    ensures forall i | 0 <= i < |Check(s, now, videoParts).pending| ::
              AllCaredFor(Check(s, now, videoParts).pending[i], now)
  {
    hide Check, Request, FinishedPrefix, AllCaredFor, SegmentAfter, IsNew, Inv;
    var k, r := FinishedPrefix(s.pending), Check(s, now, videoParts);
    CheckKeeps(s, now, videoParts);
    CheckAsks(s, now, videoParts);
    if s.next != UNKNOWN {
      CheckNext(s, now, videoParts);
    } else {
      UnknownHasNone(s);
      CheckUnknown(s, now, videoParts);
    }
    forall i | 0 <= i < |r.pending|
      ensures AllCaredFor(r.pending[i], now)
    {
      assert SegmentAfter(s.pending[k + i], r.pending[i], now);
      CaredForAfter(s.pending[k + i], r.pending[i], now);
    }
  }

  lemma UnknownHasNone(s: State)
    requires Inv(s) && s.next == UNKNOWN
    ensures s.pending == []
  {
  }

  lemma CheckUnknown(s: State, now: int, videoParts: nat)
    requires s.pending == []
    ensures Check(s, now, videoParts) == s
  {
    assert Promoted([]) == [] && Asked([], now) == [] && s.available + [] == s.available;
  }

  lemma {:induction false} RequestThree(s: State, videoParts: nat)
    requires Inv(s)
    ensures Three(Request(s, videoParts))
  {
    hide Request, Inv;
    RequestFills(s, videoParts);
  }

  /** What a step that checks has before it checks. */
  lemma BeforeCheck(s: State, step: Step) returns (m: State)
    requires Three(s) && Possible(s, step.event) && Checks(step.event)
    ensures Three(m) && Next(s, step) == Check(m, step.now, step.laterParts)
  {
    hide Request, Check, Play, Boundary, Inv;
    match step.event
    case PartArrives(i, j, status) =>
      PendingIsKnown(s);
      if Restarts(s, step.event) {
        BoundaryIsWhole(status.response);
        var next := if status.ResyncNeeded? && s.unified then UNKNOWN else Boundary(status.response);
        ClearedKeeps(s, next);
        m := Request(s.(next := next, pending := []), step.videoParts);
        RequestThree(s.(next := next, pending := []), step.videoParts);
      } else {
        m := AnsweredThenChecked(s, step);
        SetPartKeeps(s, i, j, m.pending[i].parts[j]);
      }
    case Rendering(exhausted) =>
      PlayKeeps(s, step.now, exhausted);
      m := Request(Play(s, step.now, exhausted), step.videoParts);
      RequestThree(Play(s, step.now, exhausted), step.videoParts);
    case Recheck =>
      m := s;
  }

  lemma PendingIsKnown(s: State)
    requires Inv(s) && s.pending != []
    ensures s.next != UNKNOWN
  {
  }

  lemma ClearedKeeps(s: State, next: int)
    requires Inv(s) && s.pending != [] && (next == UNKNOWN || next % SEGMENT_DURATION == 0)
    ensures Inv(s.(next := next, pending := []))
  {
  }

  lemma StepThree(s: State, step: Step)
    requires Three(s) && Possible(s, step.event)
    ensures Three(Next(s, step))
  {
    hide Request, Check, Play, Boundary, Inv;
    match step.event
    case Time(timestamp) => TimeThree(s, timestamp, step.videoParts);
    case Retry(_) =>
      RetryAllowed(s);
      RequestThree(s.(delayTaskId := 0), step.videoParts);
    case _ =>
      var m := BeforeCheck(s, step);
      CheckThree(m, step.now, step.laterParts);
  }

  lemma TimeThree(s: State, timestamp: int, videoParts: nat)
    requires Inv(s) && s.timeTask
    ensures Three(OnTime(s, timestamp, videoParts))
  {
    hide Request;
    OnTimeKeeps(s, timestamp, videoParts);
    var adjusted := Boundary(timestamp) - SEGMENT_BUFFER_DURATION;
    if timestamp > 0 && adjusted > 0 {
      RequestFills(s.(timeTask := false, next := adjusted), videoParts);
    }
  }

  lemma {:induction false} RunThree(s: State, steps: seq<Step>, r: State)
    requires Three(s) && Leads(s, steps, r)
    ensures Three(r)
    decreases |steps|
  {
    hide Three, Next;
    if steps != [] {
      StepThree(s, steps[0]);
      RunThree(Next(s, steps[0]), steps[1..], r);
    }
  }

  /** In every reachable state: once the start is known, exactly three segments are available or pending. Every step
      that checks leaves each pending part finished, asked for or held back until a time that lies ahead. */
  lemma {:induction false} AlwaysCaredFor(unified: bool, steps: seq<Step>, s: State, step: Step)
    requires Leads(NewState(unified), steps, s) && Possible(s, step.event)
    ensures s.next != UNKNOWN ==> |s.available| + |s.pending| == 3
    ensures Checks(step.event) ==>
              forall i | 0 <= i < |Next(s, step).pending| :: AllCaredFor(Next(s, step).pending[i], step.now)
  {
    hide Next, AllCaredFor, Check;
    RunThree(NewState(unified), steps, s);
    if Checks(step.event) {
      var m := BeforeCheck(s, step);
      CheckThree(m, step.now, step.laterParts);
    }
  }

  // --- Asking for the time again

  /** The time was not known, and asking for it again is put off. */
  ghost predicate PutOff(s: State, id: int) {
    Inv(s) && s.next == UNKNOWN && !s.timeTask && s.delayTaskId == id != 0
  }

  /** It is asked for again by the task with that id and by nothing else. */
  lemma OnlyItsTaskAsks(s: State, id: int, step: Step)
    requires PutOff(s, id) && Possible(s, step.event)
    ensures Next(s, step).timeTask <==> step.event == Retry(id)
    ensures step.event != Retry(id) ==> PutOff(Next(s, step), id)
  {
    StepKeeps(s, step);
    hide Check;
    if step.event.Rendering? {
      CheckUnknown(Request(Play(s, step.now, step.event.exhausted), step.videoParts), step.now, step.laterParts);
    } else if step.event.Recheck? {
      CheckUnknown(s, step.now, step.laterParts);
    }
  }

  /** Over any run in which that task does not run, the time is not asked for. */
  lemma {:induction false} NotAskedBefore(s: State, id: int, steps: seq<Step>, r: State)
    requires PutOff(s, id) && Leads(s, steps, r)
    requires forall k | 0 <= k < |steps| :: steps[k].event != Retry(id)
    ensures PutOff(r, id)
    decreases |steps|
  {
    hide PutOff, Next;
    if steps != [] {
      OnlyItsTaskAsks(s, id, steps[0]);
      NotAskedBefore(Next(s, steps[0]), id, steps[1..], r);
    }
  }
}
