// The segment scheduler of a live stream (group/StreamingMediaContext.cpp): which
// segments are asked for, when they become playable, and when playback waits.
module Streaming {
  import opened Prelude

  const SEGMENT_DURATION: int := 1000
  const SEGMENT_BUFFER_DURATION: int := 2000
  const REBUFFER_DURATION: int := SEGMENT_BUFFER_DURATION + SEGMENT_DURATION
  const UNKNOWN: int := -1

  /** A part of a segment: not asked for before minRequest (0: at once), asked for, there. */
  datatype Part = Part(minRequest: int, task: bool, result: bool)

  datatype PendingSegment = PendingSegment(timestamp: int, parts: seq<Part>)
  datatype Segment = Segment(timestamp: int, duration: int)

  datatype State = State(
    unified: bool,                   // _isUnifiedBroadcast
    next: int,                       // _nextSegmentTimestamp
    available: seq<Segment>,         // _availableSegments
    pending: seq<PendingSegment>,    // _pendingSegments
    timeTask: bool,                  // _pendingRequestTimeTask
    delayTaskId: int,                // _pendingRequestTimeDelayTaskId
    nextDelayTaskId: int,            // _nextPendingRequestTimeDelayTaskId
    wait: Option<int>,               // _waitForBufferredMillisecondsBeforeRendering
    reference: int)                  // _playbackReferenceTimestamp

  function NewState(unified: bool): State {
    State(unified, UNKNOWN, [], [], false, 0, 0, None, 0)
  }

  // --- Asking for segments

  /** getAvailableBufferDuration */
  function Duration(available: seq<Segment>): int {
    if available == [] then 0 else Duration(available[..|available| - 1]) + available[|available| - 1].duration
  }

  const NEW_PART: Part := Part(0, false, false)

  /** Sound, or sound and picture, and a part for each video channel that can be asked for. */
  function NewParts(videoParts: nat): (parts: seq<Part>)
    ensures |parts| == 1 + videoParts
    ensures forall i | 0 <= i < |parts| :: parts[i] == NEW_PART
  {
    seq(1 + videoParts, i => NEW_PART)
  }

  function Buffered(s: State): int {
    Duration(s.available) + |s.pending| * SEGMENT_DURATION
  }

  /** requestSegmentsIfNeeded */
  function Request(s: State, videoParts: nat): State
    decreases if s.next == UNKNOWN || SEGMENT_BUFFER_DURATION < Buffered(s) then 0
              else SEGMENT_BUFFER_DURATION + 1 - Buffered(s)
  {
    if s.next == UNKNOWN then
      if !s.timeTask && s.delayTaskId == 0 then s.(timeTask := true) else s
    else if Buffered(s) > SEGMENT_BUFFER_DURATION then s
    else
      var more := s.(
        pending := s.pending + [PendingSegment(s.next, NewParts(videoParts))],
        next := s.next + SEGMENT_DURATION);
      if more.next == UNKNOWN then more else Request(more, videoParts)
  }

  // --- Segments become available

  predicate Finished(p: PendingSegment) {
    forall i | 0 <= i < |p.parts| :: p.parts[i].result
  }

  /** How many segments at the front are finished. */
  function FinishedPrefix(pending: seq<PendingSegment>): (k: nat)
    ensures k <= |pending|
    ensures forall i | 0 <= i < k :: Finished(pending[i])
    ensures k < |pending| ==> !Finished(pending[k])
  {
    if pending == [] || !Finished(pending[0]) then 0 else 1 + FinishedPrefix(pending[1..])
  }

  function Promoted(pending: seq<PendingSegment>): (segments: seq<Segment>)
    ensures |segments| == |pending|
    ensures forall i | 0 <= i < |pending| :: segments[i] == Segment(pending[i].timestamp, SEGMENT_DURATION)
  {
    seq(|pending|, i requires 0 <= i < |pending| => Segment(pending[i].timestamp, SEGMENT_DURATION))
  }

  function AskPart(p: Part, now: int): Part {
    if p.result || p.task || (p.minRequest != 0 && p.minRequest > now) then p else p.(task := true)
  }

  function AskParts(parts: seq<Part>, now: int): (asked: seq<Part>)
    ensures |asked| == |parts|
    ensures forall i | 0 <= i < |parts| :: asked[i] == AskPart(parts[i], now)
  {
    seq(|parts|, i requires 0 <= i < |parts| => AskPart(parts[i], now))
  }

  function AskSegment(p: PendingSegment, now: int): PendingSegment {
    PendingSegment(p.timestamp, AskParts(p.parts, now))
  }

  function Asked(pending: seq<PendingSegment>, now: int): (asked: seq<PendingSegment>)
    ensures |asked| == |pending|
    ensures forall i | 0 <= i < |pending| :: asked[i] == AskSegment(pending[i], now)
  {
    seq(|pending|, i requires 0 <= i < |pending| => AskSegment(pending[i], now))
  }

  /** The loop of checkPendingSegments. */
  function Promote(s: State, now: int): State {
    var k := FinishedPrefix(s.pending);
    s.(available := s.available + Promoted(s.pending[..k]), pending := Asked(s.pending[k..], now))
  }

  /** checkPendingSegments */
  function Check(s: State, now: int, videoParts: nat): State {
    var promoted := Promote(s, now);
    if FinishedPrefix(s.pending) > 0 then Request(promoted, videoParts) else promoted
  }

  // --- What comes from outside

  /** Down to a whole segment, as C++ divides: toward zero. */
  function Boundary(milliseconds: int): int {
    if milliseconds >= 0 then milliseconds / SEGMENT_DURATION * SEGMENT_DURATION
    else -(-milliseconds / SEGMENT_DURATION * SEGMENT_DURATION)
  }

  /** The answer to the request of the current time. */
  function OnTime(s: State, timestamp: int, videoParts: nat): State {
    var adjusted := if timestamp > 0 then Boundary(timestamp) - SEGMENT_BUFFER_DURATION else 0;
    if adjusted <= 0 then
      s.(timeTask := false, delayTaskId := s.nextDelayTaskId, nextDelayTaskId := s.nextDelayTaskId + 1)
    else Request(s.(timeTask := false, next := adjusted), videoParts)
  }

  /** The delayed repetition of that request. */
  function OnRetry(s: State, taskId: int, videoParts: nat): State {
    if s.delayTaskId != taskId then s else Request(s.(delayTaskId := 0), videoParts)
  }

  datatype Status =
    | Success(timestamp: int)
    | NotReady(response: int)
    | ResyncNeeded(response: int)

  function SetPart(s: State, i: nat, j: nat, part: Part): State
    requires i < |s.pending| && j < |s.pending[i].parts|
  {
    s.(pending := s.pending[i := s.pending[i].(parts := s.pending[i].parts[j := part])])
  }

  /** discardAllPendingSegments, and starting over from a timestamp */
  function Restart(s: State, next: int, now: int, videoParts: nat, laterParts: nat): State {
    Check(Request(s.(next := next, pending := []), videoParts), now, laterParts)
  }

  /** The answer to the request of a part that is still there. */
  function OnPart(s: State, i: nat, j: nat, status: Status, now: int, videoParts: nat, laterParts: nat): State
    requires i < |s.pending| && j < |s.pending[i].parts|
  {
    var part := s.pending[i].parts[j].(task := false);
    match status
    case Success(timestamp) =>
      var done := SetPart(s, i, j, part.(result := true));
      Check(if s.next == UNKNOWN then done.(next := timestamp + SEGMENT_DURATION) else done, now, laterParts)
    case NotReady(response) =>
      if s.pending[i].timestamp == 0 && !s.unified then Restart(s, Boundary(response), now, videoParts, laterParts)
      else Check(SetPart(s, i, j, part.(minRequest := now + 100)), now, laterParts)
    case ResyncNeeded(response) =>
      Restart(s, if s.unified then UNKNOWN else Boundary(response), now, videoParts, laterParts)
  }

  /** The loop of render, which goes round once: whether playback waits, and whether the first
      segment is over. exhausted: its sound and pictures have all been played. */
  function Play(s: State, now: int, exhausted: bool): State {
    if s.wait.Some? && Duration(s.available) < s.wait.value then s
    else
      var s := s.(wait := None);
      if s.available == [] then s.(reference := 0, wait := Some(REBUFFER_DURATION))
      else
        var s := if s.reference == 0 then s.(reference := now) else s;
        var duration := s.available[0].duration;
        if now - s.reference >= duration || (|s.available| > 1 && exhausted) then
          s.(reference := s.reference + duration, available := s.available[1..])
        else s
  }

  /** render */
  function Render(s: State, now: int, exhausted: bool, videoParts: nat, laterParts: nat): State {
    Check(Request(Play(s, now, exhausted), videoParts), now, laterParts)
  }

  datatype Event =
    | Time(timestamp: int)
    | Retry(taskId: int)
    | PartArrives(segment: nat, part: nat, status: Status)
    | Rendering(exhausted: bool)
    | Recheck

  predicate Possible(s: State, e: Event) {
    match e
    case Time(_) => s.timeTask
    case PartArrives(i, j, _) => i < |s.pending| && j < |s.pending[i].parts|
    case _ => true
  }

  /** An event, when it happens, and how many video parts a segment has then and after a promotion. */
  datatype Step = Step(event: Event, now: int, videoParts: nat, laterParts: nat)

  function Next(s: State, step: Step): State
    requires Possible(s, step.event)
  {
    match step.event
    case Time(timestamp) => OnTime(s, timestamp, step.videoParts)
    case Retry(taskId) => OnRetry(s, taskId, step.videoParts)
    case PartArrives(i, j, status) => OnPart(s, i, j, status, step.now, step.videoParts, step.laterParts)
    case Rendering(exhausted) => Render(s, step.now, exhausted, step.videoParts, step.laterParts)
    case Recheck => Check(s, step.now, step.laterParts)
  }

  ghost predicate Leads(s: State, steps: seq<Step>, result: State)
    decreases |steps|
  {
    if steps == [] then s == result
    else Possible(s, steps[0].event) && Leads(Next(s, steps[0]), steps[1..], result)
  }

  // --- What holds in every reachable state

  /** Timestamps one segment apart, the next to ask for behind the last. */
  ghost predicate Consecutive(pending: seq<PendingSegment>, next: int) {
    forall k | 0 <= k < |pending| :: pending[k].timestamp == next - SEGMENT_DURATION * (|pending| - k)
  }

  ghost predicate Inv(s: State) {
    && |s.available| + |s.pending| <= 3
    && (forall k | 0 <= k < |s.available| :: s.available[k].duration == SEGMENT_DURATION)
    && (s.next == UNKNOWN ==> s.pending == [])
    && (s.next != UNKNOWN ==> s.next % SEGMENT_DURATION == 0 && !s.timeTask)
    && Consecutive(s.pending, s.next)
    && (forall k | 0 <= k < |s.pending| :: s.pending[k].parts != [])
    && (s.wait.Some? ==> s.wait.value == REBUFFER_DURATION)
  }

  lemma {:induction false} DurationCounts(available: seq<Segment>)
    requires forall k | 0 <= k < |available| :: available[k].duration == SEGMENT_DURATION
    ensures Duration(available) == SEGMENT_DURATION * |available|
  {
    if available != [] {
      DurationCounts(available[..|available| - 1]);
    }
  }

  /** Asking for segments goes on until, with those available, there are exactly three. */
  lemma {:induction false} RequestFills(s: State, videoParts: nat)
    requires Inv(s)
    ensures Inv(Request(s, videoParts))
    ensures var r := Request(s, videoParts);
            && r.available == s.available && r.wait == s.wait
            && s.pending <= r.pending
            && (s.next == UNKNOWN <==> r.next == UNKNOWN)
            && (s.next != UNKNOWN ==> |r.available| + |r.pending| == 3)
    decreases 3 - |s.available| - |s.pending|
  {
    DurationCounts(s.available);
    if s.next != UNKNOWN && Buffered(s) <= SEGMENT_BUFFER_DURATION {
      var more := s.(
        pending := s.pending + [PendingSegment(s.next, NewParts(videoParts))],
        next := s.next + SEGMENT_DURATION);
      RequestFills(more, videoParts);
    }
  }

  /** Exactly the finished segments at the front become available, in order; the rest stay. */
  lemma PromoteKeeps(s: State, now: int)
    requires Inv(s)
    ensures Inv(Promote(s, now))
    ensures var r := Promote(s, now);
            |r.available| + |r.pending| == |s.available| + |s.pending|
  {
    hide FinishedPrefix, AskParts;
    var k, r := FinishedPrefix(s.pending), Promote(s, now);
    assert forall i | 0 <= i < |r.pending| :: r.pending[i].timestamp == s.pending[i + k].timestamp;
    assert forall i | 0 <= i < |r.pending| :: |r.pending[i].parts| == |s.pending[i + k].parts|;
  }

  lemma CheckKeeps(s: State, now: int, videoParts: nat)
    requires Inv(s)
    ensures Inv(Check(s, now, videoParts))
  {
    hide Inv, Request, Promote;
    PromoteKeeps(s, now);
    RequestFills(Promote(s, now), videoParts);
  }

  lemma BoundaryIsWhole(milliseconds: int)
    ensures Boundary(milliseconds) % SEGMENT_DURATION == 0 && Boundary(milliseconds) != UNKNOWN
  {
  }

  lemma RestartKeeps(s: State, next: int, now: int, videoParts: nat, laterParts: nat)
    requires Inv(s) && s.pending != []
    requires next == UNKNOWN || next % SEGMENT_DURATION == 0
    ensures Inv(Restart(s, next, now, videoParts, laterParts))
  {
    hide Request, Check;
    var cleared := s.(next := next, pending := []);
    RequestFills(cleared, videoParts);
    CheckKeeps(Request(cleared, videoParts), now, laterParts);
  }

  lemma SetPartKeeps(s: State, i: nat, j: nat, part: Part)
    requires Inv(s) && i < |s.pending| && j < |s.pending[i].parts|
    ensures Inv(SetPart(s, i, j, part))
  {
  }

  lemma OnPartKeeps(s: State, i: nat, j: nat, status: Status, now: int, videoParts: nat, laterParts: nat)
    requires Inv(s) && i < |s.pending| && j < |s.pending[i].parts|
    ensures Inv(OnPart(s, i, j, status, now, videoParts, laterParts))
  {
    assert s.next != UNKNOWN;
    hide Inv, Check, Restart, SetPart, Boundary;
    var part := s.pending[i].parts[j].(task := false);
    match status
    case Success(_) =>
      SetPartKeeps(s, i, j, part.(result := true));
      CheckKeeps(SetPart(s, i, j, part.(result := true)), now, laterParts);
    case NotReady(response) =>
      BoundaryIsWhole(response);
      RestartKeeps(s, Boundary(response), now, videoParts, laterParts);
      SetPartKeeps(s, i, j, part.(minRequest := now + 100));
      CheckKeeps(SetPart(s, i, j, part.(minRequest := now + 100)), now, laterParts);
    case ResyncNeeded(response) =>
      BoundaryIsWhole(response);
      RestartKeeps(s, if s.unified then UNKNOWN else Boundary(response), now, videoParts, laterParts);
  }

  lemma PlayKeeps(s: State, now: int, exhausted: bool)
    requires Inv(s)
    ensures Inv(Play(s, now, exhausted))
  {
  }

  lemma RenderKeeps(s: State, now: int, exhausted: bool, videoParts: nat, laterParts: nat)
    requires Inv(s)
    ensures Inv(Render(s, now, exhausted, videoParts, laterParts))
  {
    hide Inv, Play, Request, Check;
    PlayKeeps(s, now, exhausted);
    RequestFills(Play(s, now, exhausted), videoParts);
    CheckKeeps(Request(Play(s, now, exhausted), videoParts), now, laterParts);
  }

  lemma OnTimeKeeps(s: State, timestamp: int, videoParts: nat)
    requires Inv(s) && s.timeTask
    ensures Inv(OnTime(s, timestamp, videoParts))
  {
    hide Request;
    var adjusted := Boundary(timestamp) - SEGMENT_BUFFER_DURATION;
    if timestamp > 0 && adjusted > 0 {
      RequestFills(s.(timeTask := false, next := adjusted), videoParts);
    }
  }

  lemma StepKeeps(s: State, step: Step)
    requires Inv(s) && Possible(s, step.event)
    ensures Inv(Next(s, step))
  {
    hide Inv, Request, Check, OnPart, Render, OnTime;
    match step.event
    case Time(timestamp) => OnTimeKeeps(s, timestamp, step.videoParts);
    case Retry(taskId) =>
      RetryAllowed(s);
      RequestFills(s.(delayTaskId := 0), step.videoParts);
    case PartArrives(i, j, status) => OnPartKeeps(s, i, j, status, step.now, step.videoParts, step.laterParts);
    case Rendering(exhausted) => RenderKeeps(s, step.now, exhausted, step.videoParts, step.laterParts);
    case Recheck => CheckKeeps(s, step.now, step.laterParts);
  }

  lemma RetryAllowed(s: State)
    requires Inv(s)
    ensures Inv(s.(delayTaskId := 0))
  {
  }

  lemma {:induction false} RunKeeps(s: State, steps: seq<Step>, result: State)
    requires Inv(s) && Leads(s, steps, result)
    ensures Inv(result)
    decreases |steps|
  {
    hide Inv, Next;
    if steps != [] {
      StepKeeps(s, steps[0]);
      RunKeeps(Next(s, steps[0]), steps[1..], result);
    }
  }

  // --- Main results

  /** In every reachable state: at most three segments are available or pending, nothing is pending
      while the start is unknown, and the pending timestamps are consecutive up to the next. */
  lemma {:induction false} SchedulerIsBounded(unified: bool, steps: seq<Step>, s: State)
    requires Leads(NewState(unified), steps, s)
    ensures |s.available| + |s.pending| <= 3
    ensures s.next == UNKNOWN ==> s.pending == []
    ensures forall k | 0 < k < |s.pending| :: s.pending[k].timestamp == s.pending[k - 1].timestamp + SEGMENT_DURATION
    ensures s.pending != [] ==> s.next == s.pending[|s.pending| - 1].timestamp + SEGMENT_DURATION
  {
    RunKeeps(NewState(unified), steps, s);
  }

  /** In every reachable state whose start is known: asking for segments makes them three, and once
      the pending ones are all finished, the check leaves exactly as much to play as rebuffering waits
      for, so playback goes on. */
  lemma {:induction false} RebufferingEnds(
      unified: bool, steps: seq<Step>, s: State, videoParts: nat, now: int, finished: State, exhausted: bool)
    requires Leads(NewState(unified), steps, s) && s.next != UNKNOWN
    requires |finished.pending| == |Request(s, videoParts).pending|
    requires finished == Request(s, videoParts).(pending := finished.pending)
    requires forall k | 0 <= k < |finished.pending| :: Finished(finished.pending[k])
    ensures Duration(Promote(finished, now).available) == REBUFFER_DURATION
    ensures Play(Promote(finished, now), now, exhausted).wait.None?
  {
    RunKeeps(NewState(unified), steps, s);
    RequestFills(s, videoParts);
    hide Request;
    var r := Promote(finished, now);
    assert FinishedPrefix(finished.pending) == |finished.pending|;
    assert finished.pending[..|finished.pending|] == finished.pending;
    assert forall k | 0 <= k < |r.available| :: r.available[k].duration == SEGMENT_DURATION;
    DurationCounts(r.available);
  }

  /** With fewer than three segments available, playback that waits goes on waiting. */
  lemma {:induction false} RebufferingNeedsThree(unified: bool, steps: seq<Step>, s: State, now: int, exhausted: bool)
    requires Leads(NewState(unified), steps, s) && s.wait.Some?
    ensures |s.available| < 3 <==> Play(s, now, exhausted) == s
  {
    RunKeeps(NewState(unified), steps, s);
    DurationCounts(s.available);
  }

  ghost predicate TimestampsFrom(segments: seq<Segment>, first: int) {
    forall i | 0 <= i < |segments| :: segments[i].timestamp == first + SEGMENT_DURATION * i
  }

  /** Between restarts what becomes available continues what was: the promoted timestamps go up by
      one segment and the first pending one follows the last promoted. */
  lemma {:induction false} PromotionInOrder(unified: bool, steps: seq<Step>, s: State, now: int)
    requires Leads(NewState(unified), steps, s)
    ensures var k, r := FinishedPrefix(s.pending), Promote(s, now);
            && r.available[..|s.available|] == s.available
            && |r.available| == |s.available| + k
            && TimestampsFrom(r.available[|s.available|..], s.next - SEGMENT_DURATION * |s.pending|)
            && (r.pending != [] ==> r.pending[0].timestamp == s.next - SEGMENT_DURATION * |r.pending| && !Finished(r.pending[0]))
  {
    RunKeeps(NewState(unified), steps, s);
    var k, r := FinishedPrefix(s.pending), Promote(s, now);
    if r.pending != [] {
      AskingFinishesNothing(s.pending[k], now);
    }
  }

  lemma AskingFinishesNothing(p: PendingSegment, now: int)
    ensures Finished(AskSegment(p, now)) <==> Finished(p)
  {
    assert forall i | 0 <= i < |p.parts| :: AskPart(p.parts[i], now).result == p.parts[i].result;
  }

  /** The first retry of the time request is not held back: the id of its delayed task is 0, which
      also stands for none, so the next render asks again at once; any later one waits. */
  lemma {:induction false} OnlyLaterRetriesWait(s: State, timestamp: int, videoParts: nat)
    requires Inv(s) && s.next == UNKNOWN && Boundary(timestamp) - SEGMENT_BUFFER_DURATION <= 0 && s.nextDelayTaskId >= 0
    ensures Request(OnTime(s, timestamp, videoParts), videoParts).timeTask <==> s.nextDelayTaskId == 0
  {
  }

  /** Nothing to play, and the start unknown: a render asks for the time if it may. */
  lemma RendersUnknown(s: State, now: int, exhausted: bool, videoParts: nat, laterParts: nat)
    requires s.next == UNKNOWN && s.available == [] && s.pending == []
    ensures var r := Render(s, now, exhausted, videoParts, laterParts);
            && r.next == UNKNOWN && r.available == [] && r.pending == []
            && r.timeTask == (s.timeTask || s.delayTaskId == 0)
            && r.delayTaskId == s.delayTaskId && r.nextDelayTaskId == s.nextDelayTaskId
  {
    assert Duration([]) == 0;
    assert Promoted([]) == [] && Asked([], now) == [];
  }

  lemma {:induction false} LeadsTwo(s: State, first: Step, second: Step)
    requires Possible(s, first.event) && Possible(Next(s, first), second.event)
    ensures Leads(s, [first, second], Next(Next(s, first), second))
  {
    hide Next;
    assert [first, second][1..] == [second] && [second][1..] == [];
    assert Leads(Next(Next(s, first), second), [], Next(Next(s, first), second));
    assert Leads(Next(s, first), [second], Next(Next(s, first), second));
  }

  lemma {:induction false} LeadsConcat(s: State, a: seq<Step>, middle: State, b: seq<Step>, result: State)
    requires Leads(s, a, middle) && Leads(middle, b, result)
    ensures Leads(s, a + b, result)
    decreases |a|
  {
    hide Next;
    if a == [] {
      assert a + b == b;
    } else {
      assert (a + b)[0] == a[0] && (a + b)[1..] == a[1..] + b;
      LeadsConcat(Next(s, a[0]), a[1..], middle, b, result);
    }
  }

  /** A new stream renders, and the time it asks for is not known: the next render asks again, whenever it
      is. When that fails too, renders do not ask until the delayed task runs. */
  lemma FirstRetryIsAtOnce(unified: bool, render: Step, time: Step)
    requires render.event.Rendering? && time.event == Time(0)
    ensures !NewState(unified).timeTask && Next(NewState(unified), render).timeTask
    ensures exists s :: Leads(NewState(unified), [render, time], s) && !s.timeTask && Next(s, render).timeTask
    ensures exists s :: && Leads(NewState(unified), [render, time] + [render, time], s)
                        && !s.timeTask && !Next(s, render).timeTask
  {
    var s0 := NewState(unified);
    RendersUnknown(s0, render.now, render.event.exhausted, render.videoParts, render.laterParts);
    hide Render;
    var s1 := Next(s0, render);
    var s2 := Next(s1, time);
    LeadsTwo(s0, render, time);
    RendersUnknown(s2, render.now, render.event.exhausted, render.videoParts, render.laterParts);
    var s3 := Next(s2, render);
    var s4 := Next(s3, time);
    LeadsTwo(s2, render, time);
    RendersUnknown(s4, render.now, render.event.exhausted, render.videoParts, render.laterParts);
    assert s4.delayTaskId == 1;
    hide Next, Leads;
    LeadsConcat(s0, [render, time], s2, [render, time], s4);
  }
}
