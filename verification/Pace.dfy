// The pace of playback: between restarts segments are played in the order of their timestamps, without a gap, and
// while there is something to play each starts one segment duration after the one before it.
module Pace {
  import opened Prelude
  import opened Streaming
  import opened Asking

  /** The timestamp of what is played now or next. */
  function Front(s: State): int {
    s.next - SEGMENT_DURATION * (|s.available| + |s.pending|)
  }

  ghost predicate InOrder(s: State) {
    forall i | 0 <= i < |s.available| :: s.available[i].timestamp == Front(s) + SEGMENT_DURATION * i
  }

  lemma {:induction false} RequestKeepsFront(s: State, videoParts: nat)
    requires Inv(s) && s.next != UNKNOWN
    ensures var r := Request(s, videoParts);
            r.available == s.available && Front(r) == Front(s) && r.reference == s.reference
  {
    hide Request;
    RequestFills(s, videoParts);
    RequestNext(s, videoParts);
    RequestKeepsReference(s, videoParts);
  }

  lemma {:induction false} RequestKeepsReference(s: State, videoParts: nat)
    ensures Request(s, videoParts).reference == s.reference && Request(s, videoParts).wait == s.wait
    decreases if s.next == UNKNOWN || SEGMENT_BUFFER_DURATION < Buffered(s) then 0
              else SEGMENT_BUFFER_DURATION + 1 - Buffered(s)
  {
    if s.next != UNKNOWN && Buffered(s) <= SEGMENT_BUFFER_DURATION {
      var more := s.(
        pending := s.pending + [PendingSegment(s.next, NewParts(videoParts))],
        next := s.next + SEGMENT_DURATION);
      if more.next != UNKNOWN {
        RequestKeepsReference(more, videoParts);
      }
    }
  }

  lemma CheckKeepsFront(s: State, now: int, videoParts: nat)
    requires Inv(s) && s.next != UNKNOWN && InOrder(s)
    ensures var r := Check(s, now, videoParts);
            && s.available <= r.available && Front(r) == Front(s) && r.reference == s.reference && InOrder(r)
            && r.next != UNKNOWN
  {
    hide Request, FinishedPrefix;
    PromoteKeeps(s, now);
    var promoted := Promote(s, now);
    RequestFills(promoted, videoParts);
    RequestKeepsFront(promoted, videoParts);
  }

  /** Playback has something to play when it renders, and has begun. */
  predicate Plays(s: State) {
    s.wait.None? && s.available != [] && s.reference != 0
  }

  lemma PlayKeepsFront(s: State, now: int, exhausted: bool)
    requires Inv(s) && InOrder(s) && Plays(s)
    ensures var r := Play(s, now, exhausted);
            && InOrder(r) && r.reference - Front(r) == s.reference - Front(s)
            && var over := now - s.reference >= SEGMENT_DURATION || (|s.available| > 1 && exhausted);
               Front(r) == Front(s) + if over then SEGMENT_DURATION else 0
  {
  }

  /** When a wait is over, or at the start, what is in front is played from now on. */
  lemma PlaybackBegins(s: State, now: int, exhausted: bool)
    requires Inv(s) && InOrder(s) && s.reference == 0 && s.available != []
    requires s.wait.Some? ==> |s.available| == 3
    ensures var r := Play(s, now, exhausted);
            InOrder(r) && r.wait.None? && r.reference - Front(r) == now - Front(s)
  {
    DurationCounts(s.available);
  }

  /** No restart, and no render without anything to play. */
  ghost predicate Steady(s: State, step: Step)
    requires Possible(s, step.event)
  {
    && !Restarts(s, step.event)
    && (step.event.Rendering? ==> Plays(s))
  }

  ghost predicate LeadsSteadily(s: State, steps: seq<Step>, result: State)
    decreases |steps|
  {
    if steps == [] then s == result
    else
      && Possible(s, steps[0].event) && Steady(s, steps[0])
      && LeadsSteadily(Next(s, steps[0]), steps[1..], result)
  }

  ghost predicate KeepsPace(s: State, r: State) {
    InOrder(r) && Front(s) <= Front(r) && r.reference - Front(r) == s.reference - Front(s)
  }

  lemma StepKeepsPace(s: State, step: Step)
    requires Inv(s) && s.next != UNKNOWN && InOrder(s) && Possible(s, step.event) && Steady(s, step)
    ensures Next(s, step).next != UNKNOWN && KeepsPace(s, Next(s, step))
  {
    hide Request, Check, Play, Inv;
    match step.event
    case Time(_) => KnownHasNoTask(s);
    case Retry(_) =>
      RetryAllowed(s);
      RequestFills(s.(delayTaskId := 0), step.videoParts);
      RequestKeepsFront(s.(delayTaskId := 0), step.videoParts);
    case PartArrives(i, j, status) =>
      var m := AnsweredThenChecked(s, step);
      SetPartKeeps(s, i, j, m.pending[i].parts[j]);
      CheckKeepsFront(m, step.now, step.laterParts);
    case Rendering(exhausted) =>
      PlayKeeps(s, step.now, exhausted);
      PlayPending(s, step.now, exhausted);
      PlayKeepsFront(s, step.now, exhausted);
      RequestFills(Play(s, step.now, exhausted), step.videoParts);
      RequestKeepsFront(Play(s, step.now, exhausted), step.videoParts);
      CheckKeepsFront(Request(Play(s, step.now, exhausted), step.videoParts), step.now, step.laterParts);
    case Recheck =>
      CheckKeepsFront(s, step.now, step.laterParts);
  }

  lemma KnownHasNoTask(s: State)
    requires Inv(s) && s.next != UNKNOWN
    ensures !s.timeTask
  {
  }

  lemma {:induction false} RunKeepsPace(s: State, steps: seq<Step>, r: State)
    requires Inv(s) && s.next != UNKNOWN && InOrder(s) && LeadsSteadily(s, steps, r)
    ensures KeepsPace(s, r)
    decreases |steps|
  {
    hide Inv, Next, InOrder, Steady;
    if steps != [] {
      StepKeeps(s, steps[0]);
      StepKeepsPace(s, steps[0]);
      RunKeepsPace(Next(s, steps[0]), steps[1..], r);
    }
  }

  /** From any reachable state in which what is available is in order, over any run without a restart that never
      renders with nothing to play: segments are played one after the other without a gap, and the time at which
      the one in front began differs from its timestamp by the same amount throughout. */
  lemma {:induction false} PlaybackKeepsPace(unified: bool, before: seq<Step>, s: State, steps: seq<Step>, r: State)
    requires Leads(NewState(unified), before, s) && s.next != UNKNOWN && InOrder(s)
    requires LeadsSteadily(s, steps, r)
    ensures forall i | 0 <= i < |r.available| :: r.available[i].timestamp == Front(r) + SEGMENT_DURATION * i
    ensures Front(s) <= Front(r) && r.reference - Front(r) == s.reference - Front(s)
  {
    RunKeeps(NewState(unified), before, s);
    RunKeepsPace(s, steps, r);
  }

  // --- Waiting

  /** After playing, playback waits exactly when there was nothing to play, or it waited and there are fewer than
      three segments; it waits for three seconds of them, and nothing has begun. */
  lemma {:induction false} WaitsIff(unified: bool, steps: seq<Step>, s: State, now: int, exhausted: bool)
    requires Leads(NewState(unified), steps, s)
    ensures var r := Play(s, now, exhausted);
            && (r.wait.Some? <==> s.available == [] || (s.wait.Some? && |s.available| < 3))
            && (r.wait.Some? ==> r.wait == Some(3000) && r.reference == 0)
  {
    hide Request, Check;
    RunKeeps(NewState(unified), steps, s);
    RunRests(NewState(unified), steps, s);
    DurationCounts(s.available);
  }

  /** While playback waits nothing has begun. */
  ghost predicate Rests(s: State) {
    s.wait.Some? ==> s.reference == 0
  }

  lemma CheckKeepsPlayback(s: State, now: int, videoParts: nat)
    ensures var r := Check(s, now, videoParts); r.reference == s.reference && r.wait == s.wait
  {
    hide Request;
    RequestKeepsReference(Promote(s, now), videoParts);
  }

  /** Only a render plays. */
  lemma OthersKeepPlayback(s: State, step: Step)
    requires Possible(s, step.event) && !step.event.Rendering?
    ensures Next(s, step).reference == s.reference && Next(s, step).wait == s.wait
  {
    hide Request, Check, Boundary;
    match step.event
    case Time(timestamp) =>
      var adjusted := if timestamp > 0 then Boundary(timestamp) - SEGMENT_BUFFER_DURATION else 0;
      RequestKeepsReference(s.(timeTask := false, next := adjusted), step.videoParts);
    case Retry(_) =>
      RequestKeepsReference(s.(delayTaskId := 0), step.videoParts);
    case PartArrives(i, j, status) =>
      if Restarts(s, step.event) {
        var next := if status.ResyncNeeded? && s.unified then UNKNOWN else Boundary(status.response);
        var cleared := s.(next := next, pending := []);
        RequestKeepsReference(cleared, step.videoParts);
        CheckKeepsPlayback(Request(cleared, step.videoParts), step.now, step.laterParts);
      } else {
        var m := AnsweredThenChecked(s, step);
        CheckKeepsPlayback(m, step.now, step.laterParts);
      }
    case Recheck =>
      CheckKeepsPlayback(s, step.now, step.laterParts);
  }

  lemma StepRests(s: State, step: Step)
    requires Rests(s) && Possible(s, step.event)
    ensures Rests(Next(s, step))
  {
    hide Request, Check;
    if step.event.Rendering? {
      var played := Play(s, step.now, step.event.exhausted);
      RequestKeepsReference(played, step.videoParts);
      CheckKeepsPlayback(Request(played, step.videoParts), step.now, step.laterParts);
    } else {
      OthersKeepPlayback(s, step);
    }
  }

  lemma {:induction false} RunRests(s: State, steps: seq<Step>, r: State)
    requires Rests(s) && Leads(s, steps, r)
    ensures Rests(r)
    decreases |steps|
  {
    hide Rests, Next;
    if steps != [] {
      StepRests(s, steps[0]);
      RunRests(Next(s, steps[0]), steps[1..], r);
    }
  }

  /** As long as nothing was rendered nothing has begun. */
  lemma {:induction false} NothingBegins(s: State, steps: seq<Step>, r: State)
    requires Leads(s, steps, r) && forall k | 0 <= k < |steps| :: !steps[k].event.Rendering?
    ensures r.reference == s.reference && r.wait == s.wait
    decreases |steps|
  {
    hide Next;
    if steps != [] {
      OthersKeepPlayback(s, steps[0]);
      NothingBegins(Next(s, steps[0]), steps[1..], r);
    }
  }

  /** When a wait is over, and at the first render, what is in front is played from that time on. */
  lemma {:induction false} PlaybackBeginsNow(unified: bool, steps: seq<Step>, s: State, now: int, exhausted: bool)
    requires Leads(NewState(unified), steps, s) && InOrder(s)
    requires (s.wait.Some? && |s.available| == 3)
          || (s.available != [] && forall k | 0 <= k < |steps| :: !steps[k].event.Rendering?)
    ensures var r := Play(s, now, exhausted);
            InOrder(r) && r.wait.None? && r.reference - Front(r) == now - Front(s)
  {
    RunKeeps(NewState(unified), steps, s);
    RunRests(NewState(unified), steps, s);
    if forall k | 0 <= k < |steps| :: !steps[k].event.Rendering? {
      NothingBegins(NewState(unified), steps, s);
    }
    hide Play, Leads;
    PlaybackBegins(s, now, exhausted);
  }
}
