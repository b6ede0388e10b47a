// The scheduler as the object it is: fields changed in place by the timer and by
// the answers to its requests, each operation proved to do what Streaming says.
module StreamingContexts {
  import opened Prelude
  import opened Streaming

  class StreamingMediaContext {
    const unified: bool
    var nextSegmentTimestamp: int
    var availableSegments: seq<Segment>
    var pendingSegments: seq<PendingSegment>
    var pendingRequestTimeTask: bool
    var pendingRequestTimeDelayTaskId: int
    var nextPendingRequestTimeDelayTaskId: int
    var waitForBufferedMilliseconds: Option<int>
    var playbackReferenceTimestamp: int
    var delayedTasks: seq<int>    // the ids of the delayed time requests posted so far

    ghost function Model(): State
      reads this
    {
      State(unified, nextSegmentTimestamp, availableSegments, pendingSegments, pendingRequestTimeTask,
            pendingRequestTimeDelayTaskId, nextPendingRequestTimeDelayTaskId, waitForBufferedMilliseconds,
            playbackReferenceTimestamp)
    }

    constructor (unified: bool)
      ensures Model() == NewState(unified)
    {
      this.unified := unified;
      nextSegmentTimestamp, availableSegments, pendingSegments := UNKNOWN, [], [];
      pendingRequestTimeTask, pendingRequestTimeDelayTaskId, nextPendingRequestTimeDelayTaskId := false, 0, 0;
      waitForBufferedMilliseconds, playbackReferenceTimestamp := None, 0;
      delayedTasks := [];
    }

    method GetAvailableBufferDuration() returns (result: int)
      ensures result == Duration(availableSegments)
    {
      result := 0;
      var i := 0;
      while i < |availableSegments|
        invariant 0 <= i <= |availableSegments| && result == Duration(availableSegments[..i])
      {
        assert availableSegments[..i + 1][..i] == availableSegments[..i];
        result := result + availableSegments[i].duration;
        i := i + 1;
      }
      assert availableSegments[..i] == availableSegments;
    }

    method DiscardAllPendingSegments()
      modifies this`pendingSegments
      ensures pendingSegments == []
    {
      pendingSegments := [];
    }

    method RequestSegmentsIfNeeded(videoParts: nat)
      modifies this
      ensures Model() == Request(old(Model()), videoParts)
      ensures delayedTasks == old(delayedTasks)
    {
      while true
        invariant Request(Model(), videoParts) == Request(old(Model()), videoParts)
        invariant delayedTasks == old(delayedTasks)
        decreases if nextSegmentTimestamp == UNKNOWN || SEGMENT_BUFFER_DURATION < Buffered(Model()) then 0
                  else SEGMENT_BUFFER_DURATION + 1 - Buffered(Model())
      {
        if nextSegmentTimestamp == UNKNOWN {
          if !pendingRequestTimeTask && pendingRequestTimeDelayTaskId == 0 {
            pendingRequestTimeTask := true;
          }
          break;
        } else {
          var duration := GetAvailableBufferDuration();
          duration := duration + |pendingSegments| * SEGMENT_DURATION;
          if duration > SEGMENT_BUFFER_DURATION {
            break;
          }
        }
        var timestamp := nextSegmentTimestamp;
        nextSegmentTimestamp := nextSegmentTimestamp + SEGMENT_DURATION;
        var parts := [NEW_PART];
        var v := 0;
        while v < videoParts
          invariant 0 <= v <= videoParts && parts == NewParts(v)
        {
          parts := parts + [NEW_PART];
          v := v + 1;
        }
        pendingSegments := pendingSegments + [PendingSegment(timestamp, parts)];
        if nextSegmentTimestamp == UNKNOWN {
          break;
        }
      }
    }

    /** Asks for the parts of a segment that can be asked for now. */
    method AskForParts(i: nat, now: int) returns (allPartsDone: bool)
      requires i < |pendingSegments|
      modifies this`pendingSegments
      ensures allPartsDone == Finished(old(pendingSegments)[i])
      ensures |pendingSegments| == |old(pendingSegments)|
      ensures pendingSegments == old(pendingSegments)[i := AskSegment(old(pendingSegments)[i], now)]
    {
      ghost var before := pendingSegments[i].parts;
      allPartsDone := true;
      var j := 0;
      while j < |pendingSegments[i].parts|
        invariant |pendingSegments| == |old(pendingSegments)|
        invariant 0 <= j <= |pendingSegments[i].parts| == |before|
        invariant allPartsDone <==> forall k | 0 <= k < j :: before[k].result
        invariant forall k | 0 <= k < j :: pendingSegments[i].parts[k] == AskPart(before[k], now)
        invariant forall k | j <= k < |before| :: pendingSegments[i].parts[k] == before[k]
        invariant pendingSegments == old(pendingSegments)[i := pendingSegments[i]]
        invariant pendingSegments[i].timestamp == old(pendingSegments)[i].timestamp
      {
        var part := pendingSegments[i].parts[j];
        if !part.result {
          allPartsDone := false;
        }
        if !part.result && !part.task {
          if part.minRequest != 0 && part.minRequest > now {
            j := j + 1;
            continue;
          }
          var segment := pendingSegments[i];
          pendingSegments := pendingSegments[i := segment.(parts := segment.parts[j := part.(task := true)])];
        }
        j := j + 1;
      }
      assert pendingSegments[i].parts == AskParts(before, now);
    }

    method CheckPendingSegments(now: int, videoParts: nat)
      modifies this
      ensures Model() == Check(old(Model()), now, videoParts)
      ensures delayedTasks == old(delayedTasks)
    {
      hide Request, AskSegment, Finished, FinishedPrefix, Asked, Promoted, HalfAsked;
      ghost var before := pendingSegments;
      ghost var k := FinishedPrefix(pendingSegments);
      ghost var done := 0;
      var shouldRequestMoreSegments := false;
      var i := 0;
      CheckStarts(before, now);
      while i < |pendingSegments|
        invariant 0 <= i <= |pendingSegments| && 0 <= done <= k && (i > 0 ==> done == k)
        invariant done + i <= |before|
        invariant pendingSegments == HalfAsked(before, done, i, now)
        invariant availableSegments == old(availableSegments) + Promoted(before[..done])
        invariant shouldRequestMoreSegments <==> done > 0
        invariant Model() == old(Model()).(available := availableSegments, pending := pendingSegments)
        invariant delayedTasks == old(delayedTasks)
        decreases |pendingSegments| - i
      {
        CheckStep(before, done, i, now);
        var timestamp := pendingSegments[i].timestamp;
        var allPartsDone := AskForParts(i, now);
        if allPartsDone && i == 0 {
          assert old(availableSegments) + (Promoted(before[..done]) + [Segment(timestamp, SEGMENT_DURATION)])
              == availableSegments + [Segment(timestamp, SEGMENT_DURATION)];
          availableSegments := availableSegments + [Segment(timestamp, SEGMENT_DURATION)];
          shouldRequestMoreSegments := true;
          pendingSegments := pendingSegments[..i] + pendingSegments[i + 1..];
          done := done + 1;
          i := i - 1;
        }
        i := i + 1;
      }
      CheckEnds(before, done, i, now);
      if shouldRequestMoreSegments {
        RequestSegmentsIfNeeded(videoParts);
      }
    }

    // --- Answers

    method TimeReceived(timestamp: int, videoParts: nat)
      modifies this
      ensures Model() == OnTime(old(Model()), timestamp, videoParts)
      ensures delayedTasks == old(delayedTasks)
           || delayedTasks == old(delayedTasks) + [old(nextPendingRequestTimeDelayTaskId)]
    {
      hide Request;
      pendingRequestTimeTask := false;
      var adjustedTimestamp := 0;
      if timestamp > 0 {
        adjustedTimestamp := timestamp / SEGMENT_DURATION * SEGMENT_DURATION - SEGMENT_BUFFER_DURATION;
      }
      if adjustedTimestamp <= 0 {
        var taskId := nextPendingRequestTimeDelayTaskId;
        pendingRequestTimeDelayTaskId := taskId;
        nextPendingRequestTimeDelayTaskId := nextPendingRequestTimeDelayTaskId + 1;
        delayedTasks := delayedTasks + [taskId];
      } else {
        nextSegmentTimestamp := adjustedTimestamp;
        RequestSegmentsIfNeeded(videoParts);
      }
    }

    method DelayedTimeRequest(taskId: int, videoParts: nat)
      modifies this
      ensures Model() == OnRetry(old(Model()), taskId, videoParts)
    {
      hide Request;
      if pendingRequestTimeDelayTaskId != taskId {
        return;
      }
      pendingRequestTimeDelayTaskId := 0;
      RequestSegmentsIfNeeded(videoParts);
    }

    method PartReceived(i: nat, j: nat, status: Status, now: int, videoParts: nat, laterParts: nat)
      requires i < |pendingSegments| && j < |pendingSegments[i].parts|
      modifies this
      ensures Model() == OnPart(old(Model()), i, j, status, now, videoParts, laterParts)
    {
      hide Request, Check, Boundary;
      var segment := pendingSegments[i];
      var part := segment.parts[j].(task := false);
      match status {
        case Success(timestamp) =>
          pendingSegments := pendingSegments[i := segment.(parts := segment.parts[j := part.(result := true)])];
          if nextSegmentTimestamp == UNKNOWN {
            nextSegmentTimestamp := timestamp + SEGMENT_DURATION;
          }
          CheckPendingSegments(now, laterParts);
        case NotReady(response) =>
          if segment.timestamp == 0 && !unified {
            StartOver(Boundary(response), now, videoParts, laterParts);
          } else {
            pendingSegments := pendingSegments[i := segment.(parts := segment.parts[j := part.(minRequest := now + 100)])];
            CheckPendingSegments(now, laterParts);
          }
        case ResyncNeeded(response) =>
          StartOver(if unified then UNKNOWN else Boundary(response), now, videoParts, laterParts);
      }
    }

    method StartOver(next: int, now: int, videoParts: nat, laterParts: nat)
      modifies this
      ensures Model() == Restart(old(Model()), next, now, videoParts, laterParts)
    {
      hide Request, Check;
      nextSegmentTimestamp := next;
      DiscardAllPendingSegments();
      RequestSegmentsIfNeeded(videoParts);
      CheckPendingSegments(now, laterParts);
    }

    // --- Playback

    method RenderSegments(now: int, exhausted: bool, videoParts: nat, laterParts: nat)
      modifies this
      ensures Model() == Render(old(Model()), now, exhausted, videoParts, laterParts)
    {
      hide Request, Check;
      PlaySegment(now, exhausted);
      RequestSegmentsIfNeeded(videoParts);
      CheckPendingSegments(now, laterParts);
    }

    /** The loop of render. */
    method PlaySegment(now: int, exhausted: bool)
      modifies this
      ensures Model() == Play(old(Model()), now, exhausted)
    {
      if waitForBufferedMilliseconds.Some? {
        var duration := GetAvailableBufferDuration();
        if duration < waitForBufferedMilliseconds.value {
          return;
        } else {
          waitForBufferedMilliseconds := None;
        }
      }
      if availableSegments == [] {
        playbackReferenceTimestamp := 0;
        waitForBufferedMilliseconds := Some(SEGMENT_BUFFER_DURATION + SEGMENT_DURATION);
        return;
      }
      if playbackReferenceTimestamp == 0 {
        playbackReferenceTimestamp := now;
      }
      var relativeTimestamp := now - playbackReferenceTimestamp;
      var segment := availableSegments[0];
      if relativeTimestamp >= segment.duration {
        playbackReferenceTimestamp := playbackReferenceTimestamp + segment.duration;
        availableSegments := availableSegments[1..];
      } else if |availableSegments| > 1 && exhausted {
        playbackReferenceTimestamp := playbackReferenceTimestamp + segment.duration;
        waitForBufferedMilliseconds := None;
        availableSegments := availableSegments[1..];
      }
    }
  }

  /** The pending segments while the check goes over them: done of before have been promoted, the next
      i have been asked for. */
  function HalfAsked(before: seq<PendingSegment>, done: nat, i: nat, now: int): (half: seq<PendingSegment>)
    requires done + i <= |before|
    ensures |half| == |before| - done
  {
    Asked(before[done..done + i], now) + before[done + i..]
  }

  lemma CheckStarts(before: seq<PendingSegment>, now: int)
    ensures before == HalfAsked(before, 0, 0, now) && Promoted(before[..0]) == []
  {
  }

  lemma AskedAppend(pending: seq<PendingSegment>, p: PendingSegment, now: int)
    ensures Asked(pending + [p], now) == Asked(pending, now) + [AskSegment(p, now)]
  {
    hide AskSegment;
  }

  lemma HalfAskedGrows(before: seq<PendingSegment>, done: nat, i: nat, now: int)
    requires done + i < |before|
    ensures var pending := HalfAsked(before, done, i, now);
            && |pending| == |before| - done && pending[i] == before[done + i]
            && pending[i := AskSegment(before[done + i], now)] == HalfAsked(before, done, i + 1, now)
  {
    hide AskSegment;
    var asked, here, rest := Asked(before[done..done + i], now), before[done + i], before[done + i + 1..];
    assert before[done + i..] == [here] + rest;
    assert before[done..done + i + 1] == before[done..done + i] + [here];
    AskedAppend(before[done..done + i], here, now);
    hide Asked;
    assert HalfAsked(before, done, i, now) == asked + ([here] + rest);
  }

  lemma PromotedAppend(pending: seq<PendingSegment>, p: PendingSegment)
    ensures Promoted(pending + [p]) == Promoted(pending) + [Segment(p.timestamp, SEGMENT_DURATION)]
  {
  }

  lemma NoneAsked(before: seq<PendingSegment>, done: nat, now: int)
    requires done <= |before|
    ensures HalfAsked(before, done, 0, now) == before[done..]
  {
    assert before[done..done] == [];
  }

  lemma {:induction false} CheckStep(before: seq<PendingSegment>, done: nat, i: nat, now: int)
    requires done <= FinishedPrefix(before) && (i > 0 ==> done == FinishedPrefix(before)) && done + i < |before|
    ensures var pending := HalfAsked(before, done, i, now);
            && i < |pending| == |before| - done
            && pending[i] == before[done + i]
            && pending[i := AskSegment(pending[i], now)] == HalfAsked(before, done, i + 1, now)
    ensures i == 0 ==> (Finished(before[done]) <==> done < FinishedPrefix(before))
    ensures i == 0 ==> HalfAsked(before, done, 1, now)[1..] == HalfAsked(before, done + 1, 0, now)
    ensures Promoted(before[..done + 1]) == Promoted(before[..done]) + [Segment(before[done].timestamp, SEGMENT_DURATION)]
  {
    hide AskSegment, Finished, Asked, Promoted, HalfAsked, FinishedPrefix;
    HalfAskedGrows(before, done, i, now);
    assert before[..done + 1] == before[..done] + [before[done]];
    PromotedAppend(before[..done], before[done]);
    NoneAsked(before, done, now);
    NoneAsked(before, done + 1, now);
    assert before[done..][1..] == before[done + 1..];
    if i == 0 {
      assert HalfAsked(before, done, 1, now) == before[done..][0 := AskSegment(before[done], now)];
    }
  }

  lemma {:induction false} CheckEnds(before: seq<PendingSegment>, done: nat, i: nat, now: int)
    requires done <= FinishedPrefix(before) && (i > 0 ==> done == FinishedPrefix(before)) && done + i <= |before|
    requires i == |HalfAsked(before, done, i, now)|
    ensures done == FinishedPrefix(before)
    ensures HalfAsked(before, done, i, now) == Asked(before[done..], now)
  {
    hide AskSegment, Finished;
    assert done + i == |before|;
    assert before[done..done + i] == before[done..];
  }
}
