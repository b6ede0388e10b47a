// The H.264 start-code helpers of group calls (group/GroupInstanceCustomImpl.cpp):
// a search that skips, and the check of encrypted frames that uses it.
module StartCodes {
  import opened Prelude
  import opened Bytes

  const SHORT_START_SEQUENCE_SIZE: nat := 3

  // --- The search

  /** A start code {0, 0, 1} at k. */
  predicate StartCodeAt(b: seq<byte>, k: nat) {
    k + 3 <= |b| && b[k] == 0 && b[k + 1] == 0 && b[k + 2] == 1
  }

  /** Byte by byte: the first start code at or behind from that does not end the buffer. */
  function Scan(b: seq<byte>, from: nat): (r: Option<nat>)
    ensures r.Some? ==> from <= r.value && r.value + SHORT_START_SEQUENCE_SIZE < |b|
    decreases |b| - from
  {
    if |b| <= from + SHORT_START_SEQUENCE_SIZE then None
    else if StartCodeAt(b, from) then Some(from)
    else Scan(b, from + 1)
  }

  datatype Found = Found(payloadStart: nat, startCodeSize: nat)

  /** What the search reports of a start code: where its payload is, and 4 when a zero precedes it. */
  function Reported(b: seq<byte>, k: Option<nat>): Option<Found>
    requires k.Some? ==> k.value <= |b|
  {
    if k.None? then None
    else Some(Found(k.value + SHORT_START_SEQUENCE_SIZE, if k.value >= 1 && b[k.value - 1] == 0 then 4 else 3))
  }

  /** What the scan finds, and when it finds nothing. */
  lemma {:induction false} ScanFindsFirst(b: seq<byte>, from: nat)
    ensures var r := Scan(b, from);
            && (r.Some? ==> StartCodeAt(b, r.value) && forall k: nat | from <= k < r.value :: !StartCodeAt(b, k))
            && (r.None? <==> forall k: nat | from <= k && k + SHORT_START_SEQUENCE_SIZE < |b| :: !StartCodeAt(b, k))
    decreases |b| - from
  {
    if from + SHORT_START_SEQUENCE_SIZE < |b| && !StartCodeAt(b, from) {
      ScanFindsFirst(b, from + 1);
    }
  }

  /** A byte that is not zero two behind from: no start code begins at from + 1 or from + 2. */
  lemma SkipThree(b: seq<byte>, from: nat)
    requires from + SHORT_START_SEQUENCE_SIZE < |b| && b[from + 2] != 0 && !StartCodeAt(b, from)
    ensures Scan(b, from) == Scan(b, from + SHORT_START_SEQUENCE_SIZE)
  {
    assert Scan(b, from) == Scan(b, from + 1);
    assert !StartCodeAt(b, from + 1) && !StartCodeAt(b, from + 2);
    assert Scan(b, from + 1) == Scan(b, from + 2) || |b| <= from + 4;
    assert Scan(b, from + 2) == Scan(b, from + 3) || |b| <= from + 5;
    assert |b| <= from + 5 ==> Scan(b, from + 3).None?;
  }

  /** FindNextH26XNaluIndex: it goes three bytes on whenever the third byte is not zero. */
  method FindNextH26XNaluIndex(buffer: array<byte>, offset: nat, size: nat, searchStartIndex: nat) returns (r: Option<Found>)
    requires offset + size <= buffer.Length
    ensures var b := buffer[offset..offset + size];
            r == Reported(b, Scan(b, searchStartIndex))
  {
    ghost var b := buffer[offset..offset + size];
    if size < SHORT_START_SEQUENCE_SIZE {
      return None;
    }
    var i := searchStartIndex;
    while i < size - SHORT_START_SEQUENCE_SIZE
      invariant Scan(b, i) == Scan(b, searchStartIndex)
      decreases size - i
    {
      assert b[i] == buffer[offset + i] && b[i + 1] == buffer[offset + i + 1] && b[i + 2] == buffer[offset + i + 2];
      if buffer[offset + i + 2] > 1 {
        SkipThree(b, i);
        i := i + SHORT_START_SEQUENCE_SIZE;
      } else if buffer[offset + i + 2] == 1 {
        if buffer[offset + i + 1] == 0 && buffer[offset + i] == 0 {
          assert StartCodeAt(b, i) && Scan(b, i) == Some(i);
          assert i >= 1 ==> b[i - 1] == buffer[offset + i - 1];
          var nalUnitStartIndex := i + SHORT_START_SEQUENCE_SIZE;
          if i >= 1 && buffer[offset + i - 1] == 0 {
            return Some(Found(nalUnitStartIndex, 4));
          } else {
            return Some(Found(nalUnitStartIndex, 3));
          }
        }
        SkipThree(b, i);
        i := i + SHORT_START_SEQUENCE_SIZE;
      } else {
        i := i + 1;
      }
    }
    r := None;
  }

  ghost predicate OnlyCodeIsTheEnd(b: seq<byte>) {
    && |b| >= SHORT_START_SEQUENCE_SIZE
    && StartCodeAt(b, |b| - SHORT_START_SEQUENCE_SIZE)
    && forall k: nat | k + SHORT_START_SEQUENCE_SIZE < |b| :: !StartCodeAt(b, k)
  }

  /** The search misses exactly this: a start code that is the end of the buffer and the only one. */
  lemma {:induction false} MissesOnlyTheEnd(b: seq<byte>)
    ensures Scan(b, 0).None? && (exists k: nat :: StartCodeAt(b, k)) <==> OnlyCodeIsTheEnd(b)
  {
    ScanFindsFirst(b, 0);
  }

  /** Such a buffer: any bytes without a start code in them, none begun at their end, and then the three of one. */
  lemma {:induction false} EndsWithCode(front: seq<byte>)
    requires forall k: nat :: !StartCodeAt(front + [0, 0], k)
    requires front != [] ==> front[|front| - 1] != 0
    ensures OnlyCodeIsTheEnd(front + [0, 0, 1]) && Scan(front + [0, 0, 1], 0).None?
  {
    var b, short := front + [0, 0, 1], front + [0, 0];
    forall k: nat | k + SHORT_START_SEQUENCE_SIZE < |b|
      ensures !StartCodeAt(b, k)
    {
      assert !StartCodeAt(short, k);
    }
    MissesOnlyTheEnd(b);
  }

  // --- Encrypted frames

  /** No start code begins at from or behind, short of one that ends the bytes. */
  ghost predicate NoCodeBehind(b: seq<byte>, from: nat) {
    forall k: nat | from <= k && k + SHORT_START_SEQUENCE_SIZE < |b| :: !StartCodeAt(b, k)
  }

  datatype PayloadType = Unknown | Opus | H264 | VP8

  /** ValidateEncryptedFrame, which accepts a frame exactly when no start code, short of one that ends the
      frame, takes in a byte behind the plaintext prefix. */
  method ValidateEncryptedFrame(payloadType: PayloadType, frame: array<byte>, plaintextPrefix: nat) returns (valid: bool)
    requires plaintextPrefix <= frame.Length + 2
    ensures valid <==> payloadType != H264 || NoCodeBehind(frame[..], if plaintextPrefix < 2 then 0 else plaintextPrefix - 2)
  {
    if payloadType != H264 {
      return true;
    }
    var padding := SHORT_START_SEQUENCE_SIZE - 1;
    var encryptedSectionStart := 0;
    if plaintextPrefix != 0 {
      encryptedSectionStart := encryptedSectionStart + plaintextPrefix;
    }
    if encryptedSectionStart == frame.Length {
      return true;
    }
    var start := encryptedSectionStart - (if encryptedSectionStart < padding then encryptedSectionStart else padding);
    var found := FindNextH26XNaluIndex(frame, start, frame.Length - start, 0);
    ghost var section := frame[start..start + (frame.Length - start)];
    ScanFindsFirst(section, 0);
    assert section == frame[..][start..];
    SectionCodes(frame[..], section, start);
    valid := found.None?;
  }

  lemma SectionCodes(b: seq<byte>, section: seq<byte>, start: nat)
    requires start <= |b| && section == b[start..]
    ensures NoCodeBehind(section, 0) <==> NoCodeBehind(b, start)
  {
    assert forall k: nat | k + 3 <= |section| :: StartCodeAt(section, k) <==> StartCodeAt(b, start + k);
    if NoCodeBehind(section, 0) {
      forall k: nat | start <= k && k + SHORT_START_SEQUENCE_SIZE < |b|
        ensures !StartCodeAt(b, k)
      {
        assert !StartCodeAt(section, k - start);
      }
    }
  }
}
