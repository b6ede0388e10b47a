// The part of an H.264 frame that stays in plaintext (calculateH264FramePlaintextHeaderSize
// of group/GroupInstanceCustomImpl.cpp), its short start codes made four bytes long.
module PlaintextHeader {
  import opened Bytes
  import opened StartCodes

  /** webrtc::H264::NaluIndex */
  datatype NaluIndex = NaluIndex(startOffset: nat, payloadStartOffset: nat, payloadSize: nat)

  const FU_A: int := 28
  const IDR: int := 5
  const SPS: int := 7
  const PPS: int := 8
  const SEI: int := 6
  const STAP_A: int := 24
  const SHORT_START_CODE: nat := 3
  const NAL_HEADER_SIZE: nat := 1
  const FU_A_HEADER_SIZE: nat := 2
  const STAP_A_HEADER_SIZE: nat := 3
  const PPS_ID_ESTIMATE: nat := 4

  /** What H264::FindNaluIndices gives: units one behind the other, each behind a start code of
      three bytes, or of four exactly when a zero precedes, the last reaching to the end of the frame. */
  ghost predicate UnitsOf(frame: seq<byte>, units: seq<NaluIndex>) {
    && Inside(frame, units)
    && (forall i | 0 <= i < |units| ::
         units[i].payloadStartOffset == units[i].startOffset + 3 || units[i].payloadStartOffset == units[i].startOffset + 4)
    && (forall i | 0 <= i < |units| :: StartCodeAt(frame, units[i].payloadStartOffset - 3))
    && (forall i | 0 <= i < |units| && !IsShort(units[i]) :: frame[units[i].startOffset] == 0)
    && (forall i | 0 <= i < |units| && IsShort(units[i]) && units[i].startOffset > 0 ::
         frame[units[i].startOffset - 1] != 0)
    && (forall i | 0 < i < |units| :: units[i - 1].payloadStartOffset + units[i - 1].payloadSize == units[i].startOffset)
    && (units != [] ==>
          units[|units| - 1].payloadStartOffset + units[|units| - 1].payloadSize == |frame|)
  }

  predicate Inside(frame: seq<byte>, units: seq<NaluIndex>) {
    forall i | 0 <= i < |units| :: units[i].payloadStartOffset + units[i].payloadSize <= |frame|
  }

  predicate IsShort(u: NaluIndex) {
    u.payloadStartOffset == u.startOffset + SHORT_START_CODE
  }

  function NalType(frame: seq<byte>, at: nat): int
    requires at < |frame|
  {
    frame[at] % 32
  }

  predicate IsSlice(frame: seq<byte>, u: NaluIndex)
    requires u.payloadStartOffset + u.payloadSize <= |frame|
  {
    u.payloadSize >= NAL_HEADER_SIZE
    && (NalType(frame, u.payloadStartOffset) == IDR || NalType(frame, u.payloadStartOffset) == 1)
  }

  /** calculateSliceHeaderBytesForPpsId, a function of the bytes of a slice */
  type PpsIdBytes = seq<byte> -> nat

  /** Where the part of a unit ends that must stay readable. */
  function HeaderEnd(frame: seq<byte>, u: NaluIndex, ppsIdBytes: PpsIdBytes): (end: nat)
    requires u.payloadStartOffset + u.payloadSize <= |frame|
    ensures end >= u.payloadStartOffset
  {
    var at := u.payloadStartOffset;
    if u.payloadSize < NAL_HEADER_SIZE then at + NAL_HEADER_SIZE
    else
      var nalType := NalType(frame, at);
      if nalType == FU_A then
        if u.payloadSize < FU_A_HEADER_SIZE then at + NAL_HEADER_SIZE
        else
          var original := NalType(frame, at + 1);
          at + FU_A_HEADER_SIZE
          + (if frame[at + 1] >= 128 && (original == IDR || original == 1) then PPS_ID_ESTIMATE else 0)
      else if nalType == STAP_A then
        if u.payloadSize < STAP_A_HEADER_SIZE then at + NAL_HEADER_SIZE
        else if u.payloadSize == STAP_A_HEADER_SIZE then at + STAP_A_HEADER_SIZE
        else
          var first := NalType(frame, at + STAP_A_HEADER_SIZE);
          at + STAP_A_HEADER_SIZE + (if first == IDR || first == 1 then PPS_ID_ESTIMATE else 0)
      else if nalType == IDR || nalType == 1 then at + ppsIdBytes(frame[at..at + u.payloadSize])
      else if nalType == SPS || nalType == PPS || nalType == SEI then at + u.payloadSize
      else at + NAL_HEADER_SIZE
  }

  /** How many units are looked at: those up to and with the first slice. */
  function CountLooked(frame: seq<byte>, units: seq<NaluIndex>): (n: nat)
    requires Inside(frame, units)
    ensures n <= |units|
    ensures units != [] ==> n > 0
    ensures forall i | 0 <= i < n - 1 :: !IsSlice(frame, units[i])
    ensures 0 < n < |units| ==> IsSlice(frame, units[n - 1])
  {
    if units == [] then 0
    else if IsSlice(frame, units[0]) then 1
    else 1 + CountLooked(frame, units[1..])
  }

  /** The offsets of the short start codes. */
  function ShortOffsets(units: seq<NaluIndex>): seq<nat>
    decreases |units|
  {
    if units == [] then []
    else
      ShortOffsets(units[..|units| - 1])
      + (if IsShort(units[|units| - 1]) then [units[|units| - 1].startOffset] else [])
  }

  /** The greatest header end. */
  function MaxHeaderEnd(frame: seq<byte>, units: seq<NaluIndex>, ppsIdBytes: PpsIdBytes): nat
    requires Inside(frame, units)
    decreases |units|
  {
    if units == [] then 0
    else
      var before := MaxHeaderEnd(frame, units[..|units| - 1], ppsIdBytes);
      var end := HeaderEnd(frame, units[|units| - 1], ppsIdBytes);
      if before < end then end else before
  }

  // --- Zeros put in front of offsets

  ghost predicate AscendingOffsets(offsets: seq<nat>, length: nat) {
    && (forall i, j | 0 <= i < j < |offsets| :: offsets[i] < offsets[j])
    && (forall i | 0 <= i < |offsets| :: offsets[i] <= length)
  }

  /** The bytes with a zero in front of each of the offsets. */
  function WithZeros(b: seq<byte>, offsets: seq<nat>): (r: seq<byte>)
    requires AscendingOffsets(offsets, |b|)
    ensures |r| == |b| + |offsets|
    decreases |offsets|
  {
    if offsets == [] then b
    else
      var last := offsets[|offsets| - 1];
      WithZeros(b[..last], offsets[..|offsets| - 1]) + [0] + b[last..]
  }

  /** The bytes without the one in front of which each offset stood. */
  function WithoutZeros(b: seq<byte>, offsets: seq<nat>): seq<byte>
    requires |offsets| <= |b| && AscendingOffsets(offsets, |b| - |offsets|)
    decreases |offsets|
  {
    if offsets == [] then b
    else
      var n, last := |offsets| - 1, offsets[|offsets| - 1];
      WithoutZeros(b[..last + n], offsets[..n]) + b[last + n + 1..]
  }

  lemma AscendingPrefix(offsets: seq<nat>, length: nat)
    requires AscendingOffsets(offsets, length) && offsets != []
    ensures AscendingOffsets(offsets[..|offsets| - 1], offsets[|offsets| - 1])
  {
  }

  /** Nothing of the frame is lost: without the zeros it is the frame again. */
  lemma {:induction false} ZerosCanBeRemoved(b: seq<byte>, offsets: seq<nat>)
    requires AscendingOffsets(offsets, |b|)
    ensures WithoutZeros(WithZeros(b, offsets), offsets) == b
    decreases |offsets|
  {
    if offsets != [] {
      var n, last := |offsets| - 1, offsets[|offsets| - 1];
      AscendingPrefix(offsets, |b|);
      ZerosCanBeRemoved(b[..last], offsets[..n]);
      var front := WithZeros(b[..last], offsets[..n]);
      var r := WithZeros(b, offsets);
      assert r[..last + n] == front && r[last + n + 1..] == b[last..];
      assert b == b[..last] + b[last..];
    }
  }

  /** Behind all offsets nothing changes. */
  lemma {:induction false} ZerosSplit(b: seq<byte>, offsets: seq<nat>, p: nat)
    requires AscendingOffsets(offsets, |b|) && AscendingOffsets(offsets, p) && p <= |b|
    ensures WithZeros(b, offsets) == WithZeros(b[..p], offsets) + b[p..]
  {
    if offsets == [] {
      assert b == b[..p] + b[p..];
    } else {
      var last := offsets[|offsets| - 1];
      assert b[..p][..last] == b[..last] && b[..p][last..] == b[last..p];
      var front := WithZeros(b[..last], offsets[..|offsets| - 1]);
      hide WithZeros;
      assert b[last..] == b[last..p] + b[p..];
      assert front + [0] + (b[last..p] + b[p..]) == front + [0] + b[last..p] + b[p..];
    }
  }

  /** There is a zero where offset number k stood. */
  lemma {:induction false} ZeroIsThere(b: seq<byte>, offsets: seq<nat>, k: nat)
    requires AscendingOffsets(offsets, |b|) && k < |offsets|
    ensures offsets[k] + k < |WithZeros(b, offsets)|
    ensures WithZeros(b, offsets)[offsets[k] + k] == 0
    decreases |offsets|
  {
    var n, last := |offsets| - 1, offsets[|offsets| - 1];
    AscendingPrefix(offsets, |b|);
    if k < n {
      ZeroIsThere(b[..last], offsets[..n], k);
    }
  }

  /** A byte with n of the offsets not behind it has moved by n. */
  lemma {:induction false} ByteHasMoved(b: seq<byte>, offsets: seq<nat>, n: nat, q: nat)
    requires AscendingOffsets(offsets, |b|) && q < |b| && n <= |offsets|
    requires (n > 0 ==> offsets[n - 1] <= q) && (n < |offsets| ==> q < offsets[n])
    ensures q + n < |WithZeros(b, offsets)|
    ensures WithZeros(b, offsets)[q + n] == b[q]
    decreases |offsets|
  {
    if n < |offsets| {
      var last := offsets[|offsets| - 1];
      AscendingPrefix(offsets, |b|);
      assert q < last;
      ByteHasMoved(b[..last], offsets[..|offsets| - 1], n, q);
    }
  }

  // --- Units and offsets

  lemma UnitsAscend(frame: seq<byte>, units: seq<NaluIndex>, i: nat, j: nat)
    requires UnitsOf(frame, units) && i < j < |units|
    ensures units[i].payloadStartOffset + units[i].payloadSize <= units[j].startOffset
  {
    if i + 1 < j {
      UnitsAscend(frame, units, i, j - 1);
    }
  }

  /** The short start codes of the first n units: ascending, each that of one of them. */
  lemma {:induction false} ShortOffsetsAscend(frame: seq<byte>, units: seq<NaluIndex>, n: nat)
    requires UnitsOf(frame, units) && n <= |units|
    ensures var offsets := ShortOffsets(units[..n]);
            && AscendingOffsets(offsets, |frame|)
            && forall i | 0 <= i < |offsets| :: HasShort(units[..n], offsets[i])
  {
    assert n > 0 ==> units[n - 1].startOffset <= |frame|;
    hide UnitsOf;
    if n > 0 {
      ShortOffsetsAscend(frame, units, n - 1);
      assert units[..n][..n - 1] == units[..n - 1];
      var before := ShortOffsets(units[..n - 1]);
      forall i | 0 <= i < |before|
        ensures before[i] < units[n - 1].startOffset && HasShort(units[..n], before[i])
      {
        assert HasShort(units[..n - 1], before[i]);
        var k :| 0 <= k < |units[..n - 1]| && IsShort(units[..n - 1][k]) && units[..n - 1][k].startOffset == before[i];
        UnitsAscend(frame, units, k, n - 1);
        assert units[..n][k] == units[k];
      }
      assert units[..n][n - 1] == units[n - 1];
    }
  }

  ghost predicate HasShort(units: seq<NaluIndex>, offset: nat) {
    exists k | 0 <= k < |units| :: IsShort(units[k]) && units[k].startOffset == offset
  }

  lemma {:induction false} ShortIsCollected(units: seq<NaluIndex>, k: nat)
    requires k < |units| && IsShort(units[k])
    ensures units[k].startOffset in ShortOffsets(units)
    decreases |units|
  {
    if k < |units| - 1 {
      assert units[..|units| - 1][k] == units[k];
      ShortIsCollected(units[..|units| - 1], k);
    }
  }

  lemma {:induction false} HeaderCoversUnits(frame: seq<byte>, units: seq<NaluIndex>, ppsIdBytes: PpsIdBytes, k: nat)
    requires Inside(frame, units)
    requires k < |units|
    ensures units[k].payloadStartOffset <= MaxHeaderEnd(frame, units, ppsIdBytes)
    decreases |units|
  {
    if k < |units| - 1 {
      assert units[..|units| - 1][k] == units[k];
      HeaderCoversUnits(frame, units[..|units| - 1], ppsIdBytes, k);
    }
  }

  // --- What must stay readable

  predicate OfKind(frame: seq<byte>, u: NaluIndex, kind: int)
    requires u.payloadStartOffset + u.payloadSize <= |frame|
  {
    u.payloadSize > 0 && NalType(frame, u.payloadStartOffset) == kind
  }

  /** The byte of the unit names the kind of a slice. */
  predicate NamesSlice(frame: seq<byte>, u: NaluIndex, at: nat)
    requires u.payloadStartOffset + u.payloadSize <= |frame| && at < u.payloadSize
  {
    NalType(frame, u.payloadStartOffset + at) == IDR || NalType(frame, u.payloadStartOffset + at) == 1
  }

  /** The first n bytes of a unit must stay readable: the header of any unit that is not a slice, both header bytes of a
      fragment, what names and holds the length of the first unit of an aggregate, parameter sets and supplemental
      information as a whole, and of slices as much as tells their parameter set: estimated when they are in a fragment or
      an aggregate. */
  ghost predicate MustStay(frame: seq<byte>, u: NaluIndex, ppsIdBytes: PpsIdBytes, n: nat)
    requires u.payloadStartOffset + u.payloadSize <= |frame|
  {
    var at := u.payloadStartOffset;
    || (n == 1 && !IsSlice(frame, u))
    || (n == 2 && OfKind(frame, u, FU_A) && u.payloadSize >= 2)
    || (n == 6 && OfKind(frame, u, FU_A) && u.payloadSize >= 2 && frame[at + 1] >= 128 && NamesSlice(frame, u, 1))
    || (n == 3 && OfKind(frame, u, STAP_A) && u.payloadSize >= 3)
    || (n == 7 && OfKind(frame, u, STAP_A) && u.payloadSize > 3 && NamesSlice(frame, u, 3))
    || (n == u.payloadSize && (OfKind(frame, u, SPS) || OfKind(frame, u, PPS) || OfKind(frame, u, SEI)))
    || (n == ppsIdBytes(frame[at..at + u.payloadSize]) && IsSlice(frame, u))
  }

  /** What is measured is the most that must stay readable. */
  lemma HeaderEndIsMost(frame: seq<byte>, u: NaluIndex, ppsIdBytes: PpsIdBytes)
    requires u.payloadStartOffset + u.payloadSize <= |frame|
    ensures MustStay(frame, u, ppsIdBytes, HeaderEnd(frame, u, ppsIdBytes) - u.payloadStartOffset)
    ensures forall n | MustStay(frame, u, ppsIdBytes, n) :: u.payloadStartOffset + n <= HeaderEnd(frame, u, ppsIdBytes)
  {
  }

  lemma {:induction false} MaxIsOfUnit(frame: seq<byte>, units: seq<NaluIndex>, ppsIdBytes: PpsIdBytes) returns (k: nat)
    requires Inside(frame, units) && units != []
    ensures k < |units| && MaxHeaderEnd(frame, units, ppsIdBytes) == HeaderEnd(frame, units[k], ppsIdBytes)
    decreases |units|
  {
    hide HeaderEnd;
    var n := |units| - 1;
    k := n;
    if n > 0 && MaxHeaderEnd(frame, units[..n], ppsIdBytes) > HeaderEnd(frame, units[n], ppsIdBytes) {
      k := MaxIsOfUnit(frame, units[..n], ppsIdBytes);
    }
  }

  lemma {:induction false} MaxCovers(frame: seq<byte>, units: seq<NaluIndex>, ppsIdBytes: PpsIdBytes, k: nat)
    requires Inside(frame, units) && k < |units|
    ensures HeaderEnd(frame, units[k], ppsIdBytes) <= MaxHeaderEnd(frame, units, ppsIdBytes)
    decreases |units|
  {
    hide HeaderEnd;
    if k < |units| - 1 {
      assert units[..|units| - 1][k] == units[k];
      MaxCovers(frame, units[..|units| - 1], ppsIdBytes, k);
    }
  }

  /** The first slice is the last unit looked at; without one all are. */
  predicate IsLooked(frame: seq<byte>, units: seq<NaluIndex>, k: nat)
    requires Inside(frame, units)
  {
    k < |units| && forall i | 0 <= i < k :: !IsSlice(frame, units[i])
  }

  lemma {:induction false} SliceIsFound(frame: seq<byte>, units: seq<NaluIndex>)
    requires Inside(frame, units) && CountLooked(frame, units) < |units|
    ensures CountLooked(frame, units) > 0 && IsSlice(frame, units[CountLooked(frame, units) - 1])
  {
  }

  lemma {:induction false} LookedIff(frame: seq<byte>, units: seq<NaluIndex>, k: nat)
    requires Inside(frame, units)
    ensures k < CountLooked(frame, units) <==> IsLooked(frame, units, k)
  {
    hide IsSlice;
    if k < |units| && CountLooked(frame, units) <= k {
      SliceIsFound(frame, units);
    }
  }

  /** The plaintext part reaches as far as something must stay readable in a unit up to the first slice, and no
      further. */
  lemma PlaintextIsTight(frame: seq<byte>, units: seq<NaluIndex>, ppsIdBytes: PpsIdBytes)
    requires UnitsOf(frame, units) && units != []
    ensures var end := PlaintextEnd(frame, units, ppsIdBytes);
            && (forall k: nat, n | IsLooked(frame, units, k) && MustStay(frame, units[k], ppsIdBytes, n) ::
                  units[k].payloadStartOffset + n <= end)
            && exists k: nat, n :: IsLooked(frame, units, k) && MustStay(frame, units[k], ppsIdBytes, n)
                                   && end == units[k].payloadStartOffset + n
  {
    hide HeaderEnd, MaxHeaderEnd, MustStay, IsSlice, CountLooked;
    var looked, end := Looked(frame, units), PlaintextEnd(frame, units, ppsIdBytes);
    forall k: nat, n | IsLooked(frame, units, k) && MustStay(frame, units[k], ppsIdBytes, n)
      ensures units[k].payloadStartOffset + n <= end
    {
      LookedIff(frame, units, k);
      MaxCovers(frame, looked, ppsIdBytes, k);
      HeaderEndIsMost(frame, units[k], ppsIdBytes);
    }
    FirstIsLooked(frame, units);
    var k := MaxIsOfUnit(frame, looked, ppsIdBytes);
    LookedIff(frame, units, k);
    HeaderEndIsMost(frame, units[k], ppsIdBytes);
  }

  lemma {:induction false} FirstIsLooked(frame: seq<byte>, units: seq<NaluIndex>)
    requires Inside(frame, units) && units != []
    ensures CountLooked(frame, units) > 0
  {
  }

  // --- The function

  /** The units that are looked at. */
  ghost function Looked(frame: seq<byte>, units: seq<NaluIndex>): seq<NaluIndex>
    requires UnitsOf(frame, units)
  {
    units[..CountLooked(frame, units)]
  }

  /** The start codes that are made longer. */
  ghost function Collected(frame: seq<byte>, units: seq<NaluIndex>): (offsets: seq<nat>)
    requires UnitsOf(frame, units)
    ensures AscendingOffsets(offsets, |frame|)
  {
    ShortOffsetsAscend(frame, units, CountLooked(frame, units));
    ShortOffsets(Looked(frame, units))
  }

  /** Where the plaintext part of the frame ends, as far as it reaches. */
  ghost function PlaintextEnd(frame: seq<byte>, units: seq<NaluIndex>, ppsIdBytes: PpsIdBytes): nat
    requires UnitsOf(frame, units)
  {
    MaxHeaderEnd(frame, Looked(frame, units), ppsIdBytes)
  }

  /** What is returned: the rewritten frame and the size of its plaintext part. */
  datatype Header = Header(frameData: seq<byte>, headerSize: nat)

  ghost function HeaderOf(frame: seq<byte>, units: seq<NaluIndex>, ppsIdBytes: PpsIdBytes): Header
    requires UnitsOf(frame, units)
  {
    var offsets := Collected(frame, units);
    Header(WithZeros(frame, offsets), PlaintextEnd(frame, units, ppsIdBytes) + |offsets|)
  }

  /** Every start code that is made longer lies inside the plaintext part. */
  lemma CollectedInHeader(frame: seq<byte>, units: seq<NaluIndex>, ppsIdBytes: PpsIdBytes)
    requires UnitsOf(frame, units)
    ensures var offsets := Collected(frame, units);
            forall i | 0 <= i < |offsets| :: offsets[i] + 3 <= PlaintextEnd(frame, units, ppsIdBytes)
  {
    var looked, offsets := Looked(frame, units), Collected(frame, units);
    ShortOffsetsAscend(frame, units, CountLooked(frame, units));
    forall i | 0 <= i < |offsets|
      ensures offsets[i] + 3 <= PlaintextEnd(frame, units, ppsIdBytes)
    {
      assert HasShort(looked, offsets[i]);
      var k :| 0 <= k < |looked| && IsShort(looked[k]) && looked[k].startOffset == offsets[i];
      HeaderCoversUnits(frame, looked, ppsIdBytes, k);
    }
  }

  /** The plaintext part of the rewritten frame is the plaintext part of the frame, rewritten; the size
      is beyond the result only when the part estimated for the frame is longer than the frame. */
  lemma HeaderIsImage(frame: seq<byte>, units: seq<NaluIndex>, ppsIdBytes: PpsIdBytes)
    requires UnitsOf(frame, units)
    ensures var offsets, end := Collected(frame, units), PlaintextEnd(frame, units, ppsIdBytes);
            var r := HeaderOf(frame, units, ppsIdBytes);
            && (r.headerSize <= |r.frameData| <==> end <= |frame|)
            && (end <= |frame| ==>
                  && AscendingOffsets(offsets, end)
                  && r.frameData[..r.headerSize] == WithZeros(frame[..end], offsets)
                  && r.frameData[r.headerSize..] == frame[end..])
  {
    var offsets, end := Collected(frame, units), PlaintextEnd(frame, units, ppsIdBytes);
    CollectedInHeader(frame, units, ppsIdBytes);
    if end <= |frame| {
      ZerosSplit(frame, offsets, end);
    }
  }

  lemma CollectedIsUnit(frame: seq<byte>, units: seq<NaluIndex>, k: nat) returns (u: nat)
    requires UnitsOf(frame, units) && k < |Collected(frame, units)|
    ensures u < CountLooked(frame, units) && IsShort(units[u]) && units[u].startOffset == Collected(frame, units)[k]
  {
    var looked := Looked(frame, units);
    ShortOffsetsAscend(frame, units, CountLooked(frame, units));
    assert HasShort(looked, Collected(frame, units)[k]);
    u :| 0 <= u < |looked| && IsShort(looked[u]) && looked[u].startOffset == Collected(frame, units)[k];
  }

  /** The start codes made longer are apart. */
  lemma CollectedAreApart(frame: seq<byte>, units: seq<NaluIndex>, k: nat)
    requires UnitsOf(frame, units) && k + 1 < |Collected(frame, units)|
    ensures Collected(frame, units)[k] + 3 <= Collected(frame, units)[k + 1]
  {
    hide Collected, CountLooked;
    var u := CollectedIsUnit(frame, units, k);
    var v := CollectedIsUnit(frame, units, k + 1);
    assert Collected(frame, units)[k] < Collected(frame, units)[k + 1];
    if v < u {
      UnitsAscend(frame, units, v, u);
    } else if u < v {
      UnitsAscend(frame, units, u, v);
    }
  }

  /** Where a start code was made longer there is now {0, 0, 0, 1}. */
  lemma {:induction false} LongStartCode(frame: seq<byte>, units: seq<NaluIndex>, k: nat)
    requires UnitsOf(frame, units) && k < |Collected(frame, units)|
    ensures var offset, r := Collected(frame, units)[k], WithZeros(frame, Collected(frame, units));
            && offset + k + 4 <= |r|
            && r[offset + k] == 0 && r[offset + k + 1] == 0 && r[offset + k + 2] == 0 && r[offset + k + 3] == 1
  {
    hide Collected, CountLooked, WithZeros;
    var offsets := Collected(frame, units);
    var offset := offsets[k];
    var u := CollectedIsUnit(frame, units, k);
    assert StartCodeAt(frame, offset);
    if k + 1 < |offsets| {
      CollectedAreApart(frame, units, k);
    }
    ZeroIsThere(frame, offsets, k);
    ByteHasMoved(frame, offsets, k + 1, offset);
    ByteHasMoved(frame, offsets, k + 1, offset + 1);
    ByteHasMoved(frame, offsets, k + 1, offset + 2);
  }

  // --- All start codes, in the bytes of the rewritten frame

  /** How many of the offsets are not behind q. */
  function CountUpTo(offsets: seq<nat>, q: nat): (n: nat)
    ensures n <= |offsets|
    ensures n > 0 ==> offsets[n - 1] <= q
    ensures n < |offsets| ==> q < offsets[n]
    decreases |offsets|
  {
    if offsets == [] then 0
    else if offsets[|offsets| - 1] <= q then |offsets|
    else CountUpTo(offsets[..|offsets| - 1], q)
  }

  lemma {:induction false} CountIsExact(frame: seq<byte>, offsets: seq<nat>, n: nat, q: nat)
    requires AscendingOffsets(offsets, |frame|) && n <= |offsets|
    requires (n > 0 ==> offsets[n - 1] <= q) && (n < |offsets| ==> q < offsets[n])
    ensures CountUpTo(offsets, q) == n
  {
    var m := CountUpTo(offsets, q);
    hide CountUpTo;
    assert !(m < n) && !(n < m);
  }

  /** Where byte q of the frame is in the rewritten frame. */
  ghost function MovedTo(frame: seq<byte>, units: seq<NaluIndex>, q: nat): (r: nat)
    requires UnitsOf(frame, units) && q < |frame|
    ensures r < |WithZeros(frame, Collected(frame, units))|
    ensures WithZeros(frame, Collected(frame, units))[r] == frame[q]
  {
    hide Collected, UnitsOf;
    var offsets := Collected(frame, units);
    ByteHasMoved(frame, offsets, CountUpTo(offsets, q), q);
    q + CountUpTo(offsets, q)
  }

  /** A start code at k whose three bytes a zero precedes: {0, 0, 0, 1}. */
  predicate LongCodeAt(b: seq<byte>, k: nat) {
    StartCodeAt(b, k) && k > 0 && b[k - 1] == 0
  }

  /** No collected offset is inside the start code of a unit, or in front of it by the length of one. */
  lemma {:induction false} CollectedBesideUnit(frame: seq<byte>, units: seq<NaluIndex>, k: nat, i: nat)
    requires UnitsOf(frame, units) && k < |units| && i < |Collected(frame, units)|
    ensures var offset := Collected(frame, units)[i];
            || offset + 3 <= units[k].startOffset
            || (offset == units[k].startOffset && IsShort(units[k]) && k < CountLooked(frame, units))
            || units[k].payloadStartOffset <= offset
  {
    hide Collected, CountLooked;
    var u := CollectedIsUnit(frame, units, i);
    if u < k {
      UnitsAscend(frame, units, u, k);
    } else if k < u {
      UnitsAscend(frame, units, k, u);
    }
  }

  /** The three bytes of a start code stay together. */
  lemma {:induction false} CodeStaysTogether(frame: seq<byte>, units: seq<NaluIndex>, k: nat)
    requires UnitsOf(frame, units) && k < |units|
    ensures var r := WithZeros(frame, Collected(frame, units));
            StartCodeAt(r, MovedTo(frame, units, units[k].payloadStartOffset - 3))
  {
    hide Collected, CountLooked, WithZeros;
    var offsets, q := Collected(frame, units), units[k].payloadStartOffset - 3;
    var n := CountUpTo(offsets, q);
    assert StartCodeAt(frame, q);
    if n < |offsets| {
      CollectedBesideUnit(frame, units, k, n);
    }
    ByteHasMoved(frame, offsets, n, q + 1);
    ByteHasMoved(frame, offsets, n, q + 2);
    assert MovedTo(frame, units, q) == q + n;
  }

  /** The byte in front of a start code that was not made longer is the one that was there. */
  lemma {:induction false} FrontMovesAlong(frame: seq<byte>, units: seq<NaluIndex>, k: nat)
    requires UnitsOf(frame, units) && k < |units|
    requires !IsShort(units[k]) || (CountLooked(frame, units) <= k && units[k].startOffset > 0)
    ensures var q := units[k].payloadStartOffset - 3;
            q > 0 && MovedTo(frame, units, q) == MovedTo(frame, units, q - 1) + 1
  {
    hide Collected, CountLooked, WithZeros;
    var offsets, q := Collected(frame, units), units[k].payloadStartOffset - 3;
    var n := CountUpTo(offsets, q);
    if n > 0 {
      CollectedBesideUnit(frame, units, k, n - 1);
      assert offsets[n - 1] <= q - 1;
    }
    CountIsExact(frame, offsets, n, q - 1);
  }

  /** A short start code that was looked at has a zero in front of it now. */
  lemma {:induction false} CollectedIsLong(frame: seq<byte>, units: seq<NaluIndex>, k: nat)
    requires UnitsOf(frame, units) && k < CountLooked(frame, units) && IsShort(units[k])
    ensures var at, r := MovedTo(frame, units, units[k].startOffset), WithZeros(frame, Collected(frame, units));
            at > 0 && r[at - 1] == 0
  {
    hide CountLooked, WithZeros, UnitsOf;
    var offsets, offset := Collected(frame, units), units[k].startOffset;
    assert Looked(frame, units)[k] == units[k];
    ShortIsCollected(Looked(frame, units), k);
    var i :| 0 <= i < |offsets| && offsets[i] == offset;
    ZeroIsThere(frame, offsets, i);
    assert i + 1 < |offsets| ==> offset < offsets[i + 1];
    CountIsExact(frame, offsets, i + 1, offset);
  }

  /** Unit k has a start code of four bytes in the rewritten frame. */
  ghost predicate IsLongAfterwards(frame: seq<byte>, units: seq<NaluIndex>, k: nat)
    requires UnitsOf(frame, units) && k < |units|
  {
    LongCodeAt(WithZeros(frame, Collected(frame, units)), MovedTo(frame, units, units[k].payloadStartOffset - 3))
  }

  /** In the rewritten frame a unit has a start code, and a long one unless it had a short one and is
      behind the first slice. */
  lemma {:induction false} UnitIsLongIff(frame: seq<byte>, units: seq<NaluIndex>, k: nat)
    requires UnitsOf(frame, units) && k < |units|
    ensures var r := WithZeros(frame, Collected(frame, units));
            StartCodeAt(r, MovedTo(frame, units, units[k].payloadStartOffset - 3))
    ensures IsLongAfterwards(frame, units, k) <==> k < CountLooked(frame, units) || !IsShort(units[k])
  {
    hide Collected, CountLooked, WithZeros, MovedTo;
    CodeStaysTogether(frame, units, k);
    if !IsShort(units[k]) {
      FrontMovesAlong(frame, units, k);
    } else if k < CountLooked(frame, units) {
      CollectedIsLong(frame, units, k);
    } else {
      assert CountLooked(frame, units) > 0;
      UnitsAscend(frame, units, 0, k);
      FrontMovesAlong(frame, units, k);
    }
  }

  /** In the rewritten frame every unit has a start code of four bytes, as the function sets out to give
      it, exactly when no unit behind the first slice has a short one: those are left as they are. */
  lemma {:induction false} AllLongIff(frame: seq<byte>, units: seq<NaluIndex>)
    requires UnitsOf(frame, units)
    ensures (forall k | 0 <= k < |units| :: IsLongAfterwards(frame, units, k))
       <==> (forall k | CountLooked(frame, units) <= k < |units| :: !IsShort(units[k]))
  {
    hide CountLooked, IsLongAfterwards;
    forall k | 0 <= k < |units|
      ensures IsLongAfterwards(frame, units, k) <==> k < CountLooked(frame, units) || !IsShort(units[k])
    {
      UnitIsLongIff(frame, units, k);
    }
  }

  /** Two slices, both with a short start code. */
  lemma TwoShortSlices() returns (frame: seq<byte>, units: seq<NaluIndex>)
    ensures frame == [0, 0, 1, 0x65, 0x88, 0, 0, 1, 0x41] && units == [NaluIndex(0, 3, 2), NaluIndex(5, 8, 1)]
    ensures UnitsOf(frame, units) && Collected(frame, units) == [0]
  {
    hide WithZeros, MaxHeaderEnd, HeaderEnd;
    frame, units := [0, 0, 1, 0x65, 0x88, 0, 0, 1, 0x41], [NaluIndex(0, 3, 2), NaluIndex(5, 8, 1)];
    assert StartCodeAt(frame, 0) && StartCodeAt(frame, 5);
    assert UnitsOf(frame, units);
    assert IsSlice(frame, units[0]);
    assert CountLooked(frame, units) == 1;
    assert units[..1] == [NaluIndex(0, 3, 2)] && units[..1][..0] == [];
    assert ShortOffsets(units[..1]) == [] + [0];
  }

  /** Of two slices with short start codes the second still has a short one, behind the byte 0x88. */
  lemma SecondStaysShort() returns (frame: seq<byte>, units: seq<NaluIndex>)
    ensures frame == [0, 0, 1, 0x65, 0x88, 0, 0, 1, 0x41] && units == [NaluIndex(0, 3, 2), NaluIndex(5, 8, 1)]
    ensures UnitsOf(frame, units)
    ensures var r := WithZeros(frame, Collected(frame, units));
            && r == [0, 0, 0, 1, 0x65, 0x88, 0, 0, 1, 0x41]
            && MovedTo(frame, units, 5) == 6 && StartCodeAt(r, 6) && !IsLongAfterwards(frame, units, 1)
  {
    hide UnitsOf, Collected;
    frame, units := TwoShortSlices();
    assert frame[..0] == [] && frame[0..] == frame;
    assert WithZeros([], []) == [];
    assert WithZeros(frame, [0]) == [] + [0] + frame;
    assert CountUpTo([0], 5) == 1;
  }

  /** std::copy of frame[from..to) to out from at on */
  method CopyBytes(frame: array<byte>, from: nat, to: nat, out: array<byte>, at: nat)
    requires from <= to <= frame.Length && at + (to - from) <= out.Length && frame != out
    modifies out
    ensures out[..at] == old(out[..at])
    ensures out[..at + (to - from)] == old(out[..at]) + frame[from..to]
  {
    forall i | 0 <= i < to - from {
      out[at + i] := frame[from + i];
    }
    assert out[..at + (to - from)] == out[..at] + out[at..at + (to - from)];
    assert out[at..at + (to - from)] == frame[from..to];
  }

  /** The branches over the kind of a unit: where its header ends, and whether it is a slice. */
  method MeasureUnit(frame: array<byte>, u: NaluIndex, ppsIdBytes: PpsIdBytes) returns (end: nat, isSlice: bool)
    requires u.payloadStartOffset + u.payloadSize <= frame.Length
    ensures end == HeaderEnd(frame[..], u, ppsIdBytes) && isSlice == IsSlice(frame[..], u)
  {
    isSlice := false;
    var at := u.payloadStartOffset;
    end := at + NAL_HEADER_SIZE;
    if u.payloadSize >= NAL_HEADER_SIZE {
      var nalType := frame[at] % 32;
      if nalType == FU_A {
        if u.payloadSize >= FU_A_HEADER_SIZE {
          end := at + FU_A_HEADER_SIZE;
          var isStartBit := frame[at + 1] >= 128;
          if isStartBit {
            var original := frame[at + 1] % 32;
            if original == IDR || original == 1 {
              end := end + PPS_ID_ESTIMATE;
            }
          }
        }
      } else if nalType == STAP_A {
        if u.payloadSize >= STAP_A_HEADER_SIZE {
          end := at + STAP_A_HEADER_SIZE;
          if u.payloadSize > STAP_A_HEADER_SIZE {
            var first := frame[at + STAP_A_HEADER_SIZE] % 32;
            if first == IDR || first == 1 {
              end := end + PPS_ID_ESTIMATE;
            }
          }
        }
      } else if nalType == IDR || nalType == 1 {
        isSlice := true;
        end := at + ppsIdBytes(frame[at..at + u.payloadSize]);
        assert frame[..][at..at + u.payloadSize] == frame[at..at + u.payloadSize];
      } else if nalType == SPS || nalType == PPS || nalType == SEI {
        end := at + u.payloadSize;
      }
    }
  }

  /** The loop over the units: which start codes to make longer, and how much stays in plaintext. */
  method CollectHeader(frame: array<byte>, units: seq<NaluIndex>, ppsIdBytes: PpsIdBytes)
    returns (maxOffset: nat, naluToUpdate: seq<nat>)
    requires UnitsOf(frame[..], units)
    ensures maxOffset == PlaintextEnd(frame[..], units, ppsIdBytes)
    ensures naluToUpdate == Collected(frame[..], units)
  {
    hide HeaderEnd, IsSlice, CountLooked;
    ghost var b := frame[..];
    maxOffset, naluToUpdate := 0, [];
    var k := 0;
    LookedStarts(b, units, ppsIdBytes);
    while k < |units|
      invariant 0 <= k <= CountLooked(b, units)
      invariant naluToUpdate == ShortOffsets(units[..k])
      invariant maxOffset == MaxHeaderEnd(b, units[..k], ppsIdBytes)
      invariant k < |units| ==> k < CountLooked(b, units)
    {
      LookedStep(b, units, ppsIdBytes, k);
      hide ShortOffsets, MaxHeaderEnd;
      var u := units[k];
      if u.payloadStartOffset - u.startOffset == SHORT_START_CODE {
        naluToUpdate := naluToUpdate + [u.startOffset];
      }
      var end, isSlice := MeasureUnit(frame, u, ppsIdBytes);
      maxOffset := if maxOffset < end then end else maxOffset;
      k := k + 1;
      if isSlice {
        break;
      }
    }
    assert k == CountLooked(b, units);
  }

  lemma {:induction false} LookedStarts(frame: seq<byte>, units: seq<NaluIndex>, ppsIdBytes: PpsIdBytes)
    requires Inside(frame, units)
    ensures ShortOffsets(units[..0]) == [] && MaxHeaderEnd(frame, units[..0], ppsIdBytes) == 0
    ensures units != [] ==> CountLooked(frame, units) > 0
  {
  }

  lemma {:induction false} LookedStep(frame: seq<byte>, units: seq<NaluIndex>, ppsIdBytes: PpsIdBytes, k: nat)
    requires Inside(frame, units) && k < CountLooked(frame, units)
    ensures ShortOffsets(units[..k + 1])
         == ShortOffsets(units[..k]) + (if IsShort(units[k]) then [units[k].startOffset] else [])
    ensures var before, end := MaxHeaderEnd(frame, units[..k], ppsIdBytes), HeaderEnd(frame, units[k], ppsIdBytes);
            MaxHeaderEnd(frame, units[..k + 1], ppsIdBytes) == if before < end then end else before
    ensures IsSlice(frame, units[k]) <==> (k + 1 == CountLooked(frame, units) && (k + 1 < |units| || IsSlice(frame, units[k])))
    ensures !IsSlice(frame, units[k]) && k + 1 < |units| ==> k + 1 < CountLooked(frame, units)
  {
    hide HeaderEnd, IsSlice;
    assert units[..k + 1][..k] == units[..k];
  }

  /** calculateH264FramePlaintextHeaderSize, the units found in the frame handed in */
  method CalculatePlaintextHeader(frame: array<byte>, units: seq<NaluIndex>, ppsIdBytes: PpsIdBytes)
    returns (frameData: array<byte>, headerSize: nat)
    requires UnitsOf(frame[..], units)
    ensures fresh(frameData)
    ensures Header(frameData[..], headerSize) == HeaderOf(frame[..], units, ppsIdBytes)
  {
    if units == [] {
      frameData := new byte[frame.Length](i => 0);
      CopyBytes(frame, 0, frame.Length, frameData, 0);
      assert frameData[..] == frameData[..frame.Length] == frame[..];
      headerSize := 0;
      return;
    }
    var maxOffset, naluToUpdate := CollectHeader(frame, units, ppsIdBytes);
    frameData := new byte[frame.Length + |naluToUpdate|](i => 0);
    InsertZeros(frame, naluToUpdate, frameData);
    headerSize := maxOffset + |naluToUpdate|;
  }

  lemma InsertStep(b: seq<byte>, offsets: seq<nat>, i: nat, offset: nat)
    requires AscendingOffsets(offsets, |b|) && i < |offsets|
    requires offset == if i == 0 then 0 else offsets[i - 1]
    ensures AscendingOffsets(offsets[..i], offset) && AscendingOffsets(offsets[..i + 1], offsets[i])
    ensures offset <= offsets[i] <= |b|
    ensures WithZeros(b[..offsets[i]], offsets[..i + 1])
         == WithZeros(b[..offset], offsets[..i]) + b[offset..offsets[i]] + [0]
  {
    var here := b[..offsets[i]];
    assert offsets[..i + 1][..i] == offsets[..i];
    assert here[..offsets[i]] == here && here[offsets[i]..] == [];
    assert WithZeros(here, offsets[..i + 1]) == WithZeros(here, offsets[..i]) + [0] + [];
    ZerosSplit(here, offsets[..i], offset);
    assert here[..offset] == b[..offset] && here[offset..] == b[offset..offsets[i]];
  }

  /** The loop that copies the frame in pieces. */
  method InsertZeros(frame: array<byte>, offsets: seq<nat>, frameData: array<byte>)
    requires frame != frameData && frameData.Length == frame.Length + |offsets|
    requires AscendingOffsets(offsets, frame.Length)
    modifies frameData
    ensures frameData[..] == WithZeros(frame[..], offsets)
  {
    hide WithZeros, AscendingOffsets;
    ghost var b := frame[..];
    var offset := 0;
    var i := 0;
    NoZeros(b, offsets);
    while i < |offsets|
      invariant 0 <= i <= |offsets| && frame[..] == b
      invariant offset == (if i == 0 then 0 else offsets[i - 1]) && offset <= frame.Length
      invariant AscendingOffsets(offsets[..i], offset)
      invariant frameData[..offset + i] == WithZeros(b[..offset], offsets[..i])
    {
      InsertStep(b, offsets, i, offset);
      ghost var done := WithZeros(b[..offset], offsets[..i]);
      var nalu := offsets[i];
      if nalu - offset > 0 {
        CopyBytes(frame, offset, nalu, frameData, offset + i);
      } else {
        assert done + b[offset..nalu] == done;
      }
      assert frameData[..nalu + i] == done + b[offset..nalu];
      frameData[nalu + i] := 0;
      assert frameData[..nalu + i + 1] == frameData[..nalu + i] + [0];
      assert frameData[..nalu + i] == done + b[offset..nalu];
      offset := nalu;
      i := i + 1;
    }
    assert offsets[..i] == offsets;
    ghost var front := WithZeros(b[..offset], offsets);
    ZerosSplit(b, offsets, offset);
    assert frameData[..offset + |offsets|] == front;
    if offset < frame.Length {
      assert b[offset..] == frame[offset..frame.Length];
      CopyBytes(frame, offset, frame.Length, frameData, offset + |offsets|);
      assert frameData[..frame.Length + |offsets|] == front + b[offset..];
      assert frameData[..] == frameData[..frame.Length + |offsets|];
    } else {
      assert b[offset..] == [] && front + [] == front;
      assert frameData[..] == frameData[..offset + |offsets|];
    }
  }

  lemma NoZeros(b: seq<byte>, offsets: seq<nat>)
    ensures AscendingOffsets(offsets[..0], 0)
    ensures WithZeros(b[..0], offsets[..0]) == []
  {
  }
}
