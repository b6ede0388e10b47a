// The signaling messages and their byte form (Message.h, Message.cpp).
module Messages {
  import opened Prelude
  import opened Bytes
  import opened ByteOrder

  const MAX_STRING_LENGTH: nat := 65536

  datatype AudioState = Muted | Active
  datatype VideoState = Inactive | Paused | Playing

  /** A video format; scalability modes exist locally and are never sent. */
  datatype VideoFormat = VideoFormat(
    name: seq<byte>, parameters: Dict<seq<byte>>, scalabilityModes: seq<seq<byte>>)

  datatype IceParameters = IceParameters(ufrag: seq<byte>, pwd: seq<byte>, supportsRenomination: bool)

  /** Candidates are their text, opaque here. */
  datatype Message =
    | CandidatesList(candidates: seq<seq<byte>>, iceParameters: IceParameters)
    | VideoFormats(formats: seq<VideoFormat>, encodersCount: int)
    | RequestVideo
    | RemoteMediaState(audio: AudioState, video: VideoState)
    | AudioData(data: seq<byte>)
    | VideoData(data: seq<byte>)
    | UnstructuredData(data: seq<byte>)
    | VideoParameters(aspectRatio: uint32)
    | RemoteBatteryLevelIsLow(batteryLow: bool)
    | RemoteNetworkStatus(isLowCost: bool, isLowDataRequested: bool)

  function Id(m: Message): byte {
    match m
    case CandidatesList(_, _) => 1
    case VideoFormats(_, _) => 2
    case RequestVideo => 3
    case RemoteMediaState(_, _) => 4
    case AudioData(_) => 5
    case VideoData(_) => 6
    case UnstructuredData(_) => 7
    case VideoParameters(_) => 8
    case RemoteBatteryLevelIsLow(_) => 9
    case RemoteNetworkStatus(_, _) => 10
  }

  predicate RequiresAck(m: Message) {
    !m.AudioData? && !m.VideoData?
  }

  // --- Writing

  function StringBytes(s: seq<byte>): seq<byte> {
    U32(|s| % 0x1_0000_0000) + s
  }

  function StringsBytes(list: seq<seq<byte>>): seq<byte> {
    if list == [] then [] else StringBytes(list[0]) + StringsBytes(list[1..])
  }

  function ParametersBytes(d: Dict<seq<byte>>): seq<byte> {
    if d == [] then [] else StringBytes(d[0].0) + StringBytes(d[0].1) + ParametersBytes(d[1..])
  }

  function FormatBytes(f: VideoFormat): seq<byte> {
    StringBytes(f.name) + [|f.parameters| % 256] + ParametersBytes(f.parameters)
  }

  function FormatsBytes(list: seq<VideoFormat>): seq<byte> {
    if list == [] then [] else FormatBytes(list[0]) + FormatsBytes(list[1..])
  }

  function BufferBytes(data: seq<byte>, single: bool): seq<byte> {
    (if single then [] else U16(|data| % 0x1_0000)) + data
  }

  function VideoBits(v: VideoState): byte {
    match v case Inactive => 0 case Paused => 1 case Playing => 2
  }

  function Flag(b: bool): byte {
    if b then 1 else 0
  }

  function FieldsBytes(m: Message, single: bool): seq<byte> {
    match m
    case CandidatesList(candidates, ice) =>
      [|candidates| % 256] + StringsBytes(candidates) + StringBytes(ice.ufrag) + StringBytes(ice.pwd)
    case VideoFormats(formats, encodersCount) =>
      [|formats| % 256] + FormatsBytes(formats) + [encodersCount % 256]
    case RequestVideo => []
    case RemoteMediaState(audio, video) => [VideoBits(video) * 2 + Flag(audio.Active?)]
    case AudioData(data) => BufferBytes(data, single)
    case VideoData(data) => BufferBytes(data, single)
    case UnstructuredData(data) => BufferBytes(data, single)
    case VideoParameters(aspectRatio) => U32(aspectRatio)
    case RemoteBatteryLevelIsLow(batteryLow) => [Flag(batteryLow)]
    case RemoteNetworkStatus(isLowCost, isLowDataRequested) => [Flag(isLowCost), Flag(isLowDataRequested)]
  }

  function MessageBytes(m: Message, single: bool): seq<byte> {
    [Id(m)] + FieldsBytes(m, single)
  }

  // --- Reading

  function ReadString(b: seq<byte>): (r: Parsed<seq<byte>>)
    ensures r.Parsed? ==> |r.rest| <= |b|
  {
    var (length, b) :- ReadU32(b);
    if MAX_STRING_LENGTH <= length then Malformed else ReadBytes(b, length)
  }

  function ReadStrings(b: seq<byte>, count: nat): (r: Parsed<seq<seq<byte>>>)
    ensures r.Parsed? ==> |r.rest| <= |b|
    decreases count
  {
    if count == 0 then Parsed([], b)
    else
      var (s, b) :- ReadString(b);
      var (list, b) :- ReadStrings(b, count - 1);
      Parsed([s] + list, b)
  }

  function ReadParameters(b: seq<byte>, count: nat, known: Dict<seq<byte>>): (r: Parsed<Dict<seq<byte>>>)
    ensures r.Parsed? ==> |r.rest| <= |b|
    decreases count
  {
    if count == 0 then Parsed(known, b)
    else
      var (key, b) :- ReadString(b);
      var (value, b) :- ReadString(b);
      ReadParameters(b, count - 1, Emplace(known, key, value))
  }

  function ReadFormat(b: seq<byte>): (r: Parsed<VideoFormat>)
    ensures r.Parsed? ==> |r.rest| <= |b|
  {
    var (name, b) :- ReadString(b);
    var (count, b) :- ReadU8(b);
    var (parameters, b) :- ReadParameters(b, count, []);
    Parsed(VideoFormat(name, parameters, []), b)
  }

  function ReadFormats(b: seq<byte>, count: nat): (r: Parsed<seq<VideoFormat>>)
    ensures r.Parsed? ==> |r.rest| <= |b|
    decreases count
  {
    if count == 0 then Parsed([], b)
    else
      var (f, b) :- ReadFormat(b);
      var (list, b) :- ReadFormats(b, count - 1);
      Parsed([f] + list, b)
  }

  function ReadBuffer(b: seq<byte>, single: bool): (r: Parsed<seq<byte>>)
    ensures r.Parsed? ==> |r.rest| <= |b|
  {
    if single then ReadBytes(b, |b| % 0x1_0000)
    else
      var (length, b) :- ReadU16(b);
      ReadBytes(b, length)
  }

  function ReadFields(id: byte, b: seq<byte>, single: bool): (r: Parsed<Message>)
    ensures r.Parsed? ==> |r.rest| <= |b|
  {
    if id == 1 then
      var (count, b) :- ReadU8(b);
      var (candidates, b) :- ReadStrings(b, count);
      var (ufrag, b) :- ReadString(b);
      var (pwd, b) :- ReadString(b);
      Parsed(CandidatesList(candidates, IceParameters(ufrag, pwd, false)), b)
    else if id == 2 then
      var (count, b) :- ReadU8(b);
      var (formats, b) :- ReadFormats(b, count);
      var (encoders, b) :- ReadU8(b);
      if |formats| < encoders then Malformed else Parsed(VideoFormats(formats, encoders), b)
    else if id == 3 then
      Parsed(RequestVideo, b)
    else if id == 4 then
      var (state, b) :- ReadU8(b);
      if state / 2 % 4 == 3 then Malformed
      else
        var video := if state / 2 % 4 == 0 then Inactive else if state / 2 % 4 == 1 then Paused else Playing;
        Parsed(RemoteMediaState(if state % 2 == 1 then Active else Muted, video), b)
    else if id == 5 then
      var (data, b) :- ReadBuffer(b, single);
      Parsed(AudioData(data), b)
    else if id == 6 then
      var (data, b) :- ReadBuffer(b, single);
      Parsed(VideoData(data), b)
    else if id == 7 then
      var (data, b) :- ReadBuffer(b, single);
      Parsed(UnstructuredData(data), b)
    else if id == 8 then
      var (aspectRatio, b) :- ReadU32(b);
      Parsed(VideoParameters(aspectRatio), b)
    else if id == 9 then
      var (value, b) :- ReadU8(b);
      Parsed(RemoteBatteryLevelIsLow(value != 0), b)
    else if id == 10 then
      var (value, b) :- ReadU8(b);
      if b == [] then Parsed(RemoteNetworkStatus(value != 0, false), b)
      else Parsed(RemoteNetworkStatus(value != 0, b[0] != 0), b[1..])
    else Malformed
  }

  function ReadMessage(b: seq<byte>, single: bool): (r: Parsed<Message>)
    ensures r.Parsed? ==> |r.rest| < |b|
  {
    var (id, b) :- ReadU8(b);
    ReadFields(id, b, single)
  }

  // --- What a caller may send: the assertions of the Serialize functions

  predicate ShortString(s: seq<byte>) {
    |s| < MAX_STRING_LENGTH
  }

  ghost predicate SendableFormat(f: VideoFormat) {
    && ShortString(f.name)
    && |f.parameters| < 255
    && SortedKeys(f.parameters)
    && forall i | 0 <= i < |f.parameters| :: ShortString(f.parameters[i].0) && ShortString(f.parameters[i].1)
  }

  ghost predicate Sendable(m: Message, single: bool) {
    match m
    case CandidatesList(candidates, ice) =>
      && |candidates| < 255
      && (forall i | 0 <= i < |candidates| :: ShortString(candidates[i]))
      && ShortString(ice.ufrag) && ShortString(ice.pwd)
    case VideoFormats(formats, encodersCount) =>
      && |formats| < 255 && 0 <= encodersCount <= |formats|
      && (forall i | 0 <= i < |formats| :: SendableFormat(formats[i]))
    case AudioData(data) => single || |data| <= 0xFFFF
    case VideoData(data) => single || |data| <= 0xFFFF
    case UnstructuredData(data) => single || |data| <= 0xFFFF
    case _ => true
  }

  /** What the other side can know of a format: everything but the scalability modes. */
  function FormatOnWire(f: VideoFormat): VideoFormat {
    f.(scalabilityModes := [])
  }

  function FormatsOnWire(list: seq<VideoFormat>): (wire: seq<VideoFormat>)
    ensures |wire| == |list|
    ensures forall i | 0 <= i < |list| :: wire[i] == FormatOnWire(list[i])
  {
    seq(|list|, i requires 0 <= i < |list| => FormatOnWire(list[i]))
  }

  /** The message the other side gets; supportsRenomination is not sent either. */
  function OnWire(m: Message): Message {
    match m
    case CandidatesList(candidates, ice) => CandidatesList(candidates, ice.(supportsRenomination := false))
    case VideoFormats(formats, encodersCount) => VideoFormats(FormatsOnWire(formats), encodersCount)
    case _ => m
  }

  // --- Round trips

  lemma ReadsBackString(s: seq<byte>, rest: seq<byte>)
    requires ShortString(s)
    ensures ReadString(StringBytes(s) + rest) == Parsed(s, rest)
  {
    hide U32, ReadU32, ReadBytes;
    Regroup(U32(|s|), s, rest);
    ReadsBackU32(|s|, s + rest);
    ReadsBackBytes(s, rest);
  }

  lemma {:induction false} ReadsBackStrings(list: seq<seq<byte>>, rest: seq<byte>)
    requires forall i | 0 <= i < |list| :: ShortString(list[i])
    ensures ReadStrings(StringsBytes(list) + rest, |list|) == Parsed(list, rest)
  {
    hide StringBytes, ReadString;
    if list == [] {
      assert StringsBytes(list) + rest == rest;
    } else {
      var tail := StringsBytes(list[1..]) + rest;
      Regroup(StringBytes(list[0]), StringsBytes(list[1..]), rest);
      ReadsBackString(list[0], tail);
      ReadsBackStrings(list[1..], rest);
      assert list == [list[0]] + list[1..];
    }
  }

  lemma {:induction false} ReadsBackParameters(d: Dict<seq<byte>>, k: nat, rest: seq<byte>)
    requires k <= |d| && SortedKeys(d)
    requires forall i | 0 <= i < |d| :: ShortString(d[i].0) && ShortString(d[i].1)
    ensures ReadParameters(ParametersBytes(d[k..]) + rest, |d| - k, d[..k]) == Parsed(d, rest)
    decreases |d| - k
  {
    hide StringBytes, ReadString, Emplace;
    if k == |d| {
      assert ParametersBytes(d[k..]) + rest == rest && d[..k] == d;
    } else {
      var entry, tail := d[k], ParametersBytes(d[k + 1..]) + rest;
      assert d[k..][1..] == d[k + 1..];
      assert ParametersBytes(d[k..]) + rest == StringBytes(entry.0) + (StringBytes(entry.1) + tail);
      ReadsBackString(entry.0, StringBytes(entry.1) + tail);
      ReadsBackString(entry.1, tail);
      AppendsGreatest(d[..k], entry.0, entry.1);
      assert d[..k] + [(entry.0, entry.1)] == d[..k + 1];
      ReadsBackParameters(d, k + 1, rest);
    }
  }

  lemma ReadsBackFormat(f: VideoFormat, rest: seq<byte>)
    requires SendableFormat(f)
    ensures ReadFormat(FormatBytes(f) + rest) == Parsed(FormatOnWire(f), rest)
  {
    hide StringBytes, ReadString, ParametersBytes, ReadParameters;
    var tail := ParametersBytes(f.parameters) + rest;
    assert FormatBytes(f) + rest == StringBytes(f.name) + ([|f.parameters| % 256] + tail);
    ReadsBackString(f.name, [|f.parameters| % 256] + tail);
    assert ([|f.parameters| % 256] + tail)[1..] == tail;
    ReadsBackParameters(f.parameters, 0, rest);
    assert f.parameters[0..] == f.parameters && f.parameters[..0] == [];
  }

  lemma {:induction false} ReadsBackFormats(list: seq<VideoFormat>, rest: seq<byte>)
    requires forall i | 0 <= i < |list| :: SendableFormat(list[i])
    ensures ReadFormats(FormatsBytes(list) + rest, |list|) == Parsed(FormatsOnWire(list), rest)
  {
    hide FormatBytes, ReadFormat, SendableFormat, FormatOnWire;
    if list == [] {
      assert FormatsBytes(list) + rest == rest;
    } else {
      var tail := FormatsBytes(list[1..]) + rest;
      assert FormatsBytes(list) + rest == FormatBytes(list[0]) + tail;
      ReadsBackFormat(list[0], tail);
      ReadsBackFormats(list[1..], rest);
      assert FormatsOnWire(list) == [FormatOnWire(list[0])] + FormatsOnWire(list[1..]);
    }
  }

  lemma ReadsBackBuffer(data: seq<byte>, rest: seq<byte>)
    requires |data| <= 0xFFFF
    ensures ReadBuffer(BufferBytes(data, false) + rest, false) == Parsed(data, rest)
  {
    hide U16, ReadU16, ReadBytes;
    Regroup(U16(|data|), data, rest);
    ReadsBackU16(|data|, data + rest);
    ReadsBackBytes(data, rest);
  }

  lemma {:induction false} CandidatesRead(
      b: seq<byte>, count: byte, strings: seq<byte>, candidates: seq<seq<byte>>, ufrag: seq<byte>,
      name: seq<byte>, pwd: seq<byte>, password: seq<byte>, rest: seq<byte>)
    requires ReadU8(b) == Parsed(count, strings) && ReadStrings(strings, count) == Parsed(candidates, ufrag)
    requires ReadString(ufrag) == Parsed(name, pwd) && ReadString(pwd) == Parsed(password, rest)
    ensures ReadFields(1, b, false) == Parsed(CandidatesList(candidates, IceParameters(name, password, false)), rest)
  {
    hide ReadU8, ReadString, ReadStrings, ReadFormats, ReadBuffer, ReadU32;
  }

  lemma FourInFront(a: seq<byte>, b: seq<byte>, c: seq<byte>, d: seq<byte>, rest: seq<byte>)
    ensures a + b + c + d + rest == a + (b + (c + (d + rest)))
  {
  }

  lemma ReadsBackCandidates(m: Message, rest: seq<byte>)
    requires m.CandidatesList? && Sendable(m, false)
    ensures ReadFields(Id(m), FieldsBytes(m, false) + rest, false) == Parsed(OnWire(m), rest)
  {
    hide StringBytes, ReadString, StringsBytes, ReadStrings, ReadFields;
    var ice := m.iceParameters;
    var pwd := StringBytes(ice.pwd) + rest;
    var ufrag := StringBytes(ice.ufrag) + pwd;
    var strings := StringsBytes(m.candidates) + ufrag;
    var b := FieldsBytes(m, false) + rest;
    FourInFront([|m.candidates| % 256], StringsBytes(m.candidates), StringBytes(ice.ufrag), StringBytes(ice.pwd), rest);
    assert b == [|m.candidates| % 256] + strings;
    assert b[1..] == strings;
    ReadsBackStrings(m.candidates, ufrag);
    ReadsBackString(ice.ufrag, pwd);
    ReadsBackString(ice.pwd, rest);
    CandidatesRead(b, |m.candidates|, strings, m.candidates, ufrag, ice.ufrag, pwd, ice.pwd, rest);
  }

  lemma ReadsBackVideoFormats(m: Message, rest: seq<byte>)
    requires m.VideoFormats? && Sendable(m, false)
    ensures ReadFields(Id(m), FieldsBytes(m, false) + rest, false) == Parsed(OnWire(m), rest)
  {
    hide FormatsBytes, ReadFormats, FormatBytes, SendableFormat;
    var encoders := [m.encodersCount % 256] + rest;
    var formats := FormatsBytes(m.formats) + encoders;
    var b := FieldsBytes(m, false) + rest;
    assert b == [|m.formats| % 256] + formats;
    assert b[1..] == formats;
    ReadsBackFormats(m.formats, encoders);
    assert encoders[1..] == rest;
  }

  lemma ReadsBackSmall(m: Message, rest: seq<byte>)
    requires m.RequestVideo? || m.RemoteMediaState? || m.VideoParameters? || m.RemoteBatteryLevelIsLow? || m.RemoteNetworkStatus?
    ensures ReadFields(Id(m), FieldsBytes(m, false) + rest, false) == Parsed(OnWire(m), rest)
  {
    hide ReadString, ReadStrings, ReadFormats, ReadBuffer, U32, ReadU32;
    var b := FieldsBytes(m, false) + rest;
    match m
    case RequestVideo => assert b == rest;
    case RemoteMediaState(audio, video) => assert b[1..] == rest;
    case VideoParameters(aspectRatio) => ReadsBackU32(aspectRatio, rest);
    case RemoteBatteryLevelIsLow(_) => assert b[1..] == rest;
    case RemoteNetworkStatus(_, _) => assert b[1..][1..] == rest;
  }

  lemma ReadsBackData(m: Message, rest: seq<byte>)
    requires m.AudioData? || m.VideoData? || m.UnstructuredData?
    requires |m.data| <= 0xFFFF
    ensures ReadFields(Id(m), FieldsBytes(m, false) + rest, false) == Parsed(OnWire(m), rest)
  {
    hide ReadString, ReadStrings, ReadFormats, ReadBuffer, BufferBytes, ReadU8, ReadU32;
    ReadsBackBuffer(m.data, rest);
  }

  lemma ReadsBackFields(m: Message, rest: seq<byte>)
    requires Sendable(m, false)
    ensures ReadFields(Id(m), FieldsBytes(m, false) + rest, false) == Parsed(OnWire(m), rest)
  {
    hide ReadFields, FieldsBytes;
    if m.CandidatesList? {
      ReadsBackCandidates(m, rest);
    } else if m.VideoFormats? {
      ReadsBackVideoFormats(m, rest);
    } else if m.AudioData? || m.VideoData? || m.UnstructuredData? {
      ReadsBackData(m, rest);
    } else {
      ReadsBackSmall(m, rest);
    }
  }

  /** Any message followed by any bytes is read back, up to what is never sent, leaving those bytes. */
  lemma MessageRoundTrip(m: Message, rest: seq<byte>)
    requires Sendable(m, false)
    ensures ReadMessage(MessageBytes(m, false) + rest, false) == Parsed(OnWire(m), rest)
  {
    assert MessageBytes(m, false) + rest == [Id(m)] + (FieldsBytes(m, false) + rest);
    assert (MessageBytes(m, false) + rest)[1..] == FieldsBytes(m, false) + rest;
    ReadsBackFields(m, rest);
  }

  lemma ReadsBufferIff(data: seq<byte>)
    ensures ReadBuffer(data, true) == Parsed(data, []) <==> |data| <= 0xFFFF
  {
    if |data| <= 0xFFFF {
      assert data[..|data|] == data && data[|data|..] == [];
    } else {
      assert |data[|data| % 0x1_0000..]| > 0;
    }
  }

  lemma SingleDataRead(m: Message)
    requires m.AudioData? || m.VideoData? || m.UnstructuredData?
    ensures var b := FieldsBytes(m, true);
            b == m.data && (ReadFields(Id(m), b, true) == Parsed(m, []) <==> ReadBuffer(b, true) == Parsed(m.data, []))
  {
    hide ReadString, ReadStrings, ReadFormats, ReadBuffer, ReadU8, ReadU32;
    assert [] + m.data == m.data;
  }

  lemma OthersReadAlike(m: Message, b: seq<byte>)
    requires !m.AudioData? && !m.VideoData? && !m.UnstructuredData?
    ensures FieldsBytes(m, true) == FieldsBytes(m, false)
    ensures ReadFields(Id(m), b, true) == ReadFields(Id(m), b, false)
    ensures Sendable(m, true) <==> Sendable(m, false)
  {
    hide ReadString, ReadStrings, ReadFormats, ReadBuffer, ReadU8, ReadU32, SendableFormat, StringsBytes, FormatsBytes;
  }

  /** The form without lengths works when the message fills the packet: exactly when its data,
      if it has any, is shorter than 65536 bytes. */
  lemma SingleMessageRoundTrip(m: Message)
    requires Sendable(m, true)
    ensures ReadMessage(MessageBytes(m, true), true) == Parsed(OnWire(m), [])
            <==> (m.AudioData? || m.VideoData? || m.UnstructuredData? ==> |m.data| <= 0xFFFF)
  {
    hide ReadFields, FieldsBytes, Sendable, ReadBuffer;
    var b := FieldsBytes(m, true);
    assert MessageBytes(m, true)[1..] == b;
    if m.AudioData? || m.VideoData? || m.UnstructuredData? {
      SingleDataRead(m);
      ReadsBufferIff(m.data);
    } else {
      OthersReadAlike(m, b);
      ReadsBackFields(m, []);
      assert b + [] == b;
    }
  }

  /** What is lost on the wire: exactly the renomination flag and scalability modes. */
  lemma OnWireIsLosslessIff(m: Message)
    ensures OnWire(m) == m
            <==> && (m.CandidatesList? ==> !m.iceParameters.supportsRenomination)
                 && (m.VideoFormats? ==> forall i | 0 <= i < |m.formats| :: m.formats[i].scalabilityModes == [])
  {
    if m.VideoFormats? {
      var wire := FormatsOnWire(m.formats);
      if forall i | 0 <= i < |m.formats| :: m.formats[i].scalabilityModes == [] {
        assert wire == m.formats;
      } else {
        var i :| 0 <= i < |m.formats| && m.formats[i].scalabilityModes != [];
        assert wire[i] != m.formats[i];
      }
    }
  }
}
