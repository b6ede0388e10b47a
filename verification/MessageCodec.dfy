// The serializers and deserializers of Message.cpp over a shared writer and a
// reader cursor, proved against the byte forms of Messages.
module MessageCodec {
  import opened Prelude
  import opened Bytes
  import opened ByteOrder
  import opened Messages
  import Wire

  /** rtc::ByteBufferWriter */
  class ByteBufferWriter {
    var data: seq<byte>

    constructor ()
      ensures data == []
    {
      data := [];
    }

    method WriteUInt8(n: byte)
      modifies this
      ensures data == old(data) + [n]
    {
      data := data + [n];
    }

    method WriteUInt16(n: int)
      requires 0 <= n < 0x1_0000
      modifies this
      ensures data == old(data) + U16(n)
    {
      data := data + U16(n);
    }

    method WriteUInt32(n: uint32)
      modifies this
      ensures data == old(data) + U32(n)
    {
      data := data + U32(n);
    }

    method WriteBytes(b: seq<byte>)
      modifies this
      ensures data == old(data) + b
    {
      data := data + b;
    }
  }

  /** What a read leaves: the value and the unread bytes, or nothing known of either. */
  ghost predicate Yields<T>(parsed: Parsed<T>, result: Option<T>, rest: seq<byte>) {
    match parsed
    case Malformed => result.None?
    case Parsed(value, unread) => result == Some(value) && rest == unread
  }

  /** rtc::ByteBufferReader: the bytes not read yet. */
  class ByteBufferReader {
    var rest: seq<byte>

    constructor (b: seq<byte>)
      ensures rest == b
    {
      rest := b;
    }

    method Consume(n: nat)
      requires n <= |rest|
      modifies this
      ensures rest == old(rest)[n..]
    {
      rest := rest[n..];
    }

    method ReadUInt8() returns (r: Option<byte>)
      modifies this
      ensures Yields(ReadU8(old(rest)), r, rest)
      ensures r.None? ==> rest == old(rest)
    {
      if |rest| < 1 {
        return None;
      }
      r := Some(rest[0]);
      Consume(1);
    }

    method ReadUInt16() returns (r: Option<int>)
      modifies this
      ensures Yields(ReadU16(old(rest)), r, rest)
    {
      var parsed := ReadU16(rest);
      if parsed.Malformed? {
        return None;
      }
      r := Some(parsed.value);
      Consume(2);
    }

    method ReadUInt32() returns (r: Option<uint32>)
      modifies this
      ensures Yields(ReadU32(old(rest)), r, rest)
    {
      var parsed := ReadU32(rest);
      if parsed.Malformed? {
        return None;
      }
      r := Some(parsed.value);
      Consume(4);
    }

    method ReadString(length: nat) returns (r: Option<seq<byte>>)
      modifies this
      ensures Yields(ReadBytes(old(rest), length), r, rest)
    {
      if |rest| < length {
        return None;
      }
      r := Some(rest[..length]);
      Consume(length);
    }
  }

  // --- Writing

  method SerializeString(to: ByteBufferWriter, from: seq<byte>)
    modifies to
    ensures to.data == old(to.data) + StringBytes(from)
  {
    to.WriteUInt32(|from| % 0x1_0000_0000);
    to.WriteBytes(from);
    assert to.data == old(to.data) + (U32(|from| % 0x1_0000_0000) + from);
  }

  method SerializeFormat(to: ByteBufferWriter, from: VideoFormat)
    modifies to
    ensures to.data == old(to.data) + FormatBytes(from)
  {
    SerializeString(to, from.name);
    to.WriteUInt8(|from.parameters| % 256);
    ghost var before := to.data;
    var i := 0;
    while i < |from.parameters|
      invariant 0 <= i <= |from.parameters|
      invariant to.data + ParametersBytes(from.parameters[i..]) == before + ParametersBytes(from.parameters)
    {
      ghost var rest := from.parameters[i..];
      assert rest[1..] == from.parameters[i + 1..];
      ghost var now := to.data;
      SerializeString(to, from.parameters[i].0);
      SerializeString(to, from.parameters[i].1);
      AppendEntry(now, rest);
      i := i + 1;
    }
    assert from.parameters[i..] == [];
    assert to.data + [] == to.data;
    assert before + ParametersBytes(from.parameters) == old(to.data) + FormatBytes(from);
  }

  lemma {:induction false} AppendEntry(data: seq<byte>, rest: Dict<seq<byte>>)
    requires rest != []
    ensures data + ParametersBytes(rest)
         == data + StringBytes(rest[0].0) + StringBytes(rest[0].1) + ParametersBytes(rest[1..])
  {
    hide StringBytes;
    var k, v, tail := StringBytes(rest[0].0), StringBytes(rest[0].1), ParametersBytes(rest[1..]);
    assert data + (k + v + tail) == data + k + v + tail;
  }

  lemma AppendString(data: seq<byte>, list: seq<seq<byte>>, i: nat)
    requires i < |list|
    ensures data + StringsBytes(list[i..]) == data + StringBytes(list[i]) + StringsBytes(list[i + 1..])
  {
    hide StringBytes;
    assert list[i..][1..] == list[i + 1..];
    assert data + (StringBytes(list[i]) + StringsBytes(list[i + 1..]))
        == data + StringBytes(list[i]) + StringsBytes(list[i + 1..]);
  }

  lemma AppendFormat(data: seq<byte>, list: seq<VideoFormat>, i: nat)
    requires i < |list|
    ensures data + FormatsBytes(list[i..]) == data + FormatBytes(list[i]) + FormatsBytes(list[i + 1..])
  {
    hide FormatBytes;
    assert list[i..][1..] == list[i + 1..];
    assert data + (FormatBytes(list[i]) + FormatsBytes(list[i + 1..]))
        == data + FormatBytes(list[i]) + FormatsBytes(list[i + 1..]);
  }

  method SerializeCandidates(to: ByteBufferWriter, candidates: seq<seq<byte>>, ice: IceParameters)
    modifies to
    ensures to.data == old(to.data) + FieldsBytes(CandidatesList(candidates, ice), false)
  {
    hide StringBytes;
    to.WriteUInt8(|candidates| % 256);
    ghost var before := to.data;
    var i := 0;
    while i < |candidates|
      invariant 0 <= i <= |candidates|
      invariant to.data + StringsBytes(candidates[i..]) == before + StringsBytes(candidates)
    {
      ghost var now := to.data;
      SerializeString(to, candidates[i]);
      AppendString(now, candidates, i);
      i := i + 1;
    }
    assert candidates[i..] == [];
    assert to.data + [] == to.data;
    SerializeString(to, ice.ufrag);
    SerializeString(to, ice.pwd);
    assert to.data == old(to.data)
      + ([|candidates| % 256] + StringsBytes(candidates) + StringBytes(ice.ufrag) + StringBytes(ice.pwd));
  }

  method SerializeVideoFormats(to: ByteBufferWriter, formats: seq<VideoFormat>, encodersCount: int)
    modifies to
    ensures to.data == old(to.data) + FieldsBytes(VideoFormats(formats, encodersCount), false)
  {
    hide FormatBytes;
    to.WriteUInt8(|formats| % 256);
    ghost var before := to.data;
    var i := 0;
    while i < |formats|
      invariant 0 <= i <= |formats|
      invariant to.data + FormatsBytes(formats[i..]) == before + FormatsBytes(formats)
    {
      ghost var now := to.data;
      SerializeFormat(to, formats[i]);
      AppendFormat(now, formats, i);
      i := i + 1;
    }
    assert formats[i..] == [];
    assert to.data + [] == to.data;
    to.WriteUInt8(encodersCount % 256);
    assert to.data == old(to.data) + ([|formats| % 256] + FormatsBytes(formats) + [encodersCount % 256]);
  }

  method SerializeBuffer(to: ByteBufferWriter, from: seq<byte>, single: bool)
    modifies to
    ensures to.data == old(to.data) + BufferBytes(from, single)
  {
    if !single {
      to.WriteUInt16(|from| % 0x1_0000);
    }
    to.WriteBytes(from);
    assert to.data == old(to.data) + BufferBytes(from, single);
  }

  method SerializeFields(to: ByteBufferWriter, from: Message, single: bool)
    modifies to
    ensures to.data == old(to.data) + FieldsBytes(from, single)
  {
    match from {
      case CandidatesList(candidates, ice) => SerializeCandidates(to, candidates, ice);
      case VideoFormats(formats, encodersCount) => SerializeVideoFormats(to, formats, encodersCount);
      case RequestVideo => assert to.data + [] == to.data;
      case RemoteMediaState(audio, video) => to.WriteUInt8(VideoBits(video) * 2 + Flag(audio.Active?));
      case AudioData(data) => SerializeBuffer(to, data, single);
      case VideoData(data) => SerializeBuffer(to, data, single);
      case UnstructuredData(data) => SerializeBuffer(to, data, single);
      case VideoParameters(aspectRatio) => to.WriteUInt32(aspectRatio);
      case RemoteBatteryLevelIsLow(batteryLow) => to.WriteUInt8(Flag(batteryLow));
      case RemoteNetworkStatus(isLowCost, isLowDataRequested) =>
        to.WriteUInt8(Flag(isLowCost));
        to.WriteUInt8(Flag(isLowDataRequested));
    }
  }

  /** A message behind its seq, as it goes into a packet. */
  method SerializeMessageWithSeq(message: Message, seqNum: uint32) returns (bytes: seq<byte>)
    ensures bytes == Wire.ItemBytes(Wire.Msg(seqNum, Wire.Typed(message)))
  {
    hide FieldsBytes, U32;
    var writer := new ByteBufferWriter();
    writer.WriteUInt32(seqNum);
    writer.WriteUInt8(Id(message));
    SerializeFields(writer, message, Wire.IsSingle(seqNum));
    bytes := writer.data;
    var fields := FieldsBytes(message, Wire.IsSingle(seqNum));
    assert [] + U32(seqNum) + [Id(message)] + fields == U32(seqNum) + ([Id(message)] + fields);
  }

  method SerializeRawMessageWithSeq(message: seq<byte>, seqNum: uint32) returns (bytes: seq<byte>)
    ensures bytes == Wire.ItemBytes(Wire.Msg(seqNum, Wire.Raw(message)))
  {
    var writer := new ByteBufferWriter();
    writer.WriteUInt32(seqNum);
    writer.WriteUInt8(Wire.CUSTOM_ID);
    writer.WriteUInt32(|message| % 0x1_0000_0000);
    writer.WriteBytes(message);
    bytes := writer.data;
    var length := U32(|message| % 0x1_0000_0000);
    assert [] + U32(seqNum) + [Wire.CUSTOM_ID] + length + message == U32(seqNum) + ([Wire.CUSTOM_ID] + length + message);
  }

  // --- Reading

  method DeserializeString(from: ByteBufferReader) returns (r: Option<seq<byte>>)
    modifies from
    ensures Yields(ReadString(old(from.rest)), r, from.rest)
  {
    var length := from.ReadUInt32();
    if length.None? {
      return None;
    } else if MAX_STRING_LENGTH <= length.value {
      return None;
    }
    r := from.ReadString(length.value);
  }

  /** Putting what was read before in front of what is still to be read. */
  function Prefixed<T>(read: seq<T>, parsed: Parsed<seq<T>>): Parsed<seq<T>> {
    if parsed.Malformed? then Malformed else Parsed(read + parsed.value, parsed.rest)
  }

  lemma NothingRead<T>(parsed: Parsed<seq<T>>)
    ensures Prefixed([], parsed) == parsed
  {
    assert parsed.Parsed? ==> [] + parsed.value == parsed.value;
  }

  method DeserializeCandidates(from: ByteBufferReader, count: nat) returns (r: Option<seq<seq<byte>>>)
    modifies from
    ensures Yields(ReadStrings(old(from.rest), count), r, from.rest)
  {
    var list := [];
    var i := 0;
    NothingRead(ReadStrings(from.rest, count));
    while i != count
      invariant 0 <= i <= count
      invariant ReadStrings(old(from.rest), count) == Prefixed(list, ReadStrings(from.rest, count - i))
    {
      ghost var before := from.rest;
      var candidate := DeserializeString(from);
      if candidate.None? {
        return None;
      }
      StringsStep(before, count - i, list, candidate.value, from.rest);
      list := list + [candidate.value];
      i := i + 1;
    }
    assert list + [] == list;
    r := Some(list);
  }

  lemma StringsStep(b: seq<byte>, count: nat, list: seq<seq<byte>>, s: seq<byte>, rest: seq<byte>)
    requires count > 0 && ReadString(b) == Parsed(s, rest)
    ensures Prefixed(list, ReadStrings(b, count)) == Prefixed(list + [s], ReadStrings(rest, count - 1))
  {
    hide ReadString;
    var tail := ReadStrings(rest, count - 1);
    if tail.Parsed? {
      assert list + ([s] + tail.value) == list + [s] + tail.value;
    }
  }

  lemma ParametersStep(
      b: seq<byte>, count: nat, known: Dict<seq<byte>>,
      key: seq<byte>, afterKey: seq<byte>, value: seq<byte>, rest: seq<byte>)
    requires count > 0 && ReadString(b) == Parsed(key, afterKey) && ReadString(afterKey) == Parsed(value, rest)
    ensures ReadParameters(b, count, known) == ReadParameters(rest, count - 1, Emplace(known, key, value))
  {
    hide ReadString, Emplace;
  }

  lemma {:induction false} ParametersDone(b: seq<byte>, known: Dict<seq<byte>>)
    ensures ReadParameters(b, 0, known) == Parsed(known, b)
  {
  }

  lemma {:induction false} ParametersFail(b: seq<byte>, count: nat, known: Dict<seq<byte>>)
    requires count > 0
    requires ReadString(b).Malformed? || ReadString(ReadString(b).rest).Malformed?
    ensures ReadParameters(b, count, known).Malformed?
  {
    hide ReadString, Emplace;
  }

  method DeserializeParameters(from: ByteBufferReader, count: nat) returns (r: Option<Dict<seq<byte>>>)
    modifies from
    ensures Yields(ReadParameters(old(from.rest), count, []), r, from.rest)
  {
    hide ReadString, Emplace, ReadParameters;
    var parameters := [];
    var i := 0;
    while i != count
      invariant 0 <= i <= count
      invariant ReadParameters(old(from.rest), count, []) == ReadParameters(from.rest, count - i, parameters)
    {
      ghost var before := from.rest;
      var key := DeserializeString(from);
      if key.None? {
        ParametersFail(before, count - i, parameters);
        return None;
      }
      ghost var between := from.rest;
      var value := DeserializeString(from);
      if value.None? {
        ParametersFail(before, count - i, parameters);
        return None;
      }
      ParametersStep(before, count - i, parameters, key.value, between, value.value, from.rest);
      parameters := Emplace(parameters, key.value, value.value);
      i := i + 1;
    }
    ParametersDone(from.rest, parameters);
    r := Some(parameters);
  }

  method DeserializeFormat(from: ByteBufferReader) returns (r: Option<VideoFormat>)
    modifies from
    ensures Yields(ReadFormat(old(from.rest)), r, from.rest)
  {
    hide ReadString, ReadParameters, Emplace, ReadU8;
    var name := DeserializeString(from);
    if name.None? {
      return None;
    }
    var count := from.ReadUInt8();
    if count.None? {
      return None;
    }
    var parameters := DeserializeParameters(from, count.value);
    if parameters.None? {
      return None;
    }
    r := Some(VideoFormat(name.value, parameters.value, []));
  }

  method DeserializeFormats(from: ByteBufferReader, count: nat) returns (r: Option<seq<VideoFormat>>)
    modifies from
    ensures Yields(ReadFormats(old(from.rest), count), r, from.rest)
  {
    hide ReadFormat;
    var list := [];
    var i := 0;
    NothingRead(ReadFormats(from.rest, count));
    while i != count
      invariant 0 <= i <= count
      invariant ReadFormats(old(from.rest), count) == Prefixed(list, ReadFormats(from.rest, count - i))
    {
      ghost var before := from.rest;
      var format := DeserializeFormat(from);
      if format.None? {
        return None;
      }
      FormatsStep(before, count - i, list, format.value, from.rest);
      list := list + [format.value];
      i := i + 1;
    }
    assert list + [] == list;
    r := Some(list);
  }

  lemma FormatsStep(b: seq<byte>, count: nat, list: seq<VideoFormat>, f: VideoFormat, rest: seq<byte>)
    requires count > 0 && ReadFormat(b) == Parsed(f, rest)
    ensures Prefixed(list, ReadFormats(b, count)) == Prefixed(list + [f], ReadFormats(rest, count - 1))
  {
    hide ReadFormat;
    var tail := ReadFormats(rest, count - 1);
    if tail.Parsed? {
      assert list + ([f] + tail.value) == list + [f] + tail.value;
    }
  }

  method DeserializeBuffer(from: ByteBufferReader, single: bool) returns (r: Option<seq<byte>>)
    modifies from
    ensures Yields(ReadBuffer(old(from.rest), single), r, from.rest)
  {
    var length := |from.rest| % 0x1_0000;
    if !single {
      var stated := from.ReadUInt16();
      if stated.None? {
        return None;
      } else if |from.rest| < stated.value {
        return None;
      }
      length := stated.value;
    }
    r := Some(from.rest[..length]);
    from.Consume(length);
  }

  method DeserializeCandidatesList(from: ByteBufferReader) returns (r: Option<Message>)
    modifies from
    ensures Yields(ReadFields(1, old(from.rest), false), r, from.rest)
  {
    var count := from.ReadUInt8();
    if count.None? {
      return None;
    }
    var candidates := DeserializeCandidates(from, count.value);
    if candidates.None? {
      return None;
    }
    var ufrag := DeserializeString(from);
    if ufrag.None? {
      return None;
    }
    var pwd := DeserializeString(from);
    if pwd.None? {
      return None;
    }
    r := Some(CandidatesList(candidates.value, IceParameters(ufrag.value, pwd.value, false)));
  }

  method DeserializeVideoFormats(from: ByteBufferReader) returns (r: Option<Message>)
    modifies from
    ensures Yields(ReadFields(2, old(from.rest), false), r, from.rest)
  {
    var count := from.ReadUInt8();
    if count.None? {
      return None;
    }
    var formats := DeserializeFormats(from, count.value);
    if formats.None? {
      return None;
    }
    var encoders := from.ReadUInt8();
    if encoders.None? {
      return None;
    } else if |formats.value| < encoders.value {
      return None;
    }
    r := Some(VideoFormats(formats.value, encoders.value));
  }

  method DeserializeSmall(id: byte, from: ByteBufferReader) returns (r: Option<Message>)
    requires id == 4 || 8 <= id <= 10
    modifies from
    ensures Yields(ReadFields(id, old(from.rest), false), r, from.rest)
  {
    if id == 8 {
      var aspectRatio := from.ReadUInt32();
      return if aspectRatio.None? then None else Some(VideoParameters(aspectRatio.value));
    }
    var value := from.ReadUInt8();
    if value.None? {
      return None;
    }
    if id == 4 {
      var video := value.value / 2 % 4;
      if video == 3 {
        return None;
      }
      return Some(RemoteMediaState(
        if value.value % 2 == 1 then Active else Muted,
        if video == 0 then Inactive else if video == 1 then Paused else Playing));
    } else if id == 9 {
      return Some(RemoteBatteryLevelIsLow(value.value != 0));
    } else {
      var isLowDataRequested := false;
      var second := from.ReadUInt8();
      if second.Some? {
        isLowDataRequested := second.value != 0;
      }
      assert second.None? ==> from.rest == [];
      return Some(RemoteNetworkStatus(value.value != 0, isLowDataRequested));
    }
  }

  /** One try after the other, as the types stand in the variant. */
  method DeserializeMessage(reader: ByteBufferReader, single: bool) returns (r: Option<Message>)
    modifies reader
    ensures Yields(ReadMessage(old(reader.rest), single), r, reader.rest)
  {
    hide ReadBuffer;
    if reader.rest == [] {
      return None;
    }
    var id := reader.rest[0];
    ghost var fields := reader.rest[1..];
    reader.Consume(1);
    SingleMatters(id, fields, single);
    if id == 1 {
      r := DeserializeCandidatesList(reader);
    } else if id == 2 {
      r := DeserializeVideoFormats(reader);
    } else if id == 3 {
      r := Some(RequestVideo);
    } else if id == 4 || 8 <= id <= 10 {
      r := DeserializeSmall(id, reader);
    } else if 5 <= id <= 7 {
      var data := DeserializeBuffer(reader, single);
      r := if data.None? then None
      else Some(if id == 5 then AudioData(data.value) else if id == 6 then VideoData(data.value) else UnstructuredData(data.value));
    } else {
      r := None;
    }
  }

  /** Only the messages made of a buffer look at the single-message flag. */
  lemma SingleMatters(id: byte, b: seq<byte>, single: bool)
    ensures id < 5 || 7 < id ==> ReadFields(id, b, single) == ReadFields(id, b, false)
  {
  }

  method DeserializeRawMessage(reader: ByteBufferReader) returns (r: Option<seq<byte>>)
    modifies reader
    ensures var parsed := ReadU32(old(reader.rest));
            if parsed.Malformed? || Wire.MAX_RAW_MESSAGE_SIZE < parsed.value then r.None?
            else Yields(ReadBytes(parsed.rest, parsed.value), r, reader.rest)
  {
    if reader.rest == [] {
      return None;
    }
    var length := reader.ReadUInt32();
    if length.None? || Wire.MAX_RAW_MESSAGE_SIZE < length.value {
      return None;
    }
    r := reader.ReadString(length.value);
  }
}
