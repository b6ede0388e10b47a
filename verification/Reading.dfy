// What is read from any bytes at all: exactly when a packet is taken without an error, how far it is taken when it is
// not, and what strings and small messages are read from.
module Reading {
  import opened Bytes
  import opened Wire
  import opened Messages

  // --- Numbers and strings

  /** Four bytes as a number, of which the first weighs most. */
  function BigEndian(b: seq<byte>): int
    requires |b| >= 4
  {
    b[0] as int * 0x100_0000 + b[1] as int * 0x1_0000 + b[2] as int * 0x100 + b[3] as int
  }

  lemma NetworkOrder(n: uint32)
    ensures BigEndian(U32(n)) == n
  {
    assert n / 256 == (n / 0x1_0000) * 256 + n / 256 % 256;
    assert n / 0x1_0000 == (n / 0x100_0000) * 256 + n / 0x1_0000 % 256;
  }

  lemma SameNumber(a: seq<byte>, b: seq<byte>)
    requires |a| == 4 && |b| == 4 && BigEndian(a) == BigEndian(b)
    ensures a == b
  {
    assert a[0] == b[0];
    assert a[1] == b[1];
  }

  lemma WritesBackU32(b: seq<byte>)
    requires |b| >= 4
    ensures U32(ReadU32(b).value) == b[..4]
  {
    var n := ReadU32(b).value;
    NetworkOrder(n);
    assert n == BigEndian(b[..4]);
    SameNumber(U32(n), b[..4]);
  }

  /** A string is read exactly from its length, below 65536, and its bytes. */
  lemma StringIff(b: seq<byte>, s: seq<byte>, rest: seq<byte>)
    ensures ReadString(b) == Parsed(s, rest) <==> |s| < 65536 && b == U32(|s|) + (s + rest)
  {
    if ReadString(b) == Parsed(s, rest) {
      WritesBackU32(b);
      hide U32, ReadU32;
      assert b == b[..4] + (b[4..][..|s|] + b[4..][|s|..]) by {
        StringSplits(b, s, rest);
      }
      StringSplits(b, s, rest);
    }
    if |s| < 65536 && b == U32(|s|) + (s + rest) {
      ReadsBackU32(|s|, s + rest);
      ReadsBackBytes(s, rest);
    }
  }

  lemma StringSplits(b: seq<byte>, s: seq<byte>, rest: seq<byte>)
    requires ReadString(b) == Parsed(s, rest)
    ensures |b| >= 4 + |s| && ReadU32(b) == Parsed(|s|, b[4..])
    ensures s == b[4..][..|s|] && rest == b[4..][|s|..] && |s| < 65536
    ensures b == b[..4] + (b[4..][..|s|] + b[4..][|s|..])
  {
    assert b[4..] == b[4..][..|s|] + b[4..][|s|..];
  }

  // --- Small messages

  /** The id of a message is its first byte. */
  lemma FirstByte(m: Message, single: bool)
    ensures MessageBytes(m, single)[0] ==
            (if m.CandidatesList? then 1 else if m.VideoFormats? then 2 else if m.RequestVideo? then 3
             else if m.RemoteMediaState? then 4 else if m.AudioData? then 5 else if m.VideoData? then 6
             else if m.UnstructuredData? then 7 else if m.VideoParameters? then 8
             else if m.RemoteBatteryLevelIsLow? then 9 else 10)
  {
  }

  /** Only sound and picture data need no acknowledgement; their ids are 5 and 6. */
  lemma RequiresAckIff(m: Message, single: bool)
    ensures Messages.RequiresAck(m) <==> MessageBytes(m, single)[0] != 5 && MessageBytes(m, single)[0] != 6
  {
  }

  /** Of the media state the lowest bit tells about sound, the next two about the picture; these must not be 3, and
      what is above them is ignored. */
  lemma MediaStateIsRead(state: byte, rest: seq<byte>)
    ensures var r := ReadMessage([4, state] + rest, false);
            && (r.Malformed? <==> state % 8 == 6 || state % 8 == 7)
            && (r.Parsed? ==>
                  && r.rest == rest && r.value.RemoteMediaState?
                  && (r.value.audio.Active? <==> state % 2 == 1)
                  && (r.value.video == match state % 8 / 2 case 0 => Inactive case 1 => Paused case _ => Playing))
  {
    var b := [4, state] + rest;
    assert b[1..][0] == state && b[1..][1..] == rest;
    assert state / 2 % 4 == state % 8 / 2;
  }

  /** A second byte of the network status may be missing, and then no low data use is requested. */
  lemma NetworkStatusIsRead(first: byte, rest: seq<byte>)
    ensures ReadMessage([10, first] + rest, false)
         == if rest == [] then Parsed(RemoteNetworkStatus(first != 0, false), [])
            else Parsed(RemoteNetworkStatus(first != 0, rest[0] != 0), rest[1..])
  {
    var b := [10, first] + rest;
    assert b[1..][0] == first && b[1..][1..] == rest;
  }

  // --- Packets

  /** At the front of s stands this item, and then the rest. */
  ghost predicate ItemAt(form: Form, s: seq<byte>, item: Item, rest: seq<byte>) {
    && |s| >= 5 && s[..4] == U32(item.seqNum)
    && match item
       case Empty(_) => s[4] == EMPTY_ID && rest == s[5..]
       case Ack(_) => s[4] == ACK_ID && rest == s[5..]
       case Msg(seqNum, payload) =>
         && s[4] != EMPTY_ID && s[4] != ACK_ID
         && ReadPayload(form, s[4..], IsSingle(seqNum)) == Parsed(payload, rest)
  }

  /** Where an item may stand: acknowledgements not first; empty ones and the single form only there. */
  predicate MayStand(item: Item, first: bool) {
    if first then !item.Ack? else !item.Empty? && !IsSingle(item.seqNum)
  }

  /** The items stand one behind the other; tails are what is left in front of each and at the end. */
  ghost predicate Splits(form: Form, first: bool, items: seq<Item>, tails: seq<seq<byte>>) {
    && |tails| == |items| + 1
    && (forall i | 0 <= i < |items| :: ItemAt(form, tails[i], items[i], tails[i + 1]))
    && (forall i | 0 <= i < |items| :: MayStand(items[i], first && i == 0))
    && (forall i | 0 <= i < |items| - 1 :: !IsSingle(items[i].seqNum))
  }

  /** Something is left that is no item that may stand there. */
  ghost predicate Stuck(form: Form, first: bool, items: seq<Item>, left: seq<byte>) {
    || (items != [] && left != [] && (IsSingle(items[|items| - 1].seqNum) || |left| < 5))
    || (|left| >= 5 && forall item, rest :: ItemAt(form, left, item, rest) ==> !MayStand(item, first && items == []))
  }

  /** How a parse of s ends. */
  ghost predicate ParsedInto(form: Form, first: bool, s: seq<byte>, tails: seq<seq<byte>>, r: Parse) {
    && Splits(form, first, r.items, tails) && tails[0] == s
    && var left := tails[|r.items|];
       if r.ok then r.items != [] && left == [] else Stuck(form, first, r.items, left)
  }

  lemma OneItemAt(form: Form, s: seq<byte>, item: Item, rest: seq<byte>)
    requires ItemAt(form, s, item, rest)
    ensures item.seqNum == ReadU32(s).value
  {
    hide U32, ReadU32;
    assert s == U32(item.seqNum) + s[4..];
    ReadsBackU32(item.seqNum, s[4..]);
  }

  lemma SeqIsWritten(s: seq<byte>)
    requires |s| >= 5
    ensures s[..4] == U32(ReadU32(s).value)
  {
    WritesBackU32(s);
  }

  /** One item, if what stands at the front is one that may stand there. */
  lemma FirstItem(form: Form, s: seq<byte>, first: bool) returns (item: Item, rest: seq<byte>)
    requires |s| >= 5
    ensures var r := ParseFrom(form, ReadU32(s).value, s[4..], !first);
            || (r == Parse([], false) && forall i, t :: ItemAt(form, s, i, t) ==> !MayStand(i, first))
            || (r == ParseAfter(form, item, rest) && |rest| < |s| && ItemAt(form, s, item, rest) && MayStand(item, first))
  {
    hide ParseAfter, ReadPayload, U32, IsSingle;
    SeqIsWritten(s);
    forall i, t | ItemAt(form, s, i, t)
      ensures i.seqNum == ReadU32(s).value
    {
      OneItemAt(form, s, i, t);
    }
    var seqNum, body := ReadU32(s).value, s[4..];
    assert body[1..] == s[5..];
    if body[0] == EMPTY_ID {
      item, rest := Empty(seqNum), s[5..];
    } else if body[0] == ACK_ID {
      item, rest := Ack(seqNum), s[5..];
    } else {
      match ReadPayload(form, body, IsSingle(seqNum))
      case Malformed =>
        item, rest := Empty(seqNum), [];
      case Parsed(payload, tail) =>
        item, rest := Msg(seqNum, payload), tail;
    }
  }

  /** The parse loop from any item on. */
  lemma {:induction false} ParsesExactlyFrom(form: Form, s: seq<byte>, first: bool) returns (tails: seq<seq<byte>>)
    requires |s| >= 5
    ensures ParsedInto(form, first, s, tails, ParseFrom(form, ReadU32(s).value, s[4..], !first))
    decreases |s|
  {
    hide ItemAt, MayStand, ParseFrom, IsSingle;
    var item, rest := FirstItem(form, s, first);
    var r := ParseFrom(form, ReadU32(s).value, s[4..], !first);
    if r == Parse([], false) && forall i, t :: ItemAt(form, s, i, t) ==> !MayStand(i, first) {
      tails := [s];
    } else if rest == [] || IsSingle(item.seqNum) || |rest| < 5 {
      tails := [s, rest];
    } else {
      var more := ParsesExactlyFrom(form, rest, false);
      tails := [s] + more;
      GoesOn(form, first, s, item, rest, more, ParseFrom(form, ReadU32(rest).value, rest[4..], true));
    }
  }

  lemma GoesOn(
      form: Form, first: bool, s: seq<byte>, item: Item, rest: seq<byte>, more: seq<seq<byte>>, next: Parse)
    requires ItemAt(form, s, item, rest) && MayStand(item, first) && !IsSingle(item.seqNum)
    requires ParsedInto(form, false, rest, more, next)
    ensures ParsedInto(form, first, s, [s] + more, Parse([item] + next.items, next.ok))
  {
    hide ItemAt, MayStand, IsSingle;
    var items, tails := [item] + next.items, [s] + more;
    forall i | 0 <= i < |items|
      ensures ItemAt(form, tails[i], items[i], tails[i + 1]) && MayStand(items[i], first && i == 0)
      ensures i < |items| - 1 ==> !IsSingle(items[i].seqNum)
    {
      if i > 0 {
        assert items[i] == next.items[i - 1] && tails[i] == more[i - 1] && tails[i + 1] == more[i];
      }
    }
    assert tails[|items|] == more[|next.items|];
    assert next.items != [] ==> items[|items| - 1] == next.items[|next.items| - 1];
  }

  /** Any bytes are taken item by item as far as items stand there that may; without an error exactly when that is to
      the end. */
  lemma ParsesExactly(form: Form, b: seq<byte>) returns (tails: seq<seq<byte>>)
    requires |b| >= 5
    ensures ParsedInto(form, true, b, tails, ParsePacket(form, b))
  {
    hide ParseFrom, ParsedInto;
    tails := ParsesExactlyFrom(form, b, true);
  }

  lemma ItemIsOne(form: Form, s: seq<byte>, a: Item, restA: seq<byte>, b: Item, restB: seq<byte>)
    requires ItemAt(form, s, a, restA) && ItemAt(form, s, b, restB)
    ensures a == b && restA == restB
  {
    OneItemAt(form, s, a, restA);
    OneItemAt(form, s, b, restB);
  }

  lemma SplitTail(form: Form, first: bool, items: seq<Item>, tails: seq<seq<byte>>)
    requires Splits(form, first, items, tails) && |items| > 1
    ensures Splits(form, false, items[1..], tails[1..]) && !IsSingle(items[0].seqNum) && |tails[1]| >= 5
    ensures tails[1..][|items[1..]|] == tails[|items|]
  {
    hide ReadPayload, U32, IsSingle, MayStand;
    assert ItemAt(form, tails[1], items[1], tails[2]);
    forall i | 0 <= i < |items| - 1
      ensures ItemAt(form, tails[1..][i], items[1..][i], tails[1..][i + 1]) && MayStand(items[1..][i], false)
      ensures i < |items| - 2 ==> !IsSingle(items[1..][i].seqNum)
    {
      assert ItemAt(form, tails[i + 1], items[i + 1], tails[i + 2]) && MayStand(items[i + 1], first && i + 1 == 0);
    }
  }

  lemma {:induction false} FirstOfSplit(form: Form, first: bool, items: seq<Item>, tails: seq<seq<byte>>)
    requires Splits(form, first, items, tails) && items != []
    ensures var s := tails[0];
            |s| >= 5 && ParseFrom(form, ReadU32(s).value, s[4..], !first) == ParseAfter(form, items[0], tails[1])
  {
    var s := tails[0];
    assert ItemAt(form, s, items[0], tails[1]) && MayStand(items[0], first);
    assert |s| >= 5;
    hide ItemAt, MayStand, ParseFrom, ParseAfter, IsSingle;
    var item, rest := FirstItem(form, s, first);
    if ItemAt(form, s, item, rest) {
      ItemIsOne(form, s, item, rest, items[0], tails[1]);
    }
  }

  lemma {:induction false} AfterItem(form: Form, item: Item, rest: seq<byte>)
    ensures rest == [] ==> ParseAfter(form, item, rest) == Parse([item], true)
    ensures |rest| >= 5 && !IsSingle(item.seqNum) ==>
              var next := ParseFrom(form, ReadU32(rest).value, rest[4..], true);
              ParseAfter(form, item, rest) == Parse([item] + next.items, next.ok)
  {
    hide ParseFrom;
  }

  lemma {:induction false} SplitIsParsed(form: Form, first: bool, items: seq<Item>, tails: seq<seq<byte>>)
    requires Splits(form, first, items, tails) && items != [] && tails[|items|] == []
    ensures |tails[0]| >= 5
    ensures ParseFrom(form, ReadU32(tails[0]).value, tails[0][4..], !first) == Parse(items, true)
    decreases |items|
  {
    hide ParseFrom, ParseAfter, ItemAt, MayStand, IsSingle;
    FirstOfSplit(form, first, items, tails);
    AfterItem(form, items[0], tails[1]);
    if |items| > 1 {
      SplitTail(form, first, items, tails);
      SplitIsParsed(form, false, items[1..], tails[1..]);
      assert [items[0]] + items[1..] == items;
    }
  }

  /** A packet is parsed without an error, into these items, exactly if it splits into them and nothing is left. */
  lemma ParsesIff(form: Form, b: seq<byte>, items: seq<Item>)
    requires |b| >= 5
    ensures ParsePacket(form, b) == Parse(items, true)
       <==> exists tails :: Splits(form, true, items, tails) && tails[0] == b && items != [] && tails[|items|] == []
  {
    hide ParseFrom, ItemAt, MayStand, IsSingle;
    if ParsePacket(form, b) == Parse(items, true) {
      var tails := ParsesExactly(form, b);
    }
    if tails :| Splits(form, true, items, tails) && tails[0] == b && items != [] && tails[|items|] == [] {
      SplitIsParsed(form, true, items, tails);
    }
  }

  /** Raw data is read exactly from its id, its length, at most 1 MB, and its bytes. */
  lemma RawIff(b: seq<byte>, single: bool, data: seq<byte>, rest: seq<byte>)
    ensures ReadPayload(RawForm, b, single) == Parsed(Raw(data), rest)
       <==> |data| <= 1048576 && b == [127] + (U32(|data| % 0x1_0000_0000) + (data + rest))
  {
    hide ReadPayload, U32;
    if ReadPayload(RawForm, b, single) == Parsed(Raw(data), rest) {
      RawIsWritten(b, single, data, rest);
    }
    if |data| <= 1048576 {
      RawIsRead(single, data, rest);
    }
  }

  lemma RawIsRead(single: bool, data: seq<byte>, rest: seq<byte>)
    requires |data| <= 1048576
    ensures ReadPayload(RawForm, [127] + (U32(|data|) + (data + rest)), single) == Parsed(Raw(data), rest)
  {
    hide U32, ReadU32, ReadBytes;
    var b := [127] + (U32(|data|) + (data + rest));
    assert b[1..] == U32(|data|) + (data + rest);
    ReadsBackU32(|data|, data + rest);
    ReadsBackBytes(data, rest);
  }

  lemma RawSplits(b: seq<byte>, single: bool, data: seq<byte>, rest: seq<byte>)
    requires ReadPayload(RawForm, b, single) == Parsed(Raw(data), rest)
    ensures |b| >= 5 && b[0] == 127 && ReadU32(b[1..]).value == |data| <= 1048576
    ensures b == [127] + (b[1..][..4] + (data + rest))
  {
    var t := b[1..][4..];
    assert t == t[..|data|] + t[|data|..];
    assert b[1..] == b[1..][..4] + t;
    assert b == [b[0]] + b[1..];
  }

  lemma RawIsWritten(b: seq<byte>, single: bool, data: seq<byte>, rest: seq<byte>)
    requires ReadPayload(RawForm, b, single) == Parsed(Raw(data), rest)
    ensures |data| <= 1048576 && b == [127] + (U32(|data|) + (data + rest))
  {
    RawSplits(b, single, data, rest);
    WritesBackU32(b[1..]);
    hide ReadPayload, U32;
  }
}
