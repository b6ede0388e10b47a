// The JSON parser undoes the printer: what is printed is one of the texts of the grammar, and stands for the value
// printed, so that it is read back exactly when it is nested no deeper than the parser goes.
module JsonRoundTrip {
  import opened Prelude
  import opened Bytes
  import opened ByteOrder
  import opened Decimal
  import opened Json
  import opened JsonStrings
  import opened JsonGrammar

  // --- Strings

  /** How the printer spells a byte by itself. */
  function CharOf(c: byte): Char {
    var e := Escaped(c);
    if |e| == 1 then Char.Plain(c) else if |e| == 2 then Short(c, e[1]) else Point(e[2..])
  }

  function CharsOf(s: seq<byte>): seq<Char> {
    if s == [] then []
    else if LineSeparator(s) then [Point(EscapedSeparator(s[2])[2..])] + CharsOf(s[3..])
    else [CharOf(s[0])] + CharsOf(s[1..])
  }

  /** The character stands for these bytes, whatever comes next. */
  ghost predicate StandsAlone(ch: Char, spelling: seq<byte>, bytes: seq<byte>) {
    && Allowed(ch) && Spelled(ch) == spelling
    && match ch
       case Plain(c) => bytes == [c]
       case Short(c, _) => bytes == [c]
       case Point(digits) => !IsLead(CodePoint(digits)) && bytes == Utf8(CodePoint(digits))
  }

  lemma CharStandsAlone(c: byte)
    ensures StandsAlone(CharOf(c), Escaped(c), [c])
  {
    if |Escaped(c)| == 6 {
      var digits := Escaped(c)[2..];
      assert digits == [ZERO, ZERO, HexDigit(c / 16), HexDigit(c % 16)];
      assert CodePoint(digits) == c / 16 * 16 + c % 16 == c;
    }
  }

  lemma SeparatorStandsAlone(s: seq<byte>)
    requires LineSeparator(s)
    ensures |EscapedSeparator(s[2])| == 6
    ensures StandsAlone(Point(EscapedSeparator(s[2])[2..]), EscapedSeparator(s[2]), s[..3])
  {
    var digits := EscapedSeparator(s[2])[2..];
    assert digits == [50, ZERO, 50, if s[2] == 0xa8 then 56 else 57];
    assert CodePoint(digits) == if s[2] == 0xa8 then 0x2028 else 0x2029;
    assert Utf8(0x2028) == [0xe2, 0x80, 0xa8] && Utf8(0x2029) == [0xe2, 0x80, 0xa9];
    assert s[..3] == [s[0], s[1], s[2]];
    assert EscapedSeparator(s[2]) == [BACKSLASH, LETTER_U] + digits;
  }

  lemma {:induction false} InFront(ch: Char, spelling: seq<byte>, bytes: seq<byte>, chars: seq<Char>)
    requires StandsAlone(ch, spelling, bytes) && AllAllowed(chars)
    ensures var all := [ch] + chars;
            AllAllowed(all) && AllSpelled(all) == spelling + AllSpelled(chars) && Meaning(all) == bytes + Meaning(chars)
  {
    hide Utf8, CodePoint;
    assert ([ch] + chars)[1..] == chars;
  }

  lemma {:induction false} CharsStandFor(s: seq<byte>)
    ensures AllAllowed(CharsOf(s)) && AllSpelled(CharsOf(s)) == DumpChars(s) && Meaning(CharsOf(s)) == s
    decreases |s|
  {
    hide StandsAlone, EscapedSeparator, Escaped, CharOf, Meaning, AllSpelled, AllAllowed;
    if s == [] {
      NoChars();
    } else if LineSeparator(s) {
      SeparatorStandsAlone(s);
      CharsStandFor(s[3..]);
      InFront(Point(EscapedSeparator(s[2])[2..]), EscapedSeparator(s[2]), s[..3], CharsOf(s[3..]));
      assert s[..3] + s[3..] == s;
    } else {
      hide LineSeparator;
      CharStandsAlone(s[0]);
      CharsStandFor(s[1..]);
      InFront(CharOf(s[0]), Escaped(s[0]), [s[0]], CharsOf(s[1..]));
      assert [s[0]] + s[1..] == s;
    }
  }

  lemma NoChars()
    ensures AllAllowed([]) && AllSpelled([]) == [] && Meaning([]) == []
  {
  }

  /** A string of any bytes is read back as it was. */
  lemma StringRoundTrip(s: seq<byte>, rest: seq<byte>)
    ensures DumpString(s) != [] && DumpString(s)[0] == QUOTE
    ensures ParseString((DumpString(s) + rest)[1..], -1, []) == Parsed(s, rest)
  {
    hide ParseString, DumpChars, Meaning, AllSpelled;
    CharsStandFor(s);
    StringIsRead(CharsOf(s), rest);
    KeyText(CharsOf(s), rest);
  }

  // --- What is never printed

  /** U+2028 or U+2029 as it is, which JavaScript takes for the end of a line. */
  ghost predicate SeparatorAt(b: seq<byte>, k: nat) {
    k + 3 <= |b| && (b[k..k + 3] == [0xe2, 0x80, 0xa8] || b[k..k + 3] == [0xe2, 0x80, 0xa9])
  }

  lemma {:induction false} HighIsAsItIs(s: seq<byte>)
    requires DumpChars(s) != [] && DumpChars(s)[0] >= 0x80
    ensures s != [] && !LineSeparator(s) && DumpChars(s) == [s[0]] + DumpChars(s[1..])
  {
  }

  lemma {:induction false} ThreeAsTheyAre(s: seq<byte>)
    requires |DumpChars(s)| >= 3 && forall i | 0 <= i < 3 :: DumpChars(s)[i] >= 0x80
    ensures |s| >= 3 && s[..3] == DumpChars(s)[..3] && !LineSeparator(s)
  {
    var rest := DumpChars(s[1..]);
    HighIsAsItIs(s);
    assert rest[0] == DumpChars(s)[1] && rest[1] == DumpChars(s)[2];
    HighIsAsItIs(s[1..]);
    HighIsAsItIs(s[1..][1..]);
  }

  lemma {:induction false} NoneInFront(s: seq<byte>)
    ensures !SeparatorAt(DumpChars(s), 0)
  {
    var b := DumpChars(s);
    if |b| >= 3 && forall i | 0 <= i < 3 :: b[i] >= 0x80 {
      ThreeAsTheyAre(s);
      assert b[0..3] == s[..3] == [s[0], s[1], s[2]];
    } else if |b| >= 3 {
      var i :| 0 <= i < 3 && b[i] < 0x80;
      assert b[0..3][i] < 0x80;
    }
  }

  lemma EscapesAreAscii(c: byte, k: nat)
    requires k < |Escaped(c)|
    ensures Escaped(c)[k] >= 0x20 && (Escaped(c)[k] < 0x80 || |Escaped(c)| == 1)
  {
  }

  lemma BehindFront(front: seq<byte>, tail: seq<byte>, k: nat)
    requires k > 0 && SeparatorAt(front + tail, k)
    requires forall i | 0 <= i < |front| :: front[i] < 0x80 || |front| == 1
    ensures k >= |front| && SeparatorAt(tail, k - |front|)
  {
    var b := front + tail;
    assert b[k] == b[k..k + 3][0];
    assert b[k..k + 3] == tail[k - |front|..k - |front| + 3];
  }

  /** What is printed for a string holds neither control characters nor line separators. */
  lemma {:induction false} PrintedIsSafe(s: seq<byte>, k: nat)
    ensures !SeparatorAt(DumpChars(s), k)
    ensures k < |DumpChars(s)| ==> DumpChars(s)[k] >= 0x20
    decreases |s|
  {
    if s != [] {
      hide Escaped;
      var front := if LineSeparator(s) then EscapedSeparator(s[2]) else Escaped(s[0]);
      var rest := if LineSeparator(s) then s[3..] else s[1..];
      assert DumpChars(s) == front + DumpChars(rest);
      forall i | 0 <= i < |front|
        ensures front[i] >= 0x20 && (front[i] < 0x80 || |front| == 1)
      {
        if !LineSeparator(s) {
          EscapesAreAscii(s[0], i);
        }
      }
      if k >= |front| {
        PrintedIsSafe(rest, k - |front|);
      }
      if k == 0 {
        NoneInFront(s);
      } else if SeparatorAt(DumpChars(s), k) {
        BehindFront(front, DumpChars(rest), k);
      }
    }
  }

  // --- Numbers

  function IntText(n: int): NumberText {
    NumberText(n < 0, Numeral(if n < 0 then -n else n), None, None)
  }

  lemma IntTextStandsFor(n: int)
    ensures IsNumber(IntText(n)) && TextOfNumber(IntText(n)) == DumpInt(n) && NumberMeaning(IntText(n)) == Number(n)
  {
    hide Numeral, Value;
    ValueOfNumeral(if n < 0 then -n else n);
    var digits := IntText(n).digits;
    assert SignText(n < 0) + digits + [] + [] == SignText(n < 0) + digits;
    assert [] + digits == digits;
  }

  lemma NumberRoundTrip(n: int, rest: seq<byte>)
    requires Ends(rest)
    ensures ParseNumber(DumpInt(n) + rest) == Parsed(Number(n), rest)
  {
    hide ParseNumber, TextOfNumber, NumberMeaning, DumpInt;
    IntTextStandsFor(n);
    NumberIsRead(IntText(n), rest);
  }

  // --- Values

  function MaxDepth(items: seq<Json>): nat
    decreases items
  {
    if items == [] then 0
    else
      var first, rest := Depth(items[0]), MaxDepth(items[1..]);
      if first < rest then rest else first
  }

  function MaxMemberDepth(members: seq<Member>): nat
    decreases members
  {
    if members == [] then 0
    else
      var first, rest := Depth(members[0].value), MaxMemberDepth(members[1..]);
      if first < rest then rest else first
  }

  /** How deep a value is nested: an empty array or object is not deeper than a scalar. */
  function Depth(v: Json): nat
    decreases v
  {
    match v
    case Array(items) => if items == [] then 0 else 1 + MaxDepth(items)
    case Object(members) => if members == [] then 0 else 1 + MaxMemberDepth(members)
    case _ => 0
  }

  /** Values without fractions and exponents, the members of objects in the order of a std::map. */
  ghost predicate Plain(v: Json)
    decreases v
  {
    match v
    case Real(_) => false
    case Array(items) => forall i | 0 <= i < |items| :: Plain(items[i])
    case Object(members) => SortedMembers(members) && forall i | 0 <= i < |members| :: Plain(members[i].value)
    case _ => true
  }

  /** The text that is printed for a value; a Real is left aside. */
  function TextOf(v: Json): Text
    decreases v
  {
    match v
    case Null => NullText
    case Bool(truth) => BoolText(truth)
    case Number(n) => NumberOf(IntText(n))
    case Real(_) => NullText
    case String(s) => StringOf(CharsOf(s))
    case Array(items) => ArrayOf([], ItemsOf(items, []))
    case Object(members) => ObjectOf([], EntriesOf(members, []))
  }

  /** Blanks stand in front of all items but the first. */
  function ItemsOf(items: seq<Json>, before: seq<byte>): seq<Item>
    decreases items
  {
    if items == [] then [] else [Item(before, TextOf(items[0]), [])] + ItemsOf(items[1..], [SPACE])
  }

  function EntriesOf(members: seq<Member>, before: seq<byte>): seq<Entry>
    decreases members
  {
    if members == [] then []
    else
      [Entry(before, CharsOf(members[0].key), [], Item([SPACE], TextOf(members[0].value), []))]
      + EntriesOf(members[1..], [SPACE])
  }

  /** What is printed is a text of the grammar that stands for the value. */
  lemma {:induction false} PrintedIsText(v: Json)
    requires Plain(v)
    ensures var t := TextOf(v); IsText(t) && Written(t) == Dump(v) && ValueOf(t) == v && Nesting(t) == Depth(v)
    decreases v
  {
    hide Dump, ItemsOf, EntriesOf, Written, ValueOf, Nesting, IsText;
    if v.Array? {
      ItemsPrinted(v.items, []);
      ArrayTextIs([], ItemsOf(v.items, []));
      ArrayPrints(v.items);
    } else if v.Object? {
      assert [] + v.members == v.members;
      EntriesPrinted(v.members, [], []);
      ObjectTextIs([], EntriesOf(v.members, []));
      ObjectPrints(v.members);
    } else {
      ScalarPrinted(v);
    }
  }

  lemma {:induction false} ScalarPrinted(v: Json)
    requires Plain(v) && !v.Array? && !v.Object?
    ensures var t := TextOf(v); IsText(t) && Written(t) == Dump(v) && ValueOf(t) == v && Nesting(t) == Depth(v)
  {
    hide CharsOf, TextOfNumber, NumberMeaning, IsNumber, DumpInt, DumpChars, Meaning, AllSpelled, IntText;
    if v.Number? {
      IntTextStandsFor(v.number);
    } else if v.String? {
      CharsStandFor(v.chars);
    }
  }

  lemma {:induction false} ArrayPrints(items: seq<Json>)
    ensures Dump(Array(items)) == [OPEN_ARRAY] + (DumpItems(items) + [CLOSE_ARRAY])
    ensures DumpItems([]) == [] && [] + DumpItems(items) == DumpItems(items)
  {
    Regroup([OPEN_ARRAY], DumpItems(items), [CLOSE_ARRAY]);
  }

  lemma {:induction false} ObjectPrints(members: seq<Member>)
    ensures Dump(Object(members)) == [OPEN_OBJECT] + (DumpMembers(members) + [CLOSE_OBJECT])
    ensures DumpMembers([]) == [] && [] + DumpMembers(members) == DumpMembers(members)
  {
    Regroup([OPEN_OBJECT], DumpMembers(members), [CLOSE_OBJECT]);
  }

  lemma {:induction false} ItemsPrinted(items: seq<Json>, before: seq<byte>)
    requires Spaces(before) && forall i | 0 <= i < |items| :: Plain(items[i])
    ensures var r := ItemsOf(items, before);
            && AllItems(r) && ValuesOf(r) == items && ItemsNesting(r) == MaxDepth(items)
            && (r == [] <==> items == [])
            && WrittenItems(r) == if items == [] then [] else before + DumpItems(items)
    decreases items
  {
    hide TextOf, Dump, Depth, Nesting, Written, ValueOf, IsText, Plain;
    if items != [] {
      var first, more := Item(before, TextOf(items[0]), []), ItemsOf(items[1..], [SPACE]);
      PrintedIsText(items[0]);
      ItemsPrinted(items[1..], [SPACE]);
      ItemInFront(first, more);
      if |items| > 1 {
        Separated(before, Dump(items[0]), DumpItems(items[1..]));
      } else {
        assert items[1..] == [];
        assert Dump(items[0]) + [] + [] == Dump(items[0]);
        assert before + Dump(items[0]) + [] + [] == before + Dump(items[0]);
      }
    }
  }

  lemma Separated(before: seq<byte>, first: seq<byte>, more: seq<byte>)
    ensures before + first + [] + ([COMMA] + ([SPACE] + more)) == before + (first + [COMMA, SPACE] + more)
  {
  }

  lemma {:induction false} GreatestAppended(members: seq<Member>, key: seq<byte>, value: Json)
    requires forall i | 0 <= i < |members| :: Less(members[i].key, key)
    ensures Assign(members, key, value) == members + [Member(key, value)]
  {
    if members != [] {
      LessIsAsymmetric(members[0].key, key);
      GreatestAppended(members[1..], key, value);
      assert members + [Member(key, value)] == [members[0]] + (members[1..] + [Member(key, value)]);
    }
  }

  lemma {:induction false} NextAppended(done: seq<Member>, members: seq<Member>)
    requires members != [] && SortedMembers(done + members)
    ensures Assign(done, members[0].key, members[0].value) == done + [members[0]]
    ensures done + [members[0]] + members[1..] == done + members
  {
    hide Less;
    var all := done + members;
    assert all[|done|] == members[0];
    assert forall i | 0 <= i < |done| :: all[i] == done[i];
    GreatestAppended(done, members[0].key, members[0].value);
  }

  lemma EntryPrinted(m: Member, before: seq<byte>)
    requires Spaces(before) && Plain(m.value)
    ensures var e := Entry(before, CharsOf(m.key), [], Item([SPACE], TextOf(m.value), []));
            && IsEntry(e) && Meaning(e.key) == m.key && ValueOf(e.item.value) == m.value
            && Nesting(e.item.value) == Depth(m.value)
            && WrittenEntry(e) == before + (DumpString(m.key) + [COLON, SPACE] + Dump(m.value))
    decreases m
  {
    hide TextOf, Dump, Depth, Nesting, Written, ValueOf, IsText, Plain, CharsOf, DumpChars, Meaning, AllSpelled;
    PrintedIsText(m.value);
    CharsStandFor(m.key);
    var e := Entry(before, CharsOf(m.key), [], Item([SPACE], TextOf(m.value), []));
    Joined(before, DumpString(m.key), Dump(m.value));
  }

  lemma Joined(before: seq<byte>, key: seq<byte>, value: seq<byte>)
    ensures before + key + [] + [COLON] + ([SPACE] + value + []) == before + (key + [COLON, SPACE] + value)
  {
  }

  lemma {:induction false} EntriesPrinted(members: seq<Member>, before: seq<byte>, done: seq<Member>)
    requires Spaces(before) && SortedMembers(done + members)
    requires forall i | 0 <= i < |members| :: Plain(members[i].value)
    ensures var r := EntriesOf(members, before);
            && AllEntries(r) && Assigned(done, r) == done + members && EntriesNesting(r) == MaxMemberDepth(members)
            && (r == [] <==> members == [])
            && WrittenEntries(r) == if members == [] then [] else before + DumpMembers(members)
    decreases members
  {
    hide TextOf, Dump, Depth, Nesting, ValueOf, IsText, Plain, Assign, Meaning, CharsOf, DumpString, WrittenEntry;
    hide SortedMembers;
    if members == [] {
      assert done + [] == done;
    } else {
      var m, rest := members[0], members[1..];
      var first := Entry(before, CharsOf(m.key), [], Item([SPACE], TextOf(m.value), []));
      var more := EntriesOf(rest, [SPACE]);
      EntryPrinted(m, before);
      NextAppended(done, members);
      EntriesPrinted(rest, [SPACE], done + [m]);
      EntryInFront(first, more, done);
      var text := DumpString(m.key) + [COLON, SPACE] + Dump(m.value);
      if |members| > 1 {
        MembersSeparated(before, text, DumpMembers(rest));
      } else {
        assert rest == [];
        assert text + [] + [] == text && before + text + [] == before + text;
      }
    }
  }

  lemma MembersSeparated(before: seq<byte>, first: seq<byte>, more: seq<byte>)
    ensures before + first + ([COMMA] + ([SPACE] + more)) == before + (first + [COMMA, SPACE] + more)
  {
  }

  // --- Main results

  /** Wherever the printed text of a value stands, it is read as that value, or refused when it is nested too deep
      there. */
  lemma {:induction false} ValueParses(v: Json, depth: nat, rest: seq<byte>)
    requires Plain(v) && Ends(rest)
    ensures ParseValue(Dump(v) + rest, depth) == if depth + Depth(v) <= MAX_DEPTH then Parsed(v, rest) else Malformed
  {
    hide ParseValue, Dump, Plain, Depth, IsText, TextOf, Written, ValueOf, Nesting;
    PrintedIsText(v);
    TextIsRead(TextOf(v), depth, rest);
  }

  /** Parsing what was printed gives the value back exactly when it is nested no deeper than 200. */
  lemma {:induction false} RoundTripIff(v: Json)
    requires Plain(v)
    ensures Parse(Dump(v)) == Parsed(v, []) <==> Depth(v) <= MAX_DEPTH
    ensures Depth(v) > MAX_DEPTH ==> Parse(Dump(v)).Malformed?
  {
    hide ParseValue, Dump, Plain, Depth;
    ValueParses(v, 0, []);
    assert Dump(v) + [] == Dump(v);
  }
}
