// What the parser takes for a JSON text (sections 2 to 7 of RFC 8259): exactly what the grammar allows, with any white
// space and any spelling of strings and numbers, nested at most 200 deep, and as the value that it writes.
module JsonGrammar {
  import opened Prelude
  import opened Bytes
  import opened ByteOrder
  import opened Decimal
  import opened Json
  import opened JsonStrings

  /** A JSON text; space is what stands in an array or object without elements. */
  datatype Text =
    | NullText
    | BoolText(truth: bool)
    | NumberOf(number: NumberText)
    | StringOf(chars: seq<Char>)
    | ArrayOf(space: seq<byte>, items: seq<Item>)
    | ObjectOf(space: seq<byte>, entries: seq<Entry>)

  datatype Item = Item(before: seq<byte>, value: Text, after: seq<byte>)

  /** A member: the white space in front of the key and in front of the colon, and the item behind it. */
  datatype Entry = Entry(before: seq<byte>, key: seq<Char>, colon: seq<byte>, item: Item)

  predicate Spaces(s: seq<byte>) {
    forall i | 0 <= i < |s| :: s[i] == 32 || s[i] == 9 || s[i] == 10 || s[i] == 13
  }

  ghost predicate IsText(t: Text)
    decreases t
  {
    match t
    case NumberOf(number) => IsNumber(number)
    case StringOf(chars) => AllAllowed(chars)
    case ArrayOf(space, items) =>
      && Spaces(space)
      && forall i | 0 <= i < |items| :: Spaces(items[i].before) && Spaces(items[i].after) && IsText(items[i].value)
    case ObjectOf(space, entries) =>
      && Spaces(space)
      && forall i | 0 <= i < |entries| ::
           && Spaces(entries[i].before) && Spaces(entries[i].colon) && AllAllowed(entries[i].key)
           && Spaces(entries[i].item.before) && Spaces(entries[i].item.after) && IsText(entries[i].item.value)
    case _ => true
  }

  ghost predicate IsItem(item: Item) {
    Spaces(item.before) && Spaces(item.after) && IsText(item.value)
  }

  ghost predicate IsEntry(entry: Entry) {
    Spaces(entry.before) && Spaces(entry.colon) && AllAllowed(entry.key) && IsItem(entry.item)
  }

  ghost predicate AllItems(items: seq<Item>) {
    forall i | 0 <= i < |items| :: IsItem(items[i])
  }

  ghost predicate AllEntries(entries: seq<Entry>) {
    forall i | 0 <= i < |entries| :: IsEntry(entries[i])
  }

  function Written(t: Text): seq<byte>
    decreases t
  {
    match t
    case NullText => NULL_TEXT
    case BoolText(truth) => if truth then TRUE_TEXT else FALSE_TEXT
    case NumberOf(number) => TextOfNumber(number)
    case StringOf(chars) => WrittenString(chars)
    case ArrayOf(space, items) =>
      [OPEN_ARRAY] + (if items == [] then space else WrittenItems(items)) + [CLOSE_ARRAY]
    case ObjectOf(space, entries) =>
      [OPEN_OBJECT] + (if entries == [] then space else WrittenEntries(entries)) + [CLOSE_OBJECT]
  }

  function WrittenString(chars: seq<Char>): seq<byte> {
    [QUOTE] + AllSpelled(chars) + [QUOTE]
  }

  function WrittenItem(item: Item): seq<byte>
    decreases item
  {
    item.before + Written(item.value) + item.after
  }

  /** Items with commas between them. */
  function WrittenItems(items: seq<Item>): seq<byte>
    decreases items
  {
    if items == [] then []
    else WrittenItem(items[0]) + if |items| == 1 then [] else [COMMA] + WrittenItems(items[1..])
  }

  function WrittenEntry(entry: Entry): seq<byte>
    decreases entry
  {
    entry.before + WrittenString(entry.key) + entry.colon + [COLON] + WrittenItem(entry.item)
  }

  function WrittenEntries(entries: seq<Entry>): seq<byte>
    decreases entries
  {
    if entries == [] then []
    else WrittenEntry(entries[0]) + if |entries| == 1 then [] else [COMMA] + WrittenEntries(entries[1..])
  }

  /** The value that a text writes. */
  function ValueOf(t: Text): Json
    requires IsText(t)
    decreases t
  {
    match t
    case NullText => Null
    case BoolText(truth) => Bool(truth)
    case NumberOf(number) => NumberMeaning(number)
    case StringOf(chars) => String(Meaning(chars))
    case ArrayOf(_, items) => Array(ValuesOf(items))
    case ObjectOf(_, entries) => Object(Assigned([], entries))
  }

  function ValuesOf(items: seq<Item>): seq<Json>
    requires AllItems(items)
    decreases items
  {
    if items == [] then [] else [ValueOf(items[0].value)] + ValuesOf(items[1..])
  }

  /** Member by member; of equal keys the last one counts. */
  function Assigned(done: seq<Member>, entries: seq<Entry>): seq<Member>
    requires AllEntries(entries)
    decreases entries
  {
    if entries == [] then done
    else Assigned(Assign(done, Meaning(entries[0].key), ValueOf(entries[0].item.value)), entries[1..])
  }

  /** How deep a text is nested. */
  function Nesting(t: Text): nat
    decreases t
  {
    match t
    case ArrayOf(_, items) => if items == [] then 0 else 1 + ItemsNesting(items)
    case ObjectOf(_, entries) => if entries == [] then 0 else 1 + EntriesNesting(entries)
    case _ => 0
  }

  function Greater(a: nat, b: nat): nat {
    if a < b then b else a
  }

  function ItemsNesting(items: seq<Item>): nat
    decreases items
  {
    if items == [] then 0 else Greater(Nesting(items[0].value), ItemsNesting(items[1..]))
  }

  function EntriesNesting(entries: seq<Entry>): nat
    decreases entries
  {
    if entries == [] then 0 else Greater(Nesting(entries[0].item.value), EntriesNesting(entries[1..]))
  }

  // --- What an object holds

  ghost predicate SortedMembers(members: seq<Member>) {
    forall i, j | 0 <= i < j < |members| :: Less(members[i].key, members[j].key)
  }

  lemma {:induction false} AssignReplaces(members: seq<Member>, key: seq<byte>, value: Json)
    requires SortedMembers(members)
    ensures var r := Assign(members, key, value);
            && SortedMembers(r)
            && forall m :: m in r <==> m == Member(key, value) || (m in members && m.key != key)
  {
    hide Less;
    if members != [] {
      LessIsIrreflexive(key);
      LessIsTotal(key, members[0].key);
      if !Less(key, members[0].key) && members[0].key != key {
        AssignReplaces(members[1..], key, value);
        var more := Assign(members[1..], key, value);
        assert forall m :: m in more ==> Less(members[0].key, m.key);
      } else if members[0].key == key {
        OthersDiffer(members);
      } else {
        AllAreAbove(members, key);
      }
    }
  }

  lemma OthersDiffer(members: seq<Member>)
    requires members != [] && SortedMembers(members)
    ensures forall m | m in members[1..] :: Less(members[0].key, m.key) && m.key != members[0].key
  {
    hide Less;
    LessIsIrreflexive(members[0].key);
  }

  lemma {:induction false} AllAreAbove(members: seq<Member>, key: seq<byte>)
    requires members != [] && SortedMembers(members) && Less(key, members[0].key)
    ensures forall m | m in members :: Less(key, m.key) && m.key != key
  {
    hide Less;
    LessIsIrreflexive(key);
    forall m | m in members
      ensures Less(key, m.key)
    {
      if m != members[0] {
        LessIsTransitive(key, members[0].key, m.key);
      }
    }
  }

  /** The entry is the last one with its key, and writes the member. */
  ghost predicate WritesLast(entries: seq<Entry>, i: nat, m: Member)
    requires AllEntries(entries)
  {
    && i < |entries| && m == Member(Meaning(entries[i].key), ValueOf(entries[i].item.value))
    && forall j | i < j < |entries| :: Meaning(entries[j].key) != m.key
  }

  ghost predicate KeyWritten(entries: seq<Entry>, key: seq<byte>)
    requires AllEntries(entries)
  {
    exists i | 0 <= i < |entries| :: Meaning(entries[i].key) == key
  }

  /** In the order of the keys, of entries with equal keys the last, and what was there under other keys. */
  lemma {:induction false} ObjectHoldsLast(done: seq<Member>, entries: seq<Entry>)
    requires AllEntries(entries) && SortedMembers(done)
    ensures var r := Assigned(done, entries);
            && SortedMembers(r)
            && forall m :: m in r <==> (exists i: nat :: WritesLast(entries, i, m)) || (m in done && !KeyWritten(entries, m.key))
    decreases |entries|
  {
    hide Meaning, ValueOf, IsText, Assign, Less;
    if entries != [] {
      var key, value := Meaning(entries[0].key), ValueOf(entries[0].item.value);
      AssignReplaces(done, key, value);
      var first := Assign(done, key, value);
      ObjectHoldsLast(first, entries[1..]);
      forall m: Member
        ensures (exists i: nat :: WritesLast(entries, i, m)) || (m in done && !KeyWritten(entries, m.key))
           <==> (exists i: nat :: WritesLast(entries[1..], i, m)) || (m in first && !KeyWritten(entries[1..], m.key))
      {
        OneMoreEntry(done, first, entries, m);
      }
    }
  }

  lemma OneMoreEntry(done: seq<Member>, first: seq<Member>, entries: seq<Entry>, m: Member)
    requires AllEntries(entries) && entries != []
    requires var key, value := Meaning(entries[0].key), ValueOf(entries[0].item.value);
             m in first <==> m == Member(key, value) || (m in done && m.key != key)
    ensures (exists i: nat :: WritesLast(entries, i, m)) || (m in done && !KeyWritten(entries, m.key))
       <==> (exists i: nat :: WritesLast(entries[1..], i, m)) || (m in first && !KeyWritten(entries[1..], m.key))
  {
    hide Meaning, ValueOf, IsText;
    var rest := entries[1..];
    assert forall i | 0 <= i < |rest| :: rest[i] == entries[i + 1];
    KeyWrittenStep(entries, m.key);
    if i: nat :| WritesLast(entries, i, m) {
      if i > 0 {
        assert WritesLast(rest, i - 1, m);
      } else {
        assert !KeyWritten(rest, m.key) by {
          assert forall j | 0 <= j < |rest| :: Meaning(rest[j].key) == Meaning(entries[j + 1].key);
        }
      }
    }
    if i: nat :| WritesLast(rest, i, m) {
      LaterWrites(entries, i, m);
    }
    if m == Member(Meaning(entries[0].key), ValueOf(entries[0].item.value)) && !KeyWritten(rest, m.key) {
      assert forall j | 0 < j < |entries| :: entries[j] == rest[j - 1];
      assert WritesLast(entries, 0, m);
    }
  }

  lemma LaterWrites(entries: seq<Entry>, i: nat, m: Member)
    requires AllEntries(entries) && entries != [] && WritesLast(entries[1..], i, m)
    ensures WritesLast(entries, i + 1, m)
  {
    hide Meaning, ValueOf, IsText;
    assert forall j | 0 < j < |entries| :: entries[j] == entries[1..][j - 1];
  }

  lemma KeyWrittenStep(entries: seq<Entry>, key: seq<byte>)
    requires AllEntries(entries) && entries != []
    ensures KeyWritten(entries, key) <==> Meaning(entries[0].key) == key || KeyWritten(entries[1..], key)
  {
    hide Meaning, IsText;
    var rest := entries[1..];
    assert forall i | 0 <= i < |rest| :: rest[i] == entries[i + 1];
    if i :| 0 <= i < |entries| && Meaning(entries[i].key) == key {
      assert i > 0 ==> Meaning(rest[i - 1].key) == key;
    }
    if i :| 0 <= i < |rest| && Meaning(rest[i].key) == key {
      assert Meaning(entries[i + 1].key) == key;
    }
  }

  // --- White space

  lemma {:induction false} SpacesAreSkipped(space: seq<byte>, tail: seq<byte>)
    requires Spaces(space)
    ensures SkipSpace(space + tail) == SkipSpace(tail)
    decreases |space|
  {
    if space == [] {
      assert space + tail == tail;
    } else {
      assert (space + tail)[1..] == space[1..] + tail;
      SpacesAreSkipped(space[1..], tail);
    }
  }

  lemma {:induction false} SkippedAreSpaces(b: seq<byte>) returns (space: seq<byte>)
    ensures Spaces(space) && b == space + SkipSpace(b)
    ensures SkipSpace(b) == [] || !IsSpace(SkipSpace(b)[0])
    decreases |b|
  {
    space := [];
    if IsSpace(First(b)) {
      var more := SkippedAreSpaces(b[1..]);
      space := [b[0]] + more;
      Regroup([b[0]], more, SkipSpace(b[1..]));
    }
  }

  /** A byte that is no white space, behind white space. */
  lemma {:induction false} SkippedTo(space: seq<byte>, c: byte, tail: seq<byte>)
    requires Spaces(space) && !IsSpace(c)
    ensures SkipSpace(space + ([c] + tail)) == [c] + tail && ([c] + tail)[1..] == tail
    ensures IsSpace(First(space + ([c] + tail))) || First(space + ([c] + tail)) == c
  {
    SpacesAreSkipped(space, [c] + tail);
  }

  lemma {:induction false} SkipTwice(b: seq<byte>)
    ensures SkipSpace(SkipSpace(b)) == SkipSpace(b)
  {
    var space := SkippedAreSpaces(b);
  }

  lemma {:induction false} ValueAfterSpaces(b: seq<byte>, depth: nat)
    ensures ParseValue(SkipSpace(b), depth) == ParseValue(b, depth)
  {
    hide SkipSpace, ParseString, ParseNumber, ParseItems, ParseMembers, Expect;
    SkipTwice(b);
  }

  lemma {:induction false} ItemsAfterSpaces(b: seq<byte>, depth: nat, done: seq<Json>)
    ensures ParseItems(SkipSpace(b), depth, done) == ParseItems(b, depth, done)
  {
    hide SkipSpace, ParseValue;
    ValueAfterSpaces(b, depth + 1);
  }

  // --- All that is written is read

  /** What may follow a value without being taken for a part of it. */
  predicate Ends(rest: seq<byte>) {
    !IsDigit(First(rest)) && InteriorEnds(rest)
  }

  lemma {:induction false} TextStarts(t: Text)
    requires IsText(t)
    ensures Written(t) != [] && !IsSpace(Written(t)[0]) && Written(t)[0] != CLOSE_ARRAY
  {
    if t.NumberOf? {
      NumberStarts(t.number);
    }
  }

  lemma NumberStarts(n: NumberText)
    requires IsNumber(n)
    ensures TextOfNumber(n) != [] && (TextOfNumber(n)[0] == MINUS || 48 <= TextOfNumber(n)[0] <= 57)
  {
    hide FractionText, ExponentText;
    assert TextOfNumber(n)[0] == if n.negative then MINUS else n.digits[0];
  }

  /** What the parser makes of a text at some depth. */
  function ReadAs(v: Json, nesting: nat, depth: nat, rest: seq<byte>): Parsed<Json> {
    if depth + nesting <= MAX_DEPTH then Parsed(v, rest) else Malformed
  }

  lemma {:induction false} ScalarIsRead(t: Text, depth: nat, rest: seq<byte>)
    requires IsText(t) && Ends(rest) && !t.ArrayOf? && !t.ObjectOf? && depth <= MAX_DEPTH
    ensures ParseValue(Written(t) + rest, depth) == Parsed(ValueOf(t), rest)
  {
    hide ParseString, ParseNumber, ParseMembers, ParseItems, AllSpelled, TextOfNumber, Meaning, NumberMeaning, IsNumber;
    var b := Written(t) + rest;
    match t
    case NullText => assert b[4..] == rest;
    case BoolText(truth) => assert b[if truth then 4 else 5..] == rest;
    case NumberOf(number) =>
      NumberStarts(number);
      NumberIsRead(number, rest);
    case StringOf(chars) =>
      StringIsRead(chars, rest);
      assert b == [QUOTE] + (AllSpelled(chars) + ([QUOTE] + rest));
      assert b[1..] == AllSpelled(chars) + ([QUOTE] + rest);
  }

  lemma {:induction false} ArrayOpens(inside: seq<byte>, depth: nat)
    requires depth <= MAX_DEPTH
    ensures var t := SkipSpace(inside);
            ParseValue([OPEN_ARRAY] + inside, depth)
            == if First(t) == CLOSE_ARRAY then Parsed(Array([]), t[1..]) else ParseItems(t, depth, [])
  {
    hide ParseString, ParseNumber, ParseMembers, ParseItems, Expect;
    var b := [OPEN_ARRAY] + inside;
    assert SkipSpace(b) == b && b[1..] == inside;
  }

  lemma {:induction false} ObjectOpens(inside: seq<byte>, depth: nat)
    requires depth <= MAX_DEPTH
    ensures var t := SkipSpace(inside);
            ParseValue([OPEN_OBJECT] + inside, depth)
            == if First(t) == CLOSE_OBJECT then Parsed(Object([]), t[1..]) else ParseMembers(t, depth, [])
  {
    hide ParseString, ParseNumber, ParseMembers, ParseItems, Expect;
    var b := [OPEN_OBJECT] + inside;
    assert SkipSpace(b) == b && b[1..] == inside;
  }

  lemma {:induction false} ArrayTextIs(space: seq<byte>, items: seq<Item>)
    requires Spaces(space) && AllItems(items)
    ensures var t := ArrayOf(space, items);
            && IsText(t) && ValueOf(t) == Array(ValuesOf(items))
            && Written(t) == [OPEN_ARRAY] + ((if items == [] then space else WrittenItems(items)) + [CLOSE_ARRAY])
            && Nesting(t) == if items == [] then 0 else 1 + ItemsNesting(items)
  {
    hide WrittenItems, ValuesOf, ItemsNesting;
    Regroup([OPEN_ARRAY], if items == [] then space else WrittenItems(items), [CLOSE_ARRAY]);
  }

  lemma {:induction false} ObjectTextIs(space: seq<byte>, entries: seq<Entry>)
    requires Spaces(space) && AllEntries(entries)
    ensures var t := ObjectOf(space, entries);
            && IsText(t) && ValueOf(t) == Object(Assigned([], entries))
            && Written(t) == [OPEN_OBJECT] + ((if entries == [] then space else WrittenEntries(entries)) + [CLOSE_OBJECT])
            && Nesting(t) == if entries == [] then 0 else 1 + EntriesNesting(entries)
  {
    hide WrittenEntries, Assigned, EntriesNesting;
    Regroup([OPEN_OBJECT], if entries == [] then space else WrittenEntries(entries), [CLOSE_OBJECT]);
  }

  lemma Brackets(open: byte, inside: seq<byte>, close: byte, rest: seq<byte>)
    ensures [open] + (inside + [close]) + rest == [open] + (inside + ([close] + rest))
  {
  }

  lemma {:induction false} EmptyArrayIsRead(space: seq<byte>, depth: nat, rest: seq<byte>)
    requires Spaces(space) && depth <= MAX_DEPTH
    ensures ParseValue(Written(ArrayOf(space, [])) + rest, depth) == Parsed(Array([]), rest)
  {
    hide ParseValue, SkipSpace, Written;
    ArrayTextIs(space, []);
    ArrayOpens(space + ([CLOSE_ARRAY] + rest), depth);
    SkippedTo(space, CLOSE_ARRAY, rest);
    Brackets(OPEN_ARRAY, space, CLOSE_ARRAY, rest);
  }

  lemma {:induction false} EmptyObjectIsRead(space: seq<byte>, depth: nat, rest: seq<byte>)
    requires Spaces(space) && depth <= MAX_DEPTH
    ensures ParseValue(Written(ObjectOf(space, [])) + rest, depth) == Parsed(Object([]), rest)
  {
    hide ParseValue, SkipSpace, Written;
    ObjectTextIs(space, []);
    ObjectOpens(space + ([CLOSE_OBJECT] + rest), depth);
    SkippedTo(space, CLOSE_OBJECT, rest);
    Brackets(OPEN_OBJECT, space, CLOSE_OBJECT, rest);
  }

  lemma {:induction false} TooDeep(b: seq<byte>, depth: nat)
    requires depth > MAX_DEPTH
    ensures ParseValue(b, depth).Malformed?
  {
  }

  /** The end of a round of the loop over the items. */
  function AfterItem(depth: nat, done: seq<Json>, rest: seq<byte>): Parsed<Json> {
    var b := SkipSpace(rest);
    if First(b) == CLOSE_ARRAY then Parsed(Array(done), b[1..])
    else if First(b) != COMMA then Malformed
    else ParseItems(SkipSpace(b[1..]), depth, done)
  }

  lemma {:induction false} ItemsAreAfter(b: seq<byte>, depth: nat, done: seq<Json>)
    ensures var first := ParseValue(b, depth + 1);
            ParseItems(b, depth, done)
            == if first.Malformed? then Malformed else AfterItem(depth, done + [first.value], first.rest)
  {
    hide ParseValue;
  }

  /** Behind an item: white space, then the end or a comma. */
  lemma {:induction false} AfterItemIs(depth: nat, done: seq<Json>, space: seq<byte>, tail: seq<byte>)
    requires Spaces(space)
    ensures AfterItem(depth, done, space + ([CLOSE_ARRAY] + tail)) == Parsed(Array(done), tail)
    ensures AfterItem(depth, done, space + ([COMMA] + tail)) == ParseItems(tail, depth, done)
    ensures Ends(space + ([CLOSE_ARRAY] + tail)) && Ends(space + ([COMMA] + tail))
  {
    hide ParseItems;
    SkippedTo(space, CLOSE_ARRAY, tail);
    SkippedTo(space, COMMA, tail);
    ItemsAfterSpaces(tail, depth, done);
    hide SkipSpace;
  }

  lemma {:induction false} ArrayIsItems(t: Text, depth: nat, rest: seq<byte>)
    requires IsText(t) && t.ArrayOf? && t.items != [] && depth <= MAX_DEPTH
    ensures ParseValue(Written(t) + rest, depth) == ParseItems(WrittenItems(t.items) + ([CLOSE_ARRAY] + rest), depth, [])
  {
    hide ParseValue, SkipSpace, ParseItems, WrittenItems;
    var inside := WrittenItems(t.items) + ([CLOSE_ARRAY] + rest);
    assert Written(t) + rest == [OPEN_ARRAY] + inside;
    ArrayOpens(inside, depth);
    ItemsStart(t.items, [CLOSE_ARRAY] + rest);
    ItemsAfterSpaces(inside, depth, []);
  }

  lemma {:induction false} ItemsStart(items: seq<Item>, tail: seq<byte>)
    requires items != [] && IsItem(items[0])
    ensures First(SkipSpace(WrittenItems(items) + tail)) != CLOSE_ARRAY
  {
    hide Written;
    var item := items[0];
    TextStarts(item.value);
    var after := item.after + ((if |items| == 1 then [] else [COMMA] + WrittenItems(items[1..])) + tail);
    assert WrittenItems(items) + tail == item.before + (Written(item.value) + after);
    SpacesAreSkipped(item.before, Written(item.value) + after);
  }

  /** Wherever a text stands, white space in front of it or not, it is read as the value it writes, or refused when it is
      nested too deep there. */
  lemma {:induction false} TextIsRead(t: Text, depth: nat, rest: seq<byte>)
    requires IsText(t) && Ends(rest)
    ensures ParseValue(Written(t) + rest, depth) == ReadAs(ValueOf(t), Nesting(t), depth, rest)
    decreases t, 2
  {
    hide ParseValue, Written, ParseItems, ParseMembers, WrittenItems, WrittenEntries;
    if depth > MAX_DEPTH {
      TooDeep(Written(t) + rest, depth);
    } else if t.ArrayOf? && t.items != [] {
      ArrayIsItems(t, depth, rest);
      assert t.items[0..] == t.items;
      ItemsAreRead(t, 0, depth, [], rest);
      assert [] + ValuesOf(t.items) == ValuesOf(t.items);
    } else if t.ObjectOf? && t.entries != [] {
      ObjectIsEntries(t, depth, rest);
      assert t.entries[0..] == t.entries;
      EntriesAreRead(t, 0, depth, [], rest);
    } else if t.ArrayOf? {
      EmptyArrayIsRead(t.space, depth, rest);
    } else if t.ObjectOf? {
      EmptyObjectIsRead(t.space, depth, rest);
    } else {
      ScalarIsRead(t, depth, rest);
    }
  }

  /** An item up to what is behind it. */
  lemma {:induction false} ItemIsRead(item: Item, depth: nat, tail: seq<byte>)
    requires IsItem(item) && Ends(item.after + tail)
    ensures ParseValue(WrittenItem(item) + tail, depth)
         == ReadAs(ValueOf(item.value), Nesting(item.value), depth, item.after + tail)
    decreases item, 3
  {
    hide ParseValue, Written, Nesting;
    var text := Written(item.value) + (item.after + tail);
    TextIsRead(item.value, depth, item.after + tail);
    assert WrittenItem(item) + tail == item.before + text;
    SpacesAreSkipped(item.before, text);
    ValueAfterSpaces(text, depth);
    ValueAfterSpaces(item.before + text, depth);
  }

  lemma {:induction false} ItemsSplit(items: seq<Item>, end: seq<byte>)
    requires |items| > 1
    ensures WrittenItems(items) + end == WrittenItem(items[0]) + ([COMMA] + (WrittenItems(items[1..]) + end))
  {
    hide WrittenItem;
    var next := WrittenItems(items[1..]);
    assert WrittenItem(items[0]) + ([COMMA] + next) + end == WrittenItem(items[0]) + ([COMMA] + (next + end));
  }

  lemma {:induction false} ItemsAreRead(t: Text, k: nat, depth: nat, done: seq<Json>, rest: seq<byte>)
    requires t.ArrayOf? && IsText(t) && k < |t.items| && depth <= MAX_DEPTH
    ensures ParseItems(WrittenItems(t.items[k..]) + ([CLOSE_ARRAY] + rest), depth, done)
         == ReadAs(Array(done + ValuesOf(t.items[k..])), 1 + ItemsNesting(t.items[k..]), depth, rest)
    decreases t, 1, |t.items| - k
  {
    hide ParseValue, WrittenItem, Nesting, ParseItems, AfterItem, ValueOf;
    var items, end := t.items[k..], [CLOSE_ARRAY] + rest;
    var item := items[0];
    assert items[1..] == t.items[k + 1..] && item == t.items[k];
    var value := ValueOf(item.value);
    if |items| == 1 {
      AfterItemIs(depth, done + [value], item.after, rest);
      ItemIsRead(item, depth + 1, end);
      assert WrittenItems(items) + end == WrittenItem(item) + end;
      ItemsAreAfter(WrittenItem(item) + end, depth, done);
      assert ValuesOf(items) == [value] + [];
      assert done + ([value] + []) == done + [value];
    } else {
      var next := WrittenItems(items[1..]) + end;
      AfterItemIs(depth, done + [value], item.after, next);
      ItemIsRead(item, depth + 1, [COMMA] + next);
      ItemsSplit(items, end);
      ItemsAreAfter(WrittenItem(item) + ([COMMA] + next), depth, done);
      ItemsAreRead(t, k + 1, depth, done + [value], rest);
      Regroup(done, [value], ValuesOf(items[1..]));
    }
  }

  // Objects

  lemma {:induction false} ObjectIsEntries(t: Text, depth: nat, rest: seq<byte>)
    requires IsText(t) && t.ObjectOf? && t.entries != [] && depth <= MAX_DEPTH
    ensures ParseValue(Written(t) + rest, depth)
         == ParseMembers(SkipSpace(WrittenEntries(t.entries) + ([CLOSE_OBJECT] + rest)), depth, [])
  {
    hide ParseValue, SkipSpace, ParseMembers, WrittenEntries;
    var inside := WrittenEntries(t.entries) + ([CLOSE_OBJECT] + rest);
    assert Written(t) + rest == [OPEN_OBJECT] + inside;
    ObjectOpens(inside, depth);
    EntriesStart(t.entries, [CLOSE_OBJECT] + rest);
  }

  /** What stands behind the key of a member. */
  function BehindKey(entry: Entry, tail: seq<byte>): seq<byte> {
    entry.colon + ([COLON] + (WrittenItem(entry.item) + tail))
  }

  lemma {:induction false} EntryRegroups(entry: Entry, tail: seq<byte>)
    ensures WrittenEntry(entry) + tail == entry.before + (WrittenString(entry.key) + BehindKey(entry, tail))
  {
    hide WrittenItem, WrittenString;
  }

  lemma {:induction false} KeyStarts(entry: Entry, tail: seq<byte>)
    requires IsEntry(entry)
    ensures SkipSpace(WrittenEntry(entry) + tail) == WrittenString(entry.key) + BehindKey(entry, tail)
    ensures First(SkipSpace(WrittenEntry(entry) + tail)) == QUOTE
  {
    hide WrittenEntry, BehindKey, AllSpelled;
    EntryRegroups(entry, tail);
    SpacesAreSkipped(entry.before, WrittenString(entry.key) + BehindKey(entry, tail));
  }

  lemma {:induction false} EntriesStart(entries: seq<Entry>, tail: seq<byte>)
    requires entries != [] && IsEntry(entries[0])
    ensures First(SkipSpace(WrittenEntries(entries) + tail)) == QUOTE
  {
    hide WrittenEntry, SkipSpace;
    var more := if |entries| == 1 then [] else [COMMA] + WrittenEntries(entries[1..]);
    KeyStarts(entries[0], more + tail);
    Regroup(WrittenEntry(entries[0]), more, tail);
  }

  /** The end of a round of the loop over the members. */
  function AfterValue(depth: nat, done: seq<Member>, rest: seq<byte>): Parsed<Json> {
    var b := SkipSpace(rest);
    if First(b) == CLOSE_OBJECT then Parsed(Object(done), b[1..])
    else if First(b) != COMMA then Malformed
    else ParseMembers(SkipSpace(b[1..]), depth, done)
  }

  lemma {:induction false} AfterValueIs(depth: nat, done: seq<Member>, space: seq<byte>, tail: seq<byte>)
    requires Spaces(space)
    ensures AfterValue(depth, done, space + ([CLOSE_OBJECT] + tail)) == Parsed(Object(done), tail)
    ensures AfterValue(depth, done, space + ([COMMA] + tail)) == ParseMembers(SkipSpace(tail), depth, done)
    ensures Ends(space + ([CLOSE_OBJECT] + tail)) && Ends(space + ([COMMA] + tail))
  {
    hide ParseMembers;
    SkippedTo(space, CLOSE_OBJECT, tail);
    SkippedTo(space, COMMA, tail);
    hide SkipSpace;
  }

  /** A member up to its value. */
  lemma {:induction false} KeyIsRead(entry: Entry, tail: seq<byte>, depth: nat, done: seq<Member>)
    requires IsEntry(entry)
    ensures var value := ParseValue(WrittenItem(entry.item) + tail, depth + 1);
            ParseMembers(SkipSpace(WrittenEntry(entry) + tail), depth, done)
            == if value.Malformed? then Malformed
               else AfterValue(depth, Assign(done, Meaning(entry.key), value.value), value.rest)
  {
    hide ParseValue, ParseString, AllSpelled, Assign, Meaning, WrittenItem, WrittenEntry, SkipSpace;
    KeyStarts(entry, tail);
    StringIsRead(entry.key, BehindKey(entry, tail));
    SkippedTo(entry.colon, COLON, WrittenItem(entry.item) + tail);
    KeyText(entry.key, BehindKey(entry, tail));
  }

  lemma {:induction false} KeyText(key: seq<Char>, tail: seq<byte>)
    ensures (WrittenString(key) + tail)[1..] == AllSpelled(key) + ([QUOTE] + tail)
  {
    hide AllSpelled;
    assert WrittenString(key) + tail == [QUOTE] + (AllSpelled(key) + ([QUOTE] + tail));
  }

  lemma {:induction false} EntriesSplit(entries: seq<Entry>, end: seq<byte>)
    requires |entries| > 1
    ensures WrittenEntries(entries) + end == WrittenEntry(entries[0]) + ([COMMA] + (WrittenEntries(entries[1..]) + end))
  {
    hide WrittenEntry;
    var next := WrittenEntries(entries[1..]);
    assert WrittenEntry(entries[0]) + ([COMMA] + next) + end == WrittenEntry(entries[0]) + ([COMMA] + (next + end));
  }

  lemma {:induction false} EntryIsRead(entry: Entry, tail: seq<byte>, depth: nat, done: seq<Member>)
    requires IsEntry(entry) && Ends(entry.item.after + tail)
    ensures var more := Assign(done, Meaning(entry.key), ValueOf(entry.item.value));
            ParseMembers(SkipSpace(WrittenEntry(entry) + tail), depth, done)
            == if depth + 1 + Nesting(entry.item.value) > MAX_DEPTH then Malformed
               else AfterValue(depth, more, entry.item.after + tail)
    decreases entry, 4
  {
    hide ParseValue, WrittenItem, WrittenEntry, Nesting, ParseMembers, Assign, Meaning, ValueOf, SkipSpace;
    hide AfterValue;
    ItemIsRead(entry.item, depth + 1, tail);
    KeyIsRead(entry, tail, depth, done);
  }

  lemma {:induction false} EntriesAreRead(t: Text, k: nat, depth: nat, done: seq<Member>, rest: seq<byte>)
    requires t.ObjectOf? && IsText(t) && k < |t.entries| && depth <= MAX_DEPTH
    ensures ParseMembers(SkipSpace(WrittenEntries(t.entries[k..]) + ([CLOSE_OBJECT] + rest)), depth, done)
         == ReadAs(Object(Assigned(done, t.entries[k..])), 1 + EntriesNesting(t.entries[k..]), depth, rest)
    decreases t, 1, |t.entries| - k
  {
    hide ParseValue, WrittenItem, WrittenEntry, Nesting, ParseMembers, Assign, Meaning, ValueOf, SkipSpace;
    hide AfterValue, Ends;
    var entries, end := t.entries[k..], [CLOSE_OBJECT] + rest;
    var entry := entries[0];
    assert entries[1..] == t.entries[k + 1..] && entry == t.entries[k];
    var more := Assign(done, Meaning(entry.key), ValueOf(entry.item.value));
    if |entries| == 1 {
      AfterValueIs(depth, more, entry.item.after, rest);
      assert WrittenEntries(entries) + end == WrittenEntry(entry) + end;
      EntryIsRead(entry, end, depth, done);
    } else {
      var next := WrittenEntries(entries[1..]) + end;
      AfterValueIs(depth, more, entry.item.after, next);
      EntriesSplit(entries, end);
      EntryIsRead(entry, [COMMA] + next, depth, done);
      EntriesAreRead(t, k + 1, depth, more, rest);
    }
  }

  // --- All that is read is written

  /** More white space in front of the first item. */
  lemma MoreBefore(space: seq<byte>, items: seq<Item>) returns (more: seq<Item>)
    requires items != [] && AllItems(items) && Spaces(space)
    ensures |more| == |items| && AllItems(more) && WrittenItems(more) == space + WrittenItems(items)
    ensures ValuesOf(more) == ValuesOf(items) && ItemsNesting(more) == ItemsNesting(items)
  {
    hide Written, ValueOf, Nesting, IsText;
    var item := items[0];
    var first := item.(before := space + item.before);
    more := [first] + items[1..];
    assert more[1..] == items[1..];
    assert WrittenItem(first) == space + WrittenItem(item) by {
      assert space + item.before + Written(item.value) + item.after
          == space + (item.before + Written(item.value) + item.after);
    }
    var rest := if |items| == 1 then [] else [COMMA] + WrittenItems(items[1..]);
    Regroup(space, WrittenItem(item), rest);
  }

  lemma ScalarIsText(b: seq<byte>, depth: nat) returns (t: Text)
    requires b != [] && !IsSpace(b[0]) && b[0] != OPEN_OBJECT && b[0] != OPEN_ARRAY
    requires ParseValue(b, depth).Parsed?
    ensures ReadFrom(b, depth, [], t, ParseValue(b, depth))
  {
    hide ParseString, ParseNumber, ParseMembers, ParseItems, AllSpelled, TextOfNumber, Meaning, NumberMeaning, IsNumber;
    hide EndsNumber;
    if b[0] == QUOTE {
      var chars := ReadIsSpelled(b[1..], -1, []);
      t := StringOf(chars);
      var rest := ParseString(b[1..], -1, []).rest;
      Regroup(AllSpelled(chars), [QUOTE], rest);
      StringIsRead(chars, rest);
      assert b == [QUOTE] + b[1..];
    } else if b[0] == 116 {
      t := BoolText(true);
    } else if b[0] == 102 {
      t := BoolText(false);
    } else if b[0] == 110 {
      t := NullText;
    } else {
      var n := ReadIsNumber(b);
      NumberIsRead(n, ParseNumber(b).rest);
      t := NumberOf(n);
    }
  }

  ghost predicate ReadFrom(b: seq<byte>, depth: nat, space: seq<byte>, t: Text, r: Parsed<Json>)
    requires r.Parsed?
  {
    && Spaces(space) && IsText(t) && b == space + (Written(t) + r.rest) && r.value == ValueOf(t)
    && depth + Nesting(t) <= MAX_DEPTH
  }

  /** All that is read as a value is white space and a text. */
  lemma ReadIsText(b: seq<byte>, depth: nat) returns (space: seq<byte>, t: Text)
    requires ParseValue(b, depth).Parsed?
    ensures ReadFrom(b, depth, space, t, ParseValue(b, depth))
    decreases |b|, 1
  {
    hide ParseValue, Written, ParseItems, ParseMembers, WrittenItems, WrittenEntries, ValueOf, Nesting, SkipSpace, IsText;
    space := SkippedAreSpaces(b);
    var c := SkipSpace(b);
    ValueAfterSpaces(b, depth);
    SomethingIsRead(c, depth);
    if c[0] == OPEN_ARRAY {
      t := ReadArray(c, depth);
    } else if c[0] == OPEN_OBJECT {
      t := ReadObject(c, depth);
    } else {
      t := ScalarIsText(c, depth);
    }
  }

  lemma {:induction false} SomethingIsRead(c: seq<byte>, depth: nat)
    requires ParseValue(c, depth).Parsed?
    ensures depth <= MAX_DEPTH && SkipSpace(c) != []
  {
  }

  lemma ReadArray(c: seq<byte>, depth: nat) returns (t: Text)
    requires c != [] && c[0] == OPEN_ARRAY && ParseValue(c, depth).Parsed?
    ensures ReadFrom(c, depth, [], t, ParseValue(c, depth))
    decreases |c|, 0
  {
    hide ParseValue, ParseItems, SkipSpace, WrittenItems, ValueOf, Written, Nesting, IsText;
    var inside := c[1..];
    assert c == [OPEN_ARRAY] + inside;
    SomethingIsRead(c, depth);
    ArrayOpens(inside, depth);
    var space := SkippedAreSpaces(inside);
    var d := SkipSpace(inside);
    if First(d) == CLOSE_ARRAY {
      t := ArrayOf(space, []);
      ArrayTextIs(space, []);
      assert d == [CLOSE_ARRAY] + d[1..];
      Brackets(OPEN_ARRAY, space, CLOSE_ARRAY, d[1..]);
    } else {
      var items := ReadItems(d, depth, []);
      var more := MoreBefore(space, items);
      t := ArrayOf([], more);
      ArrayTextIs([], more);
      var rest := ParseItems(d, depth, []).rest;
      assert [] + ValuesOf(items) == ValuesOf(items);
      Regroup(space, WrittenItems(items), [CLOSE_ARRAY] + rest);
      Brackets(OPEN_ARRAY, WrittenItems(more), CLOSE_ARRAY, rest);
    }
    assert [] + c == c;
  }

  ghost predicate ItemsFrom(b: seq<byte>, depth: nat, done: seq<Json>, items: seq<Item>, r: Parsed<Json>)
    requires r.Parsed?
  {
    && items != [] && AllItems(items) && b == WrittenItems(items) + ([CLOSE_ARRAY] + r.rest)
    && r.value == Array(done + ValuesOf(items)) && depth + 1 + ItemsNesting(items) <= MAX_DEPTH
  }

  /** An item in front of the others. */
  lemma {:induction false} ItemInFront(item: Item, more: seq<Item>)
    requires IsItem(item) && AllItems(more)
    ensures var items := [item] + more;
            && AllItems(items) && ValuesOf(items) == [ValueOf(item.value)] + ValuesOf(more)
            && WrittenItems(items) == WrittenItem(item) + (if more == [] then [] else [COMMA] + WrittenItems(more))
            && ItemsNesting(items) == Greater(Nesting(item.value), ItemsNesting(more))
  {
    hide Written, ValueOf, Nesting, IsText;
    assert ([item] + more)[1..] == more;
  }

  /** An item, as it is read. */
  lemma ReadItem(b: seq<byte>, depth: nat) returns (item: Item)
    requires ParseValue(b, depth).Parsed?
    ensures var r := ParseValue(b, depth);
            && IsItem(item) && b == WrittenItem(item) + SkipSpace(r.rest) && r.value == ValueOf(item.value)
            && depth + Nesting(item.value) <= MAX_DEPTH
    decreases |b|, 2
  {
    hide ParseValue, SkipSpace, Written, ValueOf, Nesting, IsText;
    var before, value := ReadIsText(b, depth);
    var after := SkippedAreSpaces(ParseValue(b, depth).rest);
    item := Item(before, value, after);
    var c := SkipSpace(ParseValue(b, depth).rest);
    assert before + (Written(value) + (after + c)) == before + Written(value) + after + c;
  }

  lemma {:induction false} LastFrom(b: seq<byte>, depth: nat, done: seq<Json>, item: Item, r: Parsed<Json>)
    requires r.Parsed? && IsItem(item) && b == WrittenItem(item) + ([CLOSE_ARRAY] + r.rest)
    requires r.value == Array(done + [ValueOf(item.value)]) && depth + 1 + Nesting(item.value) <= MAX_DEPTH
    ensures ItemsFrom(b, depth, done, [item], r)
  {
    hide WrittenItem, ValueOf, Nesting, IsText;
    NoItems();
    ItemInFront(item, []);
    assert [item] + [] == [item] && [ValueOf(item.value)] + [] == [ValueOf(item.value)];
  }

  lemma MoreFrom(
      b: seq<byte>, depth: nat, done: seq<Json>, item: Item, space: seq<byte>, d: seq<byte>, next: seq<Item>,
      r: Parsed<Json>) returns (items: seq<Item>)
    requires r.Parsed? && IsItem(item) && Spaces(space) && b == WrittenItem(item) + ([COMMA] + (space + d))
    requires depth + 1 + Nesting(item.value) <= MAX_DEPTH
    requires ItemsFrom(d, depth, done + [ValueOf(item.value)], next, r)
    ensures ItemsFrom(b, depth, done, items, r)
  {
    hide WrittenItem, WrittenItems, ValuesOf, ItemsNesting, ValueOf, Nesting, IsText;
    var more := MoreBefore(space, next);
    items := [item] + more;
    ItemInFront(item, more);
    Regroup(done, [ValueOf(item.value)], ValuesOf(next));
    Joins(WrittenItem(item), [COMMA], space, WrittenItems(next), [CLOSE_ARRAY] + r.rest);
  }

  lemma ReadItems(b: seq<byte>, depth: nat, done: seq<Json>) returns (items: seq<Item>)
    requires ParseItems(b, depth, done).Parsed?
    ensures ItemsFrom(b, depth, done, items, ParseItems(b, depth, done))
    decreases |b|, 3
  {
    hide ParseValue, ParseItems, SkipSpace, WrittenItem, ItemsFrom, IsText, ValueOf, Nesting;
    ItemsAreAfter(b, depth, done);
    var first := ParseValue(b, depth + 1);
    var item := ReadItem(b, depth + 1);
    var c := SkipSpace(first.rest);
    assert c == [c[0]] + c[1..];
    if First(c) == CLOSE_ARRAY {
      items := [item];
      LastFrom(b, depth, done, item, ParseItems(b, depth, done));
    } else {
      var space := SkippedAreSpaces(c[1..]);
      var next := ReadItems(SkipSpace(c[1..]), depth, done + [first.value]);
      items := MoreFrom(b, depth, done, item, space, SkipSpace(c[1..]), next, ParseItems(b, depth, done));
    }
  }

  lemma Joins(first: seq<byte>, comma: seq<byte>, space: seq<byte>, next: seq<byte>, end: seq<byte>)
    ensures first + (comma + (space + (next + end))) == first + (comma + (space + next)) + end
  {
  }

  lemma NoItems()
    ensures AllItems([]) && ValuesOf([]) == [] && ItemsNesting([]) == 0
  {
  }

  // Objects

  lemma MoreBeforeEntry(space: seq<byte>, entries: seq<Entry>) returns (more: seq<Entry>)
    requires entries != [] && AllEntries(entries) && Spaces(space)
    ensures more != [] && AllEntries(more) && WrittenEntries(more) == space + WrittenEntries(entries)
    ensures forall done :: Assigned(done, more) == Assigned(done, entries)
    ensures EntriesNesting(more) == EntriesNesting(entries)
  {
    hide WrittenString, WrittenItem, ValueOf, Nesting, IsText, Assign, Meaning;
    var entry := entries[0];
    var first := entry.(before := space + entry.before);
    more := [first] + entries[1..];
    assert more[1..] == entries[1..];
    var behind := WrittenString(entry.key) + BehindKey(entry, []);
    EntryRegroups(entry, []);
    EntryRegroups(first, []);
    Regroup(space, entry.before, behind);
    assert WrittenEntry(first) + [] == WrittenEntry(first) && WrittenEntry(entry) + [] == WrittenEntry(entry);
    var rest := if |entries| == 1 then [] else [COMMA] + WrittenEntries(entries[1..]);
    Regroup(space, WrittenEntry(entry), rest);
  }

  /** An entry in front of the others. */
  lemma {:induction false} EntryInFront(entry: Entry, more: seq<Entry>, done: seq<Member>)
    requires IsEntry(entry) && AllEntries(more)
    ensures var entries := [entry] + more;
            && AllEntries(entries)
            && Assigned(done, entries) == Assigned(Assign(done, Meaning(entry.key), ValueOf(entry.item.value)), more)
            && WrittenEntries(entries) == WrittenEntry(entry) + (if more == [] then [] else [COMMA] + WrittenEntries(more))
            && EntriesNesting(entries) == Greater(Nesting(entry.item.value), EntriesNesting(more))
  {
    hide WrittenEntry, ValueOf, Nesting, IsText, Assign, Meaning;
    assert ([entry] + more)[1..] == more;
  }

  lemma {:induction false} NoEntries(done: seq<Member>)
    ensures AllEntries([]) && Assigned(done, []) == done && EntriesNesting([]) == 0
  {
  }

  lemma {:induction false} AfterValueSkips(depth: nat, done: seq<Member>, rest: seq<byte>)
    ensures AfterValue(depth, done, SkipSpace(rest)) == AfterValue(depth, done, rest)
  {
    hide ParseMembers;
    SkipTwice(rest);
  }

  /** How a member is read: a key, a colon and a value. */
  lemma {:induction false} MemberIsKeyAndValue(b: seq<byte>, depth: nat, done: seq<Member>)
    requires ParseMembers(b, depth, done).Parsed?
    ensures b != [] && b[0] == QUOTE
    ensures var key := ParseString(b[1..], -1, []);
            && key.Parsed?
            && var c := SkipSpace(key.rest);
               && c != [] && c[0] == COLON
               && var value := ParseValue(c[1..], depth + 1);
                  value.Parsed? && ParseMembers(b, depth, done)
                                == AfterValue(depth, Assign(done, key.value, value.value), value.rest)
  {
    hide ParseValue, ParseString, Assign, SkipSpace;
  }

  /** The key of a member, and what follows its colon. */
  lemma ReadKey(b: seq<byte>, depth: nat, done: seq<Member>) returns (key: seq<Char>, colon: seq<byte>, tail: seq<byte>)
    requires ParseMembers(b, depth, done).Parsed?
    ensures AllAllowed(key) && Spaces(colon) && b == WrittenString(key) + (colon + ([COLON] + tail))
    ensures var value := ParseValue(tail, depth + 1);
            value.Parsed? && ParseMembers(b, depth, done)
                          == AfterValue(depth, Assign(done, Meaning(key), value.value), value.rest)
  {
    hide ParseMembers, ParseValue, ParseString, AllSpelled, Assign, Meaning, SkipSpace, AfterValue;
    MemberIsKeyAndValue(b, depth, done);
    var rest := ParseString(b[1..], -1, []).rest;
    key := ReadIsSpelled(b[1..], -1, []);
    Regroup(AllSpelled(key), [QUOTE], rest);
    StringIsRead(key, rest);
    colon := SkippedAreSpaces(rest);
    tail := SkipSpace(rest)[1..];
    assert SkipSpace(rest) == [COLON] + tail;
    assert b == [QUOTE] + b[1..];
    KeyText(key, rest);
    Regroup([QUOTE] + AllSpelled(key), [QUOTE], rest);
    Regroup([QUOTE], AllSpelled(key), [QUOTE] + rest);
  }

  lemma ReadEntry(b: seq<byte>, depth: nat, done: seq<Member>) returns (entry: Entry, c: seq<byte>)
    requires ParseMembers(b, depth, done).Parsed?
    ensures IsEntry(entry) && b == WrittenEntry(entry) + c && |c| < |b| && SkipSpace(c) == c
    ensures depth + 1 + Nesting(entry.item.value) <= MAX_DEPTH
    ensures var more := Assign(done, Meaning(entry.key), ValueOf(entry.item.value));
            ParseMembers(b, depth, done) == AfterValue(depth, more, c)
    decreases |b|, 3
  {
    hide ParseValue, ParseMembers, SkipSpace, WrittenItem, WrittenString, Assign, Meaning, Nesting, ValueOf, IsText;
    hide AfterValue;
    var key, colon, tail := ReadKey(b, depth, done);
    var item := ReadItem(tail, depth + 1);
    c := SkipSpace(ParseValue(tail, depth + 1).rest);
    SkipTwice(ParseValue(tail, depth + 1).rest);
    entry := Entry([], key, colon, item);
    EntryRegroups(entry, c);
    assert b == [] + (WrittenString(key) + BehindKey(entry, c));
    AfterValueSkips(depth, Assign(done, Meaning(key), ValueOf(item.value)), ParseValue(tail, depth + 1).rest);
  }

  ghost predicate EntriesFrom(b: seq<byte>, depth: nat, done: seq<Member>, entries: seq<Entry>, r: Parsed<Json>)
    requires r.Parsed?
  {
    && entries != [] && AllEntries(entries) && b == WrittenEntries(entries) + ([CLOSE_OBJECT] + r.rest)
    && r.value == Object(Assigned(done, entries)) && depth + 1 + EntriesNesting(entries) <= MAX_DEPTH
  }

  lemma ReadEntries(b: seq<byte>, depth: nat, done: seq<Member>) returns (entries: seq<Entry>)
    requires ParseMembers(b, depth, done).Parsed?
    ensures EntriesFrom(b, depth, done, entries, ParseMembers(b, depth, done))
    decreases |b|, 4
  {
    hide ParseMembers, SkipSpace, WrittenEntry, WrittenEntries, Assigned, EntriesNesting, IsText, AllEntries, Assign;
    hide Meaning, ValueOf, Nesting;
    var entry, c := ReadEntry(b, depth, done);
    var more := Assign(done, Meaning(entry.key), ValueOf(entry.item.value));
    var rest := ParseMembers(b, depth, done).rest;
    if First(c) == CLOSE_OBJECT {
      entries := [entry] + [];
      NoEntries(more);
      EntryInFront(entry, [], done);
      assert c == [CLOSE_OBJECT] + c[1..];
    } else {
      var space := SkippedAreSpaces(c[1..]);
      var next := ReadEntries(SkipSpace(c[1..]), depth, more);
      var spaced := MoreBeforeEntry(space, next);
      entries := [entry] + spaced;
      EntryInFront(entry, spaced, done);
      assert c == [COMMA] + c[1..];
      Joins(WrittenEntry(entry), [COMMA], space, WrittenEntries(next), [CLOSE_OBJECT] + rest);
    }
  }

  lemma ReadObject(c: seq<byte>, depth: nat) returns (t: Text)
    requires c != [] && c[0] == OPEN_OBJECT && ParseValue(c, depth).Parsed?
    ensures ReadFrom(c, depth, [], t, ParseValue(c, depth))
    decreases |c|, 0
  {
    hide ParseValue, ParseMembers, SkipSpace, WrittenEntries, ValueOf, Written, Nesting, IsText, Assigned;
    var inside := c[1..];
    assert c == [OPEN_OBJECT] + inside;
    SomethingIsRead(c, depth);
    ObjectOpens(inside, depth);
    var space := SkippedAreSpaces(inside);
    var d := SkipSpace(inside);
    if First(d) == CLOSE_OBJECT {
      t := ObjectOf(space, []);
      NoEntries([]);
      ObjectTextIs(space, []);
      assert d == [CLOSE_OBJECT] + d[1..];
      Brackets(OPEN_OBJECT, space, CLOSE_OBJECT, d[1..]);
    } else {
      var entries := ReadEntries(d, depth, []);
      var more := MoreBeforeEntry(space, entries);
      t := ObjectOf([], more);
      ObjectTextIs([], more);
      var rest := ParseMembers(d, depth, []).rest;
      Regroup(space, WrittenEntries(entries), [CLOSE_OBJECT] + rest);
      Brackets(OPEN_OBJECT, WrittenEntries(more), CLOSE_OBJECT, rest);
    }
    assert [] + c == c;
  }

  // --- Main results

  /** b is a JSON text for v, nested no deeper than the parser goes, with white space around it. */
  ghost predicate Writes(b: seq<byte>, before: seq<byte>, t: Text, after: seq<byte>, v: Json) {
    && Spaces(before) && Spaces(after) && IsText(t) && b == before + (Written(t) + after)
    && v == ValueOf(t) && Nesting(t) <= 200
  }

  lemma {:induction false} OnlySpaces(space: seq<byte>)
    requires Spaces(space)
    ensures SkipSpace(space) == [] && Ends(space)
  {
    SpacesAreSkipped(space, []);
    assert space + [] == space;
  }

  lemma WrittenIsParsed(b: seq<byte>, before: seq<byte>, t: Text, after: seq<byte>, v: Json)
    requires Writes(b, before, t, after, v)
    ensures Parse(b) == Parsed(v, [])
  {
    hide ParseValue, Written, ValueOf, Nesting, SkipSpace, Ends;
    OnlySpaces(after);
    TextIsRead(t, 0, after);
    SpacesAreSkipped(before, Written(t) + after);
    ValueAfterSpaces(Written(t) + after, 0);
    ValueAfterSpaces(b, 0);
  }

  /** A text is parsed exactly when the grammar allows it, nested at most 200 deep, and then as the value that it
      writes. */
  lemma ParsesIff(b: seq<byte>, v: Json)
    ensures Parse(b) == Parsed(v, []) <==> exists before, t, after :: Writes(b, before, t, after, v)
    ensures Parse(b).Parsed? ==> Parse(b).rest == []
  {
    hide ParseValue, Written, ValueOf, Nesting, SkipSpace, IsText;
    if Parse(b) == Parsed(v, []) {
      var before, t := ReadIsText(b, 0);
      var after := SkippedAreSpaces(ParseValue(b, 0).rest);
      assert after + [] == after;
      assert Writes(b, before, t, after, v);
    }
    if before, t, after :| Writes(b, before, t, after, v) {
      WrittenIsParsed(b, before, t, after, v);
    }
  }
}
