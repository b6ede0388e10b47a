// The printer as it appends to one string and the parser as it moves one index over
// its text (third-party/json11.cpp), proved to compute the functions of Json.
module JsonParsers {
  import opened Prelude
  import opened Bytes
  import opened Decimal
  import opened Json

  // --- Printing

  /** The string that everything is appended to. */
  class Output {
    var text: seq<byte>

    constructor ()
      ensures text == []
    {
      text := [];
    }

    method Append(more: seq<byte>)
      modifies this
      ensures text == old(text) + more
    {
      text := text + more;
    }
  }

  /** A character of a string, NUL right behind its end. */
  function CharAt(s: seq<byte>, i: nat): byte
    requires i <= |s|
  {
    if i == |s| then 0 else s[i]
  }

  lemma CharsStep(done: seq<byte>, s: seq<byte>, i: nat)
    requires i < |s|
    ensures LineSeparator(s[i..]) ==>
              && i + 3 <= |s|
              && done + DumpChars(s[i..]) == done + EscapedSeparator(s[i + 2]) + DumpChars(s[i + 3..])
    ensures !LineSeparator(s[i..]) ==> done + DumpChars(s[i..]) == done + Escaped(s[i]) + DumpChars(s[i + 1..])
  {
    hide Escaped, EscapedSeparator;
    var t := s[i..];
    assert t[1..] == s[i + 1..];
    if LineSeparator(t) {
      assert t[3..] == s[i + 3..];
      Regroup(done, EscapedSeparator(t[2]), DumpChars(t[3..]));
    } else {
      Regroup(done, Escaped(t[0]), DumpChars(t[1..]));
    }
  }

  method DumpStringTo(value: seq<byte>, out: Output)
    modifies out
    ensures out.text == old(out.text) + DumpString(value)
  {
    hide DumpChars, Escaped;
    out.Append([QUOTE]);
    ghost var start := out.text;
    var i := 0;
    assert value[0..] == value;
    while i < |value|
      invariant 0 <= i <= |value|
      invariant out.text + DumpChars(value[i..]) == start + DumpChars(value)
    {
      CharsStep(out.text, value, i);
      var ch := value[i];
      var separator := ch == 0xe2 && CharAt(value, i + 1) == 0x80
                       && (CharAt(value, i + 2) == 0xa8 || CharAt(value, i + 2) == 0xa9);
      assert separator <==> LineSeparator(value[i..]);
      if separator {
        out.Append(EscapedSeparator(value[i + 2]));
        i := i + 2;
      } else {
        out.Append(Escaped(ch));
      }
      i := i + 1;
    }
    assert value[i..] == [];
    CharsEnd();
    assert out.text == old(out.text) + [QUOTE] + DumpChars(value);
    out.Append([QUOTE]);
    assert old(out.text) + [QUOTE] + DumpChars(value) + [QUOTE] == old(out.text) + DumpString(value);
  }

  lemma CharsEnd()
    ensures DumpChars([]) == []
  {
  }

  /** What a loop that writes separators in front of all but the first still has to write. */
  function RestOfItems(items: seq<Json>, i: nat): seq<byte>
    requires i <= |items|
  {
    (if 0 < i < |items| then [COMMA, SPACE] else []) + DumpItems(items[i..])
  }

  function RestOfMembers(members: seq<Member>, i: nat): seq<byte>
    requires i <= |members|
  {
    (if 0 < i < |members| then [COMMA, SPACE] else []) + DumpMembers(members[i..])
  }

  lemma ItemsStep(done: seq<byte>, items: seq<Json>, i: nat)
    requires i < |items|
    ensures done + RestOfItems(items, i)
         == done + (if i > 0 then [COMMA, SPACE] else []) + Dump(items[i]) + RestOfItems(items, i + 1)
  {
    hide Dump;
    var t := items[i..];
    assert t[1..] == items[i + 1..];
    var comma, here, rest := if i > 0 then [COMMA, SPACE] else [], Dump(items[i]), RestOfItems(items, i + 1);
    assert DumpItems(t) == here + rest by {
      Regroup(here, if |t| > 1 then [COMMA, SPACE] else [], DumpItems(t[1..]));
    }
    Regroup(comma, here, rest);
    Regroup(done, comma, here + rest);
    Regroup(done + comma, here, rest);
  }

  lemma MembersStep(done: seq<byte>, members: seq<Member>, i: nat)
    requires i < |members|
    ensures done + RestOfMembers(members, i)
         == done + (if i > 0 then [COMMA, SPACE] else []) + DumpString(members[i].key) + [COLON, SPACE]
            + Dump(members[i].value) + RestOfMembers(members, i + 1)
  {
    hide Dump, DumpString;
    var t := members[i..];
    assert t[1..] == members[i + 1..];
    var comma, rest := if i > 0 then [COMMA, SPACE] else [], RestOfMembers(members, i + 1);
    var key, value := DumpString(members[i].key) + [COLON, SPACE], Dump(members[i].value);
    assert DumpMembers(t) == key + value + rest by {
      Regroup(key + value, if |t| > 1 then [COMMA, SPACE] else [], DumpMembers(t[1..]));
    }
    assert done + (comma + (key + value + rest)) == done + comma + key + value + rest;
    assert done + comma + key == done + comma + DumpString(members[i].key) + [COLON, SPACE];
  }

  method DumpTo(v: Json, out: Output)
    modifies out
    ensures out.text == old(out.text) + Dump(v)
    decreases v, 1
  {
    match v {
      case Null => out.Append(NULL_TEXT);
      case Bool(truth) => out.Append(if truth then TRUE_TEXT else FALSE_TEXT);
      case Number(n) => out.Append(DumpInt(n));
      case Real(text) => out.Append(text);
      case String(s) => DumpStringTo(s, out);
      case Array(items) => DumpArrayTo(v, out);
      case Object(members) => DumpObjectTo(v, out);
    }
  }

  method DumpArrayTo(v: Json, out: Output)
    requires v.Array?
    modifies out
    ensures out.text == old(out.text) + Dump(v)
    decreases v, 0
  {
    hide Dump, DumpItems;
    ArrayText(v);
    var first := true;
    out.Append([OPEN_ARRAY]);
    ghost var start := out.text;
    var i := 0;
    assert v.items[0..] == v.items;
    assert RestOfItems(v.items, 0) == DumpItems(v.items);
    while i < |v.items|
      invariant 0 <= i <= |v.items| && first == (i == 0)
      invariant out.text + RestOfItems(v.items, i) == start + DumpItems(v.items)
    {
      ItemsStep(out.text, v.items, i);
      if !first {
        out.Append([COMMA, SPACE]);
      } else {
        assert out.text + [] == out.text;
      }
      DumpTo(v.items[i], out);
      first := false;
      i := i + 1;
    }
    ListsEnd();
    assert v.items[i..] == [];
    assert out.text == start + DumpItems(v.items);
    out.Append([CLOSE_ARRAY]);
    assert old(out.text) + [OPEN_ARRAY] + DumpItems(v.items) + [CLOSE_ARRAY]
        == old(out.text) + ([OPEN_ARRAY] + DumpItems(v.items) + [CLOSE_ARRAY]);
  }

  method DumpObjectTo(v: Json, out: Output)
    requires v.Object?
    modifies out
    ensures out.text == old(out.text) + Dump(v)
    decreases v, 0
  {
    hide Dump, DumpMembers, DumpString;
    ObjectText(v);
    var first := true;
    out.Append([OPEN_OBJECT]);
    ghost var start := out.text;
    var i := 0;
    assert v.members[0..] == v.members;
    assert RestOfMembers(v.members, 0) == DumpMembers(v.members);
    while i < |v.members|
      invariant 0 <= i <= |v.members| && first == (i == 0)
      invariant out.text + RestOfMembers(v.members, i) == start + DumpMembers(v.members)
    {
      MembersStep(out.text, v.members, i);
      if !first {
        out.Append([COMMA, SPACE]);
      } else {
        assert out.text + [] == out.text;
      }
      DumpStringTo(v.members[i].key, out);
      out.Append([COLON, SPACE]);
      DumpTo(v.members[i].value, out);
      first := false;
      i := i + 1;
    }
    ListsEnd();
    assert v.members[i..] == [];
    assert out.text == start + DumpMembers(v.members);
    out.Append([CLOSE_OBJECT]);
    assert old(out.text) + [OPEN_OBJECT] + DumpMembers(v.members) + [CLOSE_OBJECT]
        == old(out.text) + ([OPEN_OBJECT] + DumpMembers(v.members) + [CLOSE_OBJECT]);
  }

  lemma {:induction false} ArrayText(v: Json)
    requires v.Array?
    ensures Dump(v) == [OPEN_ARRAY] + DumpItems(v.items) + [CLOSE_ARRAY]
  {
  }

  lemma {:induction false} ObjectText(v: Json)
    requires v.Object?
    ensures Dump(v) == [OPEN_OBJECT] + DumpMembers(v.members) + [CLOSE_OBJECT]
  {
  }

  lemma ListsEnd()
    ensures DumpItems([]) == [] && DumpMembers([]) == []
  {
  }

  // --- Parsing

  class JsonParser {
    const str: seq<byte>
    var i: nat
    var failed: bool

    ghost predicate Valid()
      reads this
    {
      i <= |str|
    }

    ghost function Rest(): seq<byte>
      requires Valid()
      reads this
    {
      str[i..]
    }

    constructor (text: seq<byte>)
      ensures Valid() && str == text && Rest() == text && !failed
    {
      str := text;
      i := 0;
      failed := false;
    }

    /** str[i]: NUL at the end. */
    function Char(): (c: byte)
      requires Valid()
      reads this
      ensures c == First(Rest())
    {
      if i == |str| then 0 else str[i]
    }

    method Fail()
      modifies this`failed
      ensures failed
    {
      failed := true;
    }

    /** What a step of the parser leaves: the value and where it goes on, or the failure. */
    ghost predicate Took<T>(parsed: Parsed<T>, value: T)
      requires Valid()
      reads this
    {
      if parsed.Malformed? then failed else !failed && value == parsed.value && Rest() == parsed.rest
    }

    method ConsumeWhitespace()
      requires Valid()
      modifies this`i
      ensures Valid() && Rest() == SkipSpace(old(Rest()))
    {
      while IsSpace(Char())
        invariant Valid()
        invariant SkipSpace(Rest()) == SkipSpace(old(Rest()))
        decreases |str| - i
      {
        assert str[i..][1..] == str[i + 1..];
        i := i + 1;
      }
    }

    /** The end of Json::parse: nothing but white space may be left. */
    method Finish() returns (ok: bool)
      requires Valid()
      modifies this`i
      ensures ok <==> !failed && SkipSpace(old(Rest())) == []
    {
      ConsumeWhitespace();
      ok := !failed && i == |str|;
    }

    method GetNextToken() returns (ch: byte)
      requires Valid()
      modifies this
      ensures Valid()
      ensures old(failed) ==> failed && ch == 0
      ensures !old(failed) ==>
                var b := SkipSpace(old(Rest()));
                && ch == First(b)
                && (if b == [] then failed else !failed && i >= 1 && str[i - 1..] == b)
      ensures i >= old(i)
    {
      ghost var before := i;
      ConsumeWhitespace();
      assert |Rest()| <= |old(Rest())|;
      if failed {
        return 0;
      }
      if i == |str| {
        Fail();
        return 0;
      }
      ch := str[i];
      i := i + 1;
    }

    /** parse_string, from behind the quote on */
    method ParseStringLiteral() returns (out: seq<byte>)
      requires Valid() && !failed
      modifies this
      ensures Valid() && Took(ParseString(old(Rest()), -1, []), out)
    {
      hide Utf8, CodePoint, Unescaped;
      out := [];
      var last: EscapedPoint := -1;
      while true
        invariant Valid() && !failed
        invariant ParseString(Rest(), last, out) == ParseString(old(Rest()), -1, [])
        decreases |str| - i
      {
        ghost var b := Rest();
        if i == |str| {
          Fail();
          return [];
        }
        var ch := str[i];
        i := i + 1;
        assert Rest() == b[1..];
        if ch == QUOTE {
          out := out + Utf8(last);
          return;
        }
        if ch <= 0x1f {
          Fail();
          return [];
        }
        if ch != BACKSLASH {
          out := out + Utf8(last) + [ch];
          last := -1;
          continue;
        }
        if i == |str| {
          Fail();
          return [];
        }
        ch := str[i];
        i := i + 1;
        assert Rest() == b[2..] && b[1] == ch;
        if ch == LETTER_U {
          var esc := str[i..if i + 4 <= |str| then i + 4 else |str|];
          if |esc| < 4 {
            Fail();
            return [];
          }
          assert esc == b[2..6];
          assert forall j | 2 <= j < 6 :: b[j] == esc[j - 2];
          if exists j | 0 <= j < 4 :: !IsHex(esc[j]) {
            assert exists j | 2 <= j < 6 :: !IsHex(b[j]) by {
              var j :| 0 <= j < 4 && !IsHex(esc[j]);
              assert !IsHex(b[j + 2]);
            }
            Fail();
            return [];
          }
          var pt := CodePoint(esc);
          if IsLead(last) && IsTrail(pt) {
            out := out + Utf8((last - 0xD800) * 1024 + (pt - 0xDC00) + 0x1_0000);
            last := -1;
          } else {
            out := out + Utf8(last);
            last := pt;
          }
          i := i + 4;
          assert Rest() == b[6..];
          continue;
        }
        if Unescaped(ch).Malformed? {
          Fail();
          return [];
        }
        out := out + Utf8(last) + [Unescaped(ch).value];
        last := -1;
      }
    }

    method ConsumeDigits()
      requires Valid()
      modifies this`i
      ensures Valid() && i >= old(i)
      ensures i == old(i) + CountDigits(old(Rest()))
    {
      while IsDigit(Char())
        invariant Valid() && i >= old(i)
        invariant i + CountDigits(Rest()) == old(i) + CountDigits(old(Rest()))
        decreases |str| - i
      {
        assert str[i..][1..] == str[i + 1..];
        i := i + 1;
      }
    }

    /** expect: from behind its first character on */
    method ExpectText(expected: seq<byte>, res: Json) returns (r: Json)
      requires Valid() && !failed && i >= 1 && expected != []
      modifies this
      ensures Valid() && Took(Expect(old(str[i - 1..]), expected, res), r)
    {
      i := i - 1;
      PrefixAt(str, i, expected);
      if |expected| <= |str| - i && str[i..i + |expected|] == expected {
        i := i + |expected|;
        r := res;
      } else {
        Fail();
        r := Null;
      }
    }

    /** The integer part of a number: no leading zero, at least one digit. */
    method ConsumeInteger() returns (ok: bool)
      requires Valid() && !failed
      modifies this
      ensures Valid() && ok == !failed && i >= old(i)
      ensures var d := old(Rest());
              var k := CountDigits(d);
              && ok == (k > 0 && (d[0] == ZERO ==> k == 1))
              && (ok ==> Rest() == d[k..] && i == old(i) + k)
    {
      hide CountDigits;
      ok := true;
      ghost var d := Rest();
      OneDigit(d);
      if Char() == ZERO {
        i := i + 1;
        assert Rest() == d[1..];
        if IsDigit(Char()) {
          Fail();
          ok := false;
        }
      } else if IsDigit(Char()) {
        ConsumeDigits();
      } else {
        Fail();
        ok := false;
      }
    }

    /** parse_number; atoi and strtod of an integer give that integer */
    method ParseNumberLiteral() returns (r: Json)
      requires Valid() && !failed
      modifies this
      ensures Valid() && Took(ParseNumber(old(Rest())), r)
    {
      hide CountDigits, Value, First, ParseNumber, AfterInteger, Unsigned, IsDigit;
      ghost var b := Rest();
      r := Null;
      var startPos := i;
      MinusThere(b);
      if Char() == MINUS {
        i := i + 1;
        assert Rest() == b[1..];
      }
      var digits := i;
      ghost var d := Rest();
      assert d == Unsigned(b);
      NumberFails(b);
      var ok := ConsumeInteger();
      if !ok {
        return;
      }
      SliceOfSuffix(str, digits, CountDigits(d));
      var value: int := Value(str[digits..i]);
      NumberGoesOn(b);
      r := ParseAfterInteger(startPos, if digits > startPos then -value else value);
    }

    /** parse_number from behind the integer part on */
    method ParseAfterInteger(startPos: nat, n: int) returns (r: Json)
      requires Valid() && !failed && startPos < i
      modifies this
      ensures Valid() && Took(AfterInteger(str[startPos..], n, old(Rest())), r)
    {
      hide CountDigits, SkipFraction, SkipExponent, First, AfterInteger, InteriorEnds;
      ghost var b, rest := str[startPos..], Rest();
      r := Null;
      AfterIntegerSteps(b, n, rest);
      InteriorByChar(rest);
      var interior := Char() != DOT && Char() != 101 && Char() != 69;
      if interior && i - startPos <= 9 {
        return Number(n);
      }
      var ok := ConsumeFraction();
      if !ok {
        return;
      }
      ok := ConsumeExponent();
      if !ok {
        return;
      }
      if interior {
        return Number(n);
      }
      assert str[startPos..i] == b[..|b| - |Rest()|];
      r := Real(str[startPos..i]);
    }

    method ConsumeFraction() returns (ok: bool)
      requires Valid() && !failed
      modifies this
      ensures Valid() && Took(SkipFraction(old(Rest())), ()) && ok == !failed && i >= old(i)
    {
      ok := true;
      ghost var b := Rest();
      if Char() == DOT {
        i := i + 1;
        assert Rest() == b[1..];
        if !IsDigit(Char()) {
          Fail();
          return false;
        }
        ConsumeDigits();
        assert Rest() == b[1..][CountDigits(b[1..])..];
      }
    }

    method ConsumeExponent() returns (ok: bool)
      requires Valid() && !failed
      modifies this
      ensures Valid() && Took(SkipExponent(old(Rest())), ()) && ok == !failed && i >= old(i)
    {
      hide CountDigits, First;
      ok := true;
      ghost var b := Rest();
      ExponentThere(b);
      if Char() == 101 || Char() == 69 {
        i := i + 1;
        assert Rest() == b[1..];
        SignThere(b[1..]);
        if Char() == 43 || Char() == MINUS {
          i := i + 1;
          assert Rest() == b[2..];
        }
        ghost var d := Rest();
        if !IsDigit(Char()) {
          Fail();
          return false;
        }
        ConsumeDigits();
        assert Rest() == d[CountDigits(d)..];
      }
    }

    /** parse_json; a parser that has failed stays so */
    method ParseJson(depth: nat) returns (r: Json)
      requires Valid() && depth <= MAX_DEPTH + 1
      modifies this
      ensures Valid()
      ensures old(failed) ==> failed
      ensures !old(failed) ==> Took(ParseValue(old(Rest()), depth), r)
      decreases MAX_DEPTH + 1 - depth, 1
    {
      hide ParseMembers, ParseItems, ParseNumber, ParseString, Expect, SkipSpace;
      r := Null;
      if depth > MAX_DEPTH {
        Fail();
        return;
      }
      ghost var b := SkipSpace(Rest());
      var ch := GetNextToken();
      if failed {
        return;
      }
      assert b[1..] == Rest();
      if ch == MINUS || IsDigit(ch) {
        i := i - 1;
        r := ParseNumberLiteral();
      } else if ch == 116 {
        r := ExpectText(TRUE_TEXT, Bool(true));
      } else if ch == 102 {
        r := ExpectText(FALSE_TEXT, Bool(false));
      } else if ch == 110 {
        r := ExpectText(NULL_TEXT, Null);
      } else if ch == QUOTE {
        var s := ParseStringLiteral();
        r := String(s);
      } else if ch == OPEN_OBJECT {
        r := ParseObject(depth);
      } else if ch == OPEN_ARRAY {
        r := ParseArray(depth);
      } else {
        Fail();
      }
    }

    /** parse_json, from behind the brace on */
    method ParseObject(depth: nat) returns (r: Json)
      requires Valid() && !failed && depth <= MAX_DEPTH
      modifies this
      ensures Valid()
      ensures var t := SkipSpace(old(Rest()));
              Took(if First(t) == CLOSE_OBJECT then Parsed(Object([]), t[1..]) else ParseMembers(t, depth, []), r)
      decreases MAX_DEPTH + 1 - depth, 0
    {
      hide ParseValue, ParseString, SkipSpace, Assign, ParseMembers;
      r := Null;
      var data: seq<Member> := [];
      ghost var whole := ParseMembers(SkipSpace(Rest()), depth, []);
      MembersEnd([], depth, data);
      var ch := GetNextToken();
      if ch == CLOSE_OBJECT {
        return Object(data);
      }
      while true
        invariant Valid() && (failed ==> ch == 0 && whole.Malformed?)
        invariant !failed ==> i >= 1 && First(str[i - 1..]) == ch && ParseMembers(str[i - 1..], depth, data) == whole
        decreases |str| - i
      {
        if ch != QUOTE {
          if !failed {
            MembersEnd(str[i - 1..], depth, data);
          }
          Fail();
          return;
        }
        ghost var b, done := str[i - 1..], data;
        assert b[1..] == Rest();
        var key := ParseStringLiteral();
        MembersFail(b, depth, done);
        if failed {
          return;
        }
        ch := GetNextToken();
        if ch != COLON {
          Fail();
          return;
        }
        ghost var afterColon := Rest();
        assert SkipSpace(ParseString(b[1..], -1, []).rest)[1..] == afterColon;
        var value := ParseJson(depth + 1);
        data := Assign(data, key, value);
        if failed {
          return;
        }
        ghost var afterValue := Rest();
        MembersGoOn(b, depth, done);
        ch := GetNextToken();
        if ch == CLOSE_OBJECT {
          assert SkipSpace(afterValue)[1..] == Rest();
          break;
        }
        if ch != COMMA {
          Fail();
          return;
        }
        assert SkipSpace(afterValue)[1..] == Rest();
        MembersEnd([], depth, data);
        ch := GetNextToken();
      }
      r := Object(data);
    }

    /** parse_json, from behind the bracket on */
    method ParseArray(depth: nat) returns (r: Json)
      requires Valid() && !failed && depth <= MAX_DEPTH && i >= 1
      modifies this
      ensures Valid()
      ensures var t := SkipSpace(old(Rest()));
              Took(if First(t) == CLOSE_ARRAY then Parsed(Array([]), t[1..]) else ParseItems(t, depth, []), r)
      decreases MAX_DEPTH + 1 - depth, 0
    {
      hide ParseValue, SkipSpace, ParseItems;
      r := Null;
      var data := [];
      ghost var whole := ParseItems(SkipSpace(Rest()), depth, []);
      NoItems(depth, data);
      var ch := GetNextToken();
      if ch == CLOSE_ARRAY {
        return Array(data);
      }
      while true
        invariant Valid() && i >= 1 && (failed ==> whole.Malformed?)
        invariant !failed ==> ParseItems(str[i - 1..], depth, data) == whole
        decreases |str| - i
      {
        i := i - 1;
        ghost var b, done := Rest(), data;
        if !failed {
          ItemsGoOn(b, depth, done);
        }
        var item := ParseJson(depth + 1);
        data := data + [item];
        if failed {
          return;
        }
        ghost var afterItem := Rest();
        ch := GetNextToken();
        if ch == CLOSE_ARRAY {
          assert SkipSpace(afterItem)[1..] == Rest();
          break;
        }
        if ch != COMMA {
          Fail();
          return;
        }
        assert SkipSpace(afterItem)[1..] == Rest();
        NoItems(depth, data);
        ch := GetNextToken();
      }
      r := Array(data);
    }
  }

  lemma PrefixAt(s: seq<byte>, i: nat, p: seq<byte>)
    requires i <= |s|
    ensures p <= s[i..] <==> |p| <= |s| - i && s[i..i + |p|] == p
  {
    assert |p| <= |s| - i ==> s[i..i + |p|] == s[i..][..|p|];
  }

  lemma SliceOfSuffix(s: seq<byte>, i: nat, k: nat)
    requires i + k <= |s|
    ensures s[i..i + k] == s[i..][..k]
  {
  }

  lemma NumberFails(b: seq<byte>)
    ensures var d := Unsigned(b);
            var k := CountDigits(d);
            k == 0 || (d[0] == ZERO && k != 1) ==> ParseNumber(b).Malformed?
  {
    hide CountDigits, Value, SkipFraction, SkipExponent;
  }

  lemma NumberGoesOn(b: seq<byte>)
    requires CountDigits(Unsigned(b)) > 0 && (Unsigned(b)[0] == ZERO ==> CountDigits(Unsigned(b)) == 1)
    ensures var d := Unsigned(b);
            var k := CountDigits(d);
            var value: int := Value(d[..k]);
            ParseNumber(b) == AfterInteger(b, if First(b) == MINUS then -value else value, d[k..])
  {
    hide CountDigits, Value, AfterInteger;
  }

  /** Behind an integer that ends there the steps for fraction and exponent do nothing. */
  lemma AfterIntegerSteps(b: seq<byte>, n: int, rest: seq<byte>)
    requires |rest| < |b|
    ensures InteriorEnds(rest) ==>
              && AfterInteger(b, n, rest) == Parsed(Number(n), rest)
              && SkipFraction(rest) == Parsed((), rest) && SkipExponent(rest) == Parsed((), rest)
    ensures !InteriorEnds(rest) ==>
              var fraction := SkipFraction(rest);
              AfterInteger(b, n, rest)
              == if fraction.Malformed? then Malformed
                 else
                   var exponent := SkipExponent(fraction.rest);
                   if exponent.Malformed? then Malformed
                   else Parsed(Real(b[..|b| - |exponent.rest|]), exponent.rest)
  {
  }

  lemma InteriorByChar(rest: seq<byte>)
    ensures InteriorEnds(rest) <==> First(rest) != DOT && First(rest) != 101 && First(rest) != 69
  {
  }

  lemma MinusThere(b: seq<byte>)
    ensures First(b) == MINUS ==> b != []
    ensures Unsigned(b) == if First(b) == MINUS then b[1..] else b
  {
  }

  lemma ExponentThere(b: seq<byte>)
    ensures First(b) == 101 || First(b) == 69 ==> b != []
  {
  }

  lemma SignThere(b: seq<byte>)
    ensures First(b) == 43 || First(b) == MINUS ==> b != []
  {
  }

  lemma {:induction false} OneDigit(d: seq<byte>)
    ensures CountDigits(d) == 0 <==> !IsDigit(First(d))
    ensures IsDigit(First(d)) ==> (CountDigits(d) == 1 <==> !IsDigit(First(d[1..])))
  {
  }

  /** The loop over the members, round by round. */
  lemma {:induction false} MembersEnd(b: seq<byte>, depth: nat, done: seq<Member>)
    ensures First(b) != QUOTE ==> ParseMembers(b, depth, done).Malformed?
  {
  }

  lemma {:induction false} MembersFail(b: seq<byte>, depth: nat, done: seq<Member>)
    requires First(b) == QUOTE
    ensures var key := ParseString(b[1..], -1, []);
            && (key.Malformed? ==> ParseMembers(b, depth, done).Malformed?)
            && (key.Parsed? && First(SkipSpace(key.rest)) != COLON ==> ParseMembers(b, depth, done).Malformed?)
            && (key.Parsed? && First(SkipSpace(key.rest)) == COLON ==>
                  ParseValue(SkipSpace(key.rest)[1..], depth + 1).Malformed? ==> ParseMembers(b, depth, done).Malformed?)
  {
    hide ParseValue, ParseString, SkipSpace, Assign;
  }

  lemma MembersGoOn(b: seq<byte>, depth: nat, done: seq<Member>)
    requires First(b) == QUOTE
    requires var key := ParseString(b[1..], -1, []);
             && key.Parsed? && First(SkipSpace(key.rest)) == COLON
             && ParseValue(SkipSpace(key.rest)[1..], depth + 1).Parsed?
    ensures var key := ParseString(b[1..], -1, []);
            var value := ParseValue(SkipSpace(key.rest)[1..], depth + 1);
            var data, t := Assign(done, key.value, value.value), SkipSpace(value.rest);
            ParseMembers(b, depth, done)
            == if First(t) == CLOSE_OBJECT then Parsed(Object(data), t[1..])
               else if First(t) != COMMA then Malformed
               else ParseMembers(SkipSpace(t[1..]), depth, data)
  {
    hide ParseValue, ParseString, SkipSpace, Assign;
  }

  /** The loop over the items, round by round. */
  lemma {:induction false} NoItems(depth: nat, done: seq<Json>)
    ensures ParseItems([], depth, done).Malformed?
  {
  }

  lemma ItemsGoOn(b: seq<byte>, depth: nat, done: seq<Json>)
    ensures var item := ParseValue(b, depth + 1);
            ParseItems(b, depth, done)
            == if item.Malformed? then Malformed
               else
                 var t := SkipSpace(item.rest);
                 if First(t) == CLOSE_ARRAY then Parsed(Array(done + [item.value]), t[1..])
                 else if First(t) != COMMA then Malformed
                 else ParseItems(SkipSpace(t[1..]), depth, done + [item.value])
  {
    hide ParseValue, SkipSpace;
  }

  lemma {:induction false} ParseIs(b: seq<byte>)
    ensures var parsed := ParseValue(b, 0);
            Parse(b) == if parsed.Malformed? || SkipSpace(parsed.rest) != [] then Malformed else Parsed(parsed.value, [])
  {
    hide ParseValue, SkipSpace;
  }

  /** Json::parse; the null value when it fails */
  method ParseText(text: seq<byte>) returns (result: Json, ok: bool)
    ensures ok == Parse(text).Parsed?
    ensures result == if ok then Parse(text).value else Null
  {
    hide Parse, ParseValue, SkipSpace, First;
    ParseIs(text);
    var parser := new JsonParser(text);
    result := parser.ParseJson(0);
    ok := parser.Finish();
    if !ok {
      result := Null;
    }
  }

  /** Json::dump without a text to append to */
  method DumpText(v: Json) returns (text: seq<byte>)
    ensures text == Dump(v)
  {
    var out := new Output();
    DumpTo(v, out);
    text := out.text;
  }
}
