// What the parser takes for a string or a number (section 6 and 7 of RFC 8259): exactly what can be spelled
// character by character, with the bytes that this spelling stands for.
module JsonStrings {
  import opened Prelude
  import opened Bytes
  import opened Decimal
  import opened Json

  // --- UTF-8

  predicate Continues(c: byte) {
    0x80 <= c < 0xC0
  }

  /** The bytes are the UTF-8 encoding of the code point (section 3 of RFC 3629). */
  predicate Encodes(b: seq<byte>, pt: nat) {
    || (|b| == 1 && b[0] < 0x80 && pt == b[0])
    || (|b| == 2 && 0xC0 <= b[0] < 0xE0 && Continues(b[1]) && pt >= 0x80
        && pt == Bits(b[0], 0xC0) * 0x40 + Bits(b[1], 0x80))
    || (|b| == 3 && 0xE0 <= b[0] < 0xF0 && Continues(b[1]) && Continues(b[2]) && pt >= 0x800
        && pt == Bits(b[0], 0xE0) * 0x1000 + Bits(b[1], 0x80) * 0x40 + Bits(b[2], 0x80))
    || (|b| == 4 && 0xF0 <= b[0] < 0xF8 && Continues(b[1]) && Continues(b[2]) && Continues(b[3]) && pt >= 0x1_0000
        && pt == Bits(b[0], 0xF0) * 0x4_0000 + Bits(b[1], 0x80) * 0x1000 + Bits(b[2], 0x80) * 0x40 + Bits(b[3], 0x80))
  }

  /** What a byte carries behind its mark. */
  function Bits(c: byte, mark: int): int {
    c - mark
  }

  lemma Utf8Encodes(pt: nat)
    requires pt < 0x11_0000
    ensures Encodes(Utf8(pt), pt)
  {
    assert pt == pt / 64 * 64 + pt % 64;
    assert pt / 64 == pt / 4096 * 64 + pt / 64 % 64;
    assert pt / 4096 == pt / 0x4_0000 * 64 + pt / 4096 % 64;
  }

  lemma OneEncoding(a: seq<byte>, b: seq<byte>, pt: nat)
    requires Encodes(a, pt) && Encodes(b, pt)
    ensures a == b
  {
    SameLength(a, b, pt);
    assert a[0] == b[0];
    if |a| > 1 {
      assert a[1] == b[1];
    }
  }

  lemma SameLength(a: seq<byte>, b: seq<byte>, pt: nat)
    requires Encodes(a, pt) && Encodes(b, pt)
    ensures |a| == |b|
  {
    LengthBounds(a, pt);
    LengthBounds(b, pt);
  }

  lemma LengthBounds(a: seq<byte>, pt: nat)
    requires Encodes(a, pt)
    ensures |a| == if pt < 0x80 then 1 else if pt < 0x800 then 2 else if pt < 0x1_0000 then 3 else 4
  {
  }

  /** What is written for a code point is its one encoding. */
  lemma Utf8Iff(pt: nat, b: seq<byte>)
    requires pt < 0x11_0000
    ensures b == Utf8(pt) <==> Encodes(b, pt)
  {
    hide Utf8, Encodes;
    Utf8Encodes(pt);
    if Encodes(b, pt) {
      OneEncoding(b, Utf8(pt), pt);
    }
  }

  // --- Escapes

  /** Hexadecimal digits are taken in both cases. */
  lemma HexDigitIsRead(n: nat)
    requires n < 16
    ensures IsHex(HexDigit(n)) && HexDigitValue(HexDigit(n)) == n
    ensures n >= 10 ==> IsHex(HexDigit(n) - 32) && HexDigitValue(HexDigit(n) - 32) == n
  {
  }

  lemma OnlyHexDigits(c: byte)
    requires IsHex(c)
    ensures c == HexDigit(HexDigitValue(c)) || c == HexDigit(HexDigitValue(c)) - 32
  {
  }

  /** The first digit weighs most. */
  lemma PointOfDigits(pt: nat)
    requires pt < 0x1_0000
    ensures CodePoint([HexDigit(pt / 4096), HexDigit(pt / 256 % 16), HexDigit(pt / 16 % 16), HexDigit(pt % 16)]) == pt
  {
    assert pt == pt / 16 * 16 + pt % 16;
    assert pt / 16 == pt / 256 * 16 + pt / 16 % 16;
    assert pt / 256 == pt / 4096 * 16 + pt / 256 % 16;
  }

  /** The code point of a surrogate pair (section 2.2 of RFC 2781). */
  function PairPoint(lead: nat, trail: nat): (pt: nat)
    requires IsLead(lead) && IsTrail(trail)
    ensures 0x1_0000 <= pt < 0x11_0000
  {
    0x1_0000 + (lead - 0xD800) * 0x400 + (trail - 0xDC00)
  }

  lemma EveryPointHasAPair(pt: nat)
    requires 0x1_0000 <= pt < 0x11_0000
    ensures var lead, trail := 0xD800 + (pt - 0x1_0000) / 0x400, 0xDC00 + (pt - 0x1_0000) % 0x400;
            IsLead(lead) && IsTrail(trail) && PairPoint(lead, trail) == pt
  {
  }

  /** Behind a backslash the letter stands for c: b, f, n, r and t for control characters, three for themselves. */
  predicate StandsFor(letter: byte, c: byte) {
    || (c == 8 && letter == 98) || (c == 12 && letter == 102) || (c == 10 && letter == 110)
    || (c == 13 && letter == 114) || (c == 9 && letter == 116)
    || (c == letter && (letter == QUOTE || letter == BACKSLASH || letter == 47))
  }

  /** How a character can be written. */
  datatype Char = Plain(c: byte) | Short(c: byte, letter: byte) | Point(digits: seq<byte>)

  ghost predicate Allowed(ch: Char) {
    match ch
    case Plain(c) => c > 0x1f && c != QUOTE && c != BACKSLASH
    case Short(c, letter) => StandsFor(letter, c)
    case Point(digits) => |digits| == 4 && forall i | 0 <= i < 4 :: IsHex(digits[i])
  }

  ghost predicate AllAllowed(chars: seq<Char>) {
    forall i | 0 <= i < |chars| :: Allowed(chars[i])
  }

  function Spelled(ch: Char): seq<byte> {
    match ch
    case Plain(c) => [c]
    case Short(c, letter) => [BACKSLASH, letter]
    case Point(digits) => [BACKSLASH, LETTER_U] + digits
  }

  function AllSpelled(chars: seq<Char>): seq<byte> {
    if chars == [] then [] else Spelled(chars[0]) + AllSpelled(chars[1..])
  }

  predicate IsPair(a: Char, b: Char)
    requires Allowed(a) && Allowed(b)
  {
    a.Point? && b.Point? && IsLead(CodePoint(a.digits)) && IsTrail(CodePoint(b.digits))
  }

  /** What the characters stand for: two escapes that are a surrogate pair stand for one code point. */
  function Meaning(chars: seq<Char>): seq<byte>
    requires AllAllowed(chars)
    decreases |chars|
  {
    if chars == [] then []
    else if |chars| > 1 && IsPair(chars[0], chars[1]) then
      Utf8(PairPoint(CodePoint(chars[0].digits), CodePoint(chars[1].digits))) + Meaning(chars[2..])
    else
      var first :=
        match chars[0]
        case Plain(c) => [c]
        case Short(c, letter) => [c]
        case Point(digits) => Utf8(CodePoint(digits));
      first + Meaning(chars[1..])
  }

  // --- The parser with a code point held back

  /** The code point held back after a character, and what has been put out for it. */
  datatype Held = Held(last: EscapedPoint, out: seq<byte>)

  function After(ch: Char, last: EscapedPoint): Held
    requires Allowed(ch)
  {
    match ch
    case Plain(c) => Held(-1, Utf8(last) + [c])
    case Short(c, _) => Held(-1, Utf8(last) + [c])
    case Point(digits) =>
      var pt := CodePoint(digits);
      if IsLead(last) && IsTrail(pt) then Held(-1, Utf8(PairPoint(last, pt))) else Held(pt, Utf8(last))
  }

  function MeaningAfter(last: EscapedPoint, chars: seq<Char>): seq<byte>
    requires AllAllowed(chars)
    decreases |chars|
  {
    if chars == [] then Utf8(last)
    else
      var h := After(chars[0], last);
      h.out + MeaningAfter(h.last, chars[1..])
  }

  /** To hold a code point back is to look at it together with what follows. */
  lemma {:induction false} NothingHeldBack(chars: seq<Char>)
    requires AllAllowed(chars)
    ensures MeaningAfter(-1, chars) == Meaning(chars)
    decreases |chars|
  {
    hide Utf8, CodePoint;
    NoPointIsEmpty();
    if chars != [] {
      if chars[0].Point? {
        HeldBackIsFirst(chars[0], chars[1..]);
        assert [chars[0]] + chars[1..] == chars;
      } else {
        NothingHeldBack(chars[1..]);
      }
    }
  }

  lemma NoPointIsEmpty()
    ensures Utf8(-1) == []
  {
  }

  lemma {:induction false} HeldBackIsFirst(first: Char, chars: seq<Char>)
    requires Allowed(first) && first.Point? && AllAllowed(chars)
    ensures MeaningAfter(CodePoint(first.digits), chars) == Meaning([first] + chars)
    decreases |chars|
  {
    hide Utf8, CodePoint;
    var all := [first] + chars;
    assert all[1..] == chars;
    if chars == [] {
      assert Meaning(all) == Utf8(CodePoint(first.digits)) + Meaning([]);
    } else {
      assert all[2..] == chars[1..];
      NothingHeldBack(chars[1..]);
      if chars[0].Point? {
        HeldBackIsFirst(chars[0], chars[1..]);
        assert [chars[0]] + chars[1..] == chars;
      }
    }
  }

  lemma ShortIsUnescaped(letter: byte)
    ensures Unescaped(letter).Parsed? <==> exists c :: StandsFor(letter, c)
    ensures forall c :: StandsFor(letter, c) ==> Unescaped(letter).value == c && letter != LETTER_U
  {
    if Unescaped(letter).Parsed? {
      assert StandsFor(letter, Unescaped(letter).value);
    }
  }

  lemma {:induction false} OneIsRead(ch: Char, tail: seq<byte>, last: EscapedPoint, out: seq<byte>)
    requires Allowed(ch)
    ensures ParseString(Spelled(ch) + tail, last, out) == ParseString(tail, After(ch, last).last, out + After(ch, last).out)
  {
    hide Utf8, CodePoint, IsHex, Unescaped;
    var b := Spelled(ch) + tail;
    match ch
    case Plain(c) =>
      assert b[1..] == tail;
      assert out + (Utf8(last) + [c]) == out + Utf8(last) + [c];
    case Short(c, letter) =>
      ShortIsUnescaped(letter);
      assert b[2..] == tail;
      assert out + (Utf8(last) + [c]) == out + Utf8(last) + [c];
    case Point(digits) =>
      assert b[2..6] == digits && b[6..] == tail;
      assert forall i | 2 <= i < 6 :: b[i] == digits[i - 2];
  }

  /** All that can be spelled is read, as what it stands for. */
  lemma {:induction false} CharsAreRead(chars: seq<Char>, last: EscapedPoint, out: seq<byte>, rest: seq<byte>)
    requires AllAllowed(chars)
    ensures ParseString(AllSpelled(chars) + ([QUOTE] + rest), last, out)
         == Parsed(out + MeaningAfter(last, chars), rest)
    decreases |chars|
  {
    hide Utf8, CodePoint, ParseString, Spelled, After;
    var end := [QUOTE] + rest;
    if chars == [] {
      EndIsRead(last, out, rest);
      assert AllSpelled(chars) + end == end;
    } else {
      var tail := AllSpelled(chars[1..]) + end;
      assert AllSpelled(chars) + end == Spelled(chars[0]) + tail;
      OneIsRead(chars[0], tail, last, out);
      var h := After(chars[0], last);
      CharsAreRead(chars[1..], h.last, out + h.out, rest);
      Regroup(out, h.out, MeaningAfter(h.last, chars[1..]));
    }
  }

  lemma {:induction false} EndIsRead(last: EscapedPoint, out: seq<byte>, rest: seq<byte>)
    ensures ParseString([QUOTE] + rest, last, out) == Parsed(out + Utf8(last), rest)
  {
    assert ([QUOTE] + rest)[1..] == rest;
  }

  /** The character at the front of what is read as a string. */
  lemma FirstIsSpelled(b: seq<byte>, last: EscapedPoint, out: seq<byte>) returns (ch: Char, tail: seq<byte>)
    requires ParseString(b, last, out).Parsed? && b[0] != QUOTE
    ensures Allowed(ch) && b == Spelled(ch) + tail && |tail| < |b|
  {
    hide Utf8, CodePoint, IsHex, Unescaped;
    if b[0] != BACKSLASH {
      ch, tail := Plain(b[0]), b[1..];
    } else if b[1] == LETTER_U {
      ch, tail := Point(b[2..6]), b[6..];
      assert b == [b[0], b[1]] + b[2..6] + b[6..];
    } else {
      ShortIsUnescaped(b[1]);
      var c :| StandsFor(b[1], c);
      ch, tail := Short(c, b[1]), b[2..];
    }
  }

  lemma {:induction false} StringIsNotEmpty(b: seq<byte>, last: EscapedPoint, out: seq<byte>)
    requires ParseString(b, last, out).Parsed?
    ensures b != []
    ensures b[0] == QUOTE ==> ParseString(b, last, out).rest == b[1..]
  {
  }

  /** All that is read was spelled. */
  lemma {:induction false} ReadIsSpelled(b: seq<byte>, last: EscapedPoint, out: seq<byte>) returns (chars: seq<Char>)
    requires ParseString(b, last, out).Parsed?
    ensures AllAllowed(chars) && b == AllSpelled(chars) + [QUOTE] + ParseString(b, last, out).rest
    decreases |b|
  {
    hide Utf8, CodePoint, ParseString, Spelled, After;
    StringIsNotEmpty(b, last, out);
    if b[0] == QUOTE {
      chars := [];
    } else {
      var ch, tail := FirstIsSpelled(b, last, out);
      OneIsRead(ch, tail, last, out);
      var more := ReadIsSpelled(tail, After(ch, last).last, out + After(ch, last).out);
      chars := [ch] + more;
      assert chars[1..] == more;
    }
  }

  /** The text b is a string that stands for s, a quote, and the rest. */
  ghost predicate IsString(b: seq<byte>, chars: seq<Char>, s: seq<byte>, rest: seq<byte>) {
    AllAllowed(chars) && b == AllSpelled(chars) + ([QUOTE] + rest) && s == Meaning(chars)
  }

  /** A string is read exactly when it is spelled, whatever the spelling, and as what it stands for. */
  lemma {:induction false} StringIff(b: seq<byte>, s: seq<byte>, rest: seq<byte>)
    ensures ParseString(b, -1, []) == Parsed(s, rest) <==> exists chars :: IsString(b, chars, s, rest)
  {
    hide ParseString, Spelled, Meaning, MeaningAfter;
    if ParseString(b, -1, []) == Parsed(s, rest) {
      var chars := ReadIsSpelled(b, -1, []);
      StringIsRead(chars, rest);
      Regroup(AllSpelled(chars), [QUOTE], rest);
      assert IsString(b, chars, s, rest);
    }
    if chars :| IsString(b, chars, s, rest) {
      StringIsRead(chars, rest);
    }
  }

  lemma {:induction false} StringIsRead(chars: seq<Char>, rest: seq<byte>)
    requires AllAllowed(chars)
    ensures ParseString(AllSpelled(chars) + ([QUOTE] + rest), -1, []) == Parsed(Meaning(chars), rest)
  {
    hide ParseString, Spelled, Meaning, MeaningAfter;
    CharsAreRead(chars, -1, [], rest);
    NothingHeldBack(chars);
    assert [] + Meaning(chars) == Meaning(chars);
  }

  // --- Numbers

  datatype Exponent = Exponent(letter: byte, sign: seq<byte>, digits: seq<byte>)

  datatype NumberText = NumberText(
    negative: bool, digits: seq<byte>, fraction: Option<seq<byte>>, exponent: Option<Exponent>)

  predicate SomeDigits(s: seq<byte>) {
    s != [] && AllDigits(s)
  }

  /** The numbers of section 6 of RFC 8259: digits without a leading zero, with a fraction and an exponent or without. */
  predicate IsNumber(n: NumberText) {
    && SomeDigits(n.digits) && (|n.digits| > 1 ==> n.digits[0] != ZERO)
    && (n.fraction.Some? ==> SomeDigits(n.fraction.value))
    && (n.exponent.Some? ==>
          var e := n.exponent.value;
          && (e.letter == 101 || e.letter == 69) && (e.sign == [] || e.sign == [43] || e.sign == [MINUS])
          && SomeDigits(e.digits))
  }

  function FractionText(fraction: Option<seq<byte>>): seq<byte> {
    if fraction.None? then [] else [DOT] + fraction.value
  }

  function ExponentText(exponent: Option<Exponent>): seq<byte> {
    if exponent.None? then [] else [exponent.value.letter] + exponent.value.sign + exponent.value.digits
  }

  function SignText(negative: bool): seq<byte> {
    if negative then [MINUS] else []
  }

  function TextOfNumber(n: NumberText): seq<byte> {
    SignText(n.negative) + n.digits + FractionText(n.fraction) + ExponentText(n.exponent)
  }

  /** An integer is its value; of other numbers the text is kept. */
  function NumberMeaning(n: NumberText): Json
    requires IsNumber(n)
  {
    var value: int := Value(n.digits);
    if n.fraction.None? && n.exponent.None? then Number(if n.negative then -value else value)
    else Real(TextOfNumber(n))
  }

  /** What follows does not make the number longer. */
  predicate EndsNumber(n: NumberText, rest: seq<byte>) {
    && !IsDigit(First(rest))
    && (n.exponent.None? ==> First(rest) != 101 && First(rest) != 69)
    && (n.exponent.None? && n.fraction.None? ==> First(rest) != DOT)
  }

  lemma {:induction false} DigitsEnd(digits: seq<byte>, rest: seq<byte>)
    requires AllDigits(digits) && !IsDigit(First(rest))
    ensures CountDigits(digits + rest) == |digits|
  {
    if digits == [] {
      assert digits + rest == rest;
    } else {
      assert (digits + rest)[1..] == digits[1..] + rest;
      DigitsEnd(digits[1..], rest);
    }
  }

  lemma FractionIsRead(fraction: Option<seq<byte>>, rest: seq<byte>)
    requires fraction.Some? ==> SomeDigits(fraction.value)
    requires !IsDigit(First(rest)) && (fraction.None? ==> First(rest) != DOT)
    ensures SkipFraction(FractionText(fraction) + rest) == Parsed((), rest)
  {
    var b := FractionText(fraction) + rest;
    if fraction.None? {
      assert b == rest;
    } else {
      DigitsEnd(fraction.value, rest);
      assert b[1..] == fraction.value + rest;
    }
  }

  lemma ExponentSplits(e: Exponent, rest: seq<byte>)
    requires IsNumber(NumberText(false, [ZERO], None, Some(e)))
    ensures var b := ExponentText(Some(e)) + rest;
            && b[0] == e.letter && |b| > 1
            && b[1..] == e.sign + (e.digits + rest)
  {
    var b := ExponentText(Some(e)) + rest;
    assert b == [e.letter] + (e.sign + (e.digits + rest));
  }

  lemma SignIsSkipped(sign: seq<byte>, digits: seq<byte>, rest: seq<byte>)
    requires sign == [] || sign == [43] || sign == [MINUS]
    requires SomeDigits(digits)
    ensures var t := sign + (digits + rest);
            (if First(t) == 43 || First(t) == MINUS then t[1..] else t) == digits + rest
    ensures IsDigit(First(digits + rest))
  {
    var t := sign + (digits + rest);
    assert (digits + rest)[0] == digits[0];
    if sign == [] {
      assert t == digits + rest;
    } else {
      assert t[0] == sign[0] && t[1..] == digits + rest;
    }
  }

  lemma ExponentIsRead(exponent: Option<Exponent>, rest: seq<byte>)
    requires IsNumber(NumberText(false, [ZERO], None, exponent))
    requires !IsDigit(First(rest)) && (exponent.None? ==> First(rest) != 101 && First(rest) != 69)
    ensures SkipExponent(ExponentText(exponent) + rest) == Parsed((), rest)
  {
    hide CountDigits, IsDigit;
    var b := ExponentText(exponent) + rest;
    if exponent.None? {
      assert b == rest;
    } else {
      hide ExponentText;
      var e := exponent.value;
      ExponentSplits(e, rest);
      SignIsSkipped(e.sign, e.digits, rest);
      DigitsEnd(e.digits, rest);
      assert (e.digits + rest)[|e.digits|..] == rest;
    }
  }

  lemma ExponentStarts(n: NumberText, rest: seq<byte>)
    requires IsNumber(n) && EndsNumber(n, rest)
    ensures var tail := ExponentText(n.exponent) + rest; !IsDigit(First(tail)) && (n.fraction.None? ==> First(tail) != DOT)
    ensures var tail := FractionText(n.fraction) + (ExponentText(n.exponent) + rest);
            !IsDigit(First(tail)) && (InteriorEnds(tail) <==> n.fraction.None? && n.exponent.None?)
  {
    var tail := ExponentText(n.exponent) + rest;
    if n.exponent.None? {
      assert tail == rest;
    } else {
      assert tail[0] == n.exponent.value.letter;
    }
    if n.fraction.None? {
      assert FractionText(n.fraction) + tail == tail;
    }
  }

  lemma NumberSplits(n: NumberText, rest: seq<byte>)
    requires IsNumber(n)
    ensures var b := TextOfNumber(n) + rest;
            var tail := FractionText(n.fraction) + (ExponentText(n.exponent) + rest);
            Unsigned(b) == n.digits + tail && (First(b) == MINUS <==> n.negative)
  {
    hide FractionText, ExponentText;
    var b := TextOfNumber(n) + rest;
    var tail := FractionText(n.fraction) + (ExponentText(n.exponent) + rest);
    assert b == SignText(n.negative) + (n.digits + tail);
    if n.negative {
      assert b[1..] == n.digits + tail;
    } else {
      assert b == n.digits + tail && b[0] == n.digits[0];
    }
  }

  /** Every number is read up to where it ends. */
  lemma NumberIsRead(n: NumberText, rest: seq<byte>)
    requires IsNumber(n) && EndsNumber(n, rest)
    ensures ParseNumber(TextOfNumber(n) + rest) == Parsed(NumberMeaning(n), rest)
  {
    hide CountDigits, SkipFraction, SkipExponent, FractionText, ExponentText, Value, InteriorEnds, TextOfNumber, Unsigned;
    var b := TextOfNumber(n) + rest;
    var tail := FractionText(n.fraction) + (ExponentText(n.exponent) + rest);
    NumberSplits(n, rest);
    ExponentStarts(n, rest);
    DigitsEnd(n.digits, tail);
    assert Unsigned(b)[..|n.digits|] == n.digits && Unsigned(b)[|n.digits|..] == tail;
    FractionIsRead(n.fraction, ExponentText(n.exponent) + rest);
    ExponentIsRead(n.exponent, rest);
    if n.fraction.None? && n.exponent.None? {
      IntegerTail(n, rest);
    } else {
      assert b[..|b| - |rest|] == TextOfNumber(n);
    }
  }

  lemma IntegerTail(n: NumberText, rest: seq<byte>)
    requires n.fraction.None? && n.exponent.None?
    ensures FractionText(n.fraction) + (ExponentText(n.exponent) + rest) == rest
  {
  }

  lemma ReadFraction(b: seq<byte>) returns (fraction: Option<seq<byte>>)
    requires SkipFraction(b).Parsed?
    ensures b == FractionText(fraction) + SkipFraction(b).rest && (fraction.Some? ==> SomeDigits(fraction.value))
    ensures fraction.None? ==> First(b) != DOT
    ensures fraction.Some? ==> !IsDigit(First(SkipFraction(b).rest))
  {
    if First(b) != DOT {
      fraction := None;
    } else {
      var k := CountDigits(b[1..]);
      fraction := Some(b[1..][..k]);
      assert b == [b[0]] + b[1..][..k] + b[1..][k..];
    }
  }

  lemma ReadSign(b: seq<byte>) returns (sign: seq<byte>, d: seq<byte>)
    requires b != []
    ensures sign == [] || sign == [43] || sign == [MINUS]
    ensures d == if First(b[1..]) == 43 || First(b[1..]) == MINUS then b[2..] else b[1..]
    ensures b == [b[0]] + sign + d
  {
    if First(b[1..]) == 43 || First(b[1..]) == MINUS {
      sign, d := [b[1]], b[2..];
    } else {
      sign, d := [], b[1..];
    }
  }

  lemma {:induction false} DigitsAtFront(d: seq<byte>)
    requires IsDigit(First(d))
    ensures var k := CountDigits(d);
            SomeDigits(d[..k]) && d == d[..k] + d[k..] && !IsDigit(First(d[k..]))
  {
  }

  lemma ExponentRejoins(e: Exponent, b: seq<byte>, d: seq<byte>, rest: seq<byte>)
    requires b == [e.letter] + e.sign + d && d == e.digits + rest
    ensures b == ExponentText(Some(e)) + rest
  {
  }

  lemma ReadExponent(b: seq<byte>) returns (exponent: Option<Exponent>)
    requires SkipExponent(b).Parsed?
    ensures b == ExponentText(exponent) + SkipExponent(b).rest && IsNumber(NumberText(false, [ZERO], None, exponent))
    ensures exponent.None? ==> First(b) != 101 && First(b) != 69
    ensures exponent.Some? ==> !IsDigit(First(SkipExponent(b).rest))
  {
    if First(b) != 101 && First(b) != 69 {
      exponent := None;
    } else {
      hide CountDigits, IsDigit, ExponentText;
      var sign, d := ReadSign(b);
      DigitsAtFront(d);
      var k := CountDigits(d);
      exponent := Some(Exponent(b[0], sign, d[..k]));
      ExponentRejoins(exponent.value, b, d, d[k..]);
      ZeroIsNumber(exponent);
    }
  }

  lemma ZeroIsNumber(exponent: Option<Exponent>)
    requires exponent.Some?
    requires exponent.value.letter == 101 || exponent.value.letter == 69
    requires exponent.value.sign == [] || exponent.value.sign == [43] || exponent.value.sign == [MINUS]
    requires SomeDigits(exponent.value.digits)
    ensures IsNumber(NumberText(false, [ZERO], None, exponent))
  {
    assert IsDigit(ZERO);
  }

  lemma ReadTail(
      b: seq<byte>, negative: bool, digits: seq<byte>, tail: seq<byte>) returns (n: NumberText, rest: seq<byte>)
    requires SomeDigits(digits) && (|digits| > 1 ==> digits[0] != ZERO) && !IsDigit(First(tail))
    requires b == SignText(negative) + (digits + tail)
    requires InteriorEnds(tail) || (SkipFraction(tail).Parsed? && SkipExponent(SkipFraction(tail).rest).Parsed?)
    ensures IsNumber(n) && EndsNumber(n, rest) && b == TextOfNumber(n) + rest
    ensures rest == if InteriorEnds(tail) then tail else SkipExponent(SkipFraction(tail).rest).rest
  {
    hide SkipFraction, SkipExponent, FractionText, ExponentText, TextOfNumber;
    if InteriorEnds(tail) {
      n, rest := NumberText(negative, digits, None, None), tail;
      IntegerTail(n, rest);
    } else {
      var fraction := ReadFraction(tail);
      var after := SkipFraction(tail).rest;
      var exponent := ReadExponent(after);
      rest := SkipExponent(after).rest;
      n := NumberText(negative, digits, fraction, exponent);
      NothingThere(fraction, exponent, after, rest);
    }
    TextJoins(n, rest);
  }

  lemma NothingThere(fraction: Option<seq<byte>>, exponent: Option<Exponent>, after: seq<byte>, rest: seq<byte>)
    ensures fraction.None? ==> FractionText(fraction) + after == after
    ensures exponent.None? ==> ExponentText(exponent) + rest == rest
  {
  }

  lemma TextJoins(n: NumberText, rest: seq<byte>)
    ensures TextOfNumber(n) + rest
         == SignText(n.negative) + (n.digits + (FractionText(n.fraction) + (ExponentText(n.exponent) + rest)))
  {
    hide SignText, FractionText, ExponentText;
  }

  /** All that is read as a number is one. */
  lemma ReadIsNumber(b: seq<byte>) returns (n: NumberText)
    requires ParseNumber(b).Parsed?
    ensures IsNumber(n) && EndsNumber(n, ParseNumber(b).rest) && b == TextOfNumber(n) + ParseNumber(b).rest
  {
    hide SkipFraction, SkipExponent, IsNumber, EndsNumber, TextOfNumber, InteriorEnds;
    var d := Unsigned(b);
    var k := CountDigits(d);
    assert d == d[..k] + d[k..];
    var rest;
    n, rest := ReadTail(b, First(b) == MINUS, d[..k], d[k..]);
  }

  /** A number is read exactly when it is one, up to where it ends. */
  lemma NumberIff(b: seq<byte>, v: Json, rest: seq<byte>)
    ensures ParseNumber(b) == Parsed(v, rest)
       <==> exists n :: IsNumber(n) && EndsNumber(n, rest) && b == TextOfNumber(n) + rest && v == NumberMeaning(n)
  {
    hide ParseNumber, IsNumber, EndsNumber, TextOfNumber, NumberMeaning;
    if ParseNumber(b) == Parsed(v, rest) {
      var n := ReadIsNumber(b);
      NumberIsRead(n, rest);
    }
    if n :| IsNumber(n) && EndsNumber(n, rest) && b == TextOfNumber(n) + rest && v == NumberMeaning(n) {
      NumberIsRead(n, rest);
    }
  }
}
