// The JSON printer and parser (third-party/json11.cpp) as functions on bytes, and the
// proof that the parser undoes the printer.
module Json {
  import opened Bytes
  import opened ByteOrder
  import opened Decimal

  const MAX_DEPTH: nat := 200

  /** A number is an int; Real keeps the text of a number with a fraction or an exponent. */
  datatype Json =
    | Null
    | Bool(truth: bool)
    | Number(number: int)
    | Real(text: seq<byte>)
    | String(chars: seq<byte>)
    | Array(items: seq<Json>)
    | Object(members: seq<Member>)

  datatype Member = Member(key: seq<byte>, value: Json)

  /** std::map::operator[] with an assignment: an entry already there is replaced. */
  function Assign(members: seq<Member>, key: seq<byte>, value: Json): seq<Member> {
    if members == [] || Less(key, members[0].key) then [Member(key, value)] + members
    else if members[0].key == key then [Member(key, value)] + members[1..]
    else [members[0]] + Assign(members[1..], key, value)
  }

  const QUOTE: byte := 34
  const BACKSLASH: byte := 92
  const COMMA: byte := 44
  const COLON: byte := 58
  const MINUS: byte := 45
  const DOT: byte := 46
  const ZERO: byte := 48
  const OPEN_ARRAY: byte := 91
  const CLOSE_ARRAY: byte := 93
  const OPEN_OBJECT: byte := 123
  const CLOSE_OBJECT: byte := 125
  const SPACE: byte := 32
  const LETTER_U: byte := 117
  const NULL_TEXT: seq<byte> := [110, 117, 108, 108]
  const TRUE_TEXT: seq<byte> := [116, 114, 117, 101]
  const FALSE_TEXT: seq<byte> := [102, 97, 108, 115, 101]

  // --- Printing

  function HexDigit(n: nat): byte
    requires n < 16
  {
    if n < 10 then 48 + n else 87 + n
  }

  function Escaped(c: byte): (e: seq<byte>)
    ensures e != []
  {
    if c == BACKSLASH then [BACKSLASH, BACKSLASH]
    else if c == QUOTE then [BACKSLASH, QUOTE]
    else if c == 8 then [BACKSLASH, 98]
    else if c == 12 then [BACKSLASH, 102]
    else if c == 10 then [BACKSLASH, 110]
    else if c == 13 then [BACKSLASH, 114]
    else if c == 9 then [BACKSLASH, 116]
    else if c <= 0x1f then [BACKSLASH, LETTER_U, ZERO, ZERO, HexDigit(c / 16), HexDigit(c % 16)]
    else [c]
  }

  /** U+2028 and U+2029 in UTF-8, which are escaped as a whole. */
  predicate LineSeparator(s: seq<byte>) {
    |s| >= 3 && s[0] == 0xe2 && s[1] == 0x80 && (s[2] == 0xa8 || s[2] == 0xa9)
  }

  function EscapedSeparator(third: byte): seq<byte> {
    [BACKSLASH, LETTER_U, 50, ZERO, 50, if third == 0xa8 then 56 else 57]
  }

  function DumpChars(s: seq<byte>): seq<byte> {
    if s == [] then []
    else if LineSeparator(s) then
      EscapedSeparator(s[2]) + DumpChars(s[3..])
    else Escaped(s[0]) + DumpChars(s[1..])
  }

  function DumpString(s: seq<byte>): seq<byte> {
    [QUOTE] + DumpChars(s) + [QUOTE]
  }

  function DumpInt(n: int): seq<byte> {
    if n < 0 then [MINUS] + Numeral(-n) else Numeral(n)
  }

  function Dump(v: Json): seq<byte>
    decreases v
  {
    match v
    case Null => NULL_TEXT
    case Bool(truth) => if truth then TRUE_TEXT else FALSE_TEXT
    case Number(n) => DumpInt(n)
    case Real(text) => text
    case String(s) => DumpString(s)
    case Array(items) => [OPEN_ARRAY] + DumpItems(items) + [CLOSE_ARRAY]
    case Object(members) => [OPEN_OBJECT] + DumpMembers(members) + [CLOSE_OBJECT]
  }

  function DumpItems(items: seq<Json>): seq<byte>
    decreases items
  {
    if items == [] then []
    else Dump(items[0]) + (if |items| > 1 then [COMMA, SPACE] else []) + DumpItems(items[1..])
  }

  function DumpMembers(members: seq<Member>): seq<byte>
    decreases members
  {
    if members == [] then []
    else
      DumpString(members[0].key) + [COLON, SPACE] + Dump(members[0].value)
      + (if |members| > 1 then [COMMA, SPACE] else []) + DumpMembers(members[1..])
  }

  // --- Parsing

  /** The byte at the front, NUL at the end of the text. */
  function First(b: seq<byte>): byte {
    if b == [] then 0 else b[0]
  }

  predicate IsSpace(c: byte) {
    c == 32 || c == 13 || c == 10 || c == 9
  }

  function SkipSpace(b: seq<byte>): (r: seq<byte>)
    ensures |r| <= |b|
    ensures b != [] && !IsSpace(b[0]) ==> r == b
  {
    if IsSpace(First(b)) then SkipSpace(b[1..]) else b
  }

  /** encode_utf8; the negative code point stands for none. */
  function Utf8(pt: int): seq<byte>
    requires pt < 0x11_0000
  {
    if pt < 0 then []
    else if pt < 0x80 then [pt]
    else if pt < 0x800 then [0xC0 + pt / 64, 0x80 + pt % 64]
    else if pt < 0x1_0000 then [0xE0 + pt / 4096, 0x80 + pt / 64 % 64, 0x80 + pt % 64]
    else [0xF0 + pt / 0x4_0000, 0x80 + pt / 4096 % 64, 0x80 + pt / 64 % 64, 0x80 + pt % 64]
  }

  predicate IsHex(c: byte) {
    48 <= c <= 57 || 97 <= c <= 102 || 65 <= c <= 70
  }

  function HexDigitValue(c: byte): (v: nat)
    requires IsHex(c)
    ensures v < 16
  {
    if c <= 57 then c - 48 else if c <= 70 then c - 55 else c - 87
  }

  function CodePoint(b: seq<byte>): (pt: nat)
    requires |b| >= 4 && forall i | 0 <= i < 4 :: IsHex(b[i])
    ensures pt < 0x1_0000
  {
    HexDigitValue(b[0]) * 4096 + HexDigitValue(b[1]) * 256 + HexDigitValue(b[2]) * 16 + HexDigitValue(b[3])
  }

  predicate IsLead(pt: int) {
    0xD800 <= pt <= 0xDBFF
  }

  predicate IsTrail(pt: int) {
    0xDC00 <= pt <= 0xDFFF
  }

  type EscapedPoint = pt: int | -1 <= pt < 0x1_0000

  /** The character a simple escape stands for. */
  function Unescaped(c: byte): Parsed<byte> {
    if c == 98 then Parsed(8, [])
    else if c == 102 then Parsed(12, [])
    else if c == 110 then Parsed(10, [])
    else if c == 114 then Parsed(13, [])
    else if c == 116 then Parsed(9, [])
    else if c == QUOTE || c == BACKSLASH || c == 47 then Parsed(c, [])
    else Malformed
  }

  /** The loop of parse_string: last is the code point of an escape that is still held back. */
  function ParseString(b: seq<byte>, last: EscapedPoint, out: seq<byte>): (r: Parsed<seq<byte>>)
    ensures r.Parsed? ==> |r.rest| < |b|
    decreases |b|
  {
    if b == [] then Malformed
    else if b[0] == QUOTE then Parsed(out + Utf8(last), b[1..])
    else if b[0] <= 0x1f then Malformed
    else if b[0] != BACKSLASH then ParseString(b[1..], -1, out + Utf8(last) + [b[0]])
    else if |b| == 1 then Malformed
    else if b[1] == LETTER_U then
      if |b| < 6 || exists i | 2 <= i < 6 :: !IsHex(b[i]) then Malformed
      else
        var pt := CodePoint(b[2..6]);
        if IsLead(last) && IsTrail(pt) then
          ParseString(b[6..], -1, out + Utf8((last - 0xD800) * 1024 + (pt - 0xDC00) + 0x1_0000))
        else ParseString(b[6..], pt, out + Utf8(last))
    else if Unescaped(b[1]).Malformed? then Malformed
    else ParseString(b[2..], -1, out + Utf8(last) + [Unescaped(b[1]).value])
  }

  /** How many digits stand at the front. */
  function CountDigits(b: seq<byte>): (k: nat)
    ensures k <= |b|
    ensures forall i | 0 <= i < k :: IsDigit(b[i])
    ensures k < |b| ==> !IsDigit(b[k])
  {
    if b != [] && IsDigit(b[0]) then 1 + CountDigits(b[1..]) else 0
  }

  /** A fraction, if there is one, with at least one digit. */
  function SkipFraction(b: seq<byte>): (r: Parsed<()>)
    ensures r.Parsed? ==> |r.rest| <= |b|
  {
    if First(b) != DOT then Parsed((), b)
    else if !IsDigit(First(b[1..])) then Malformed
    else Parsed((), b[1..][CountDigits(b[1..])..])
  }

  /** An exponent, if there is one, with at least one digit. */
  function SkipExponent(b: seq<byte>): (r: Parsed<()>)
    ensures r.Parsed? ==> |r.rest| <= |b|
  {
    if First(b) != 101 && First(b) != 69 then Parsed((), b)
    else
      var d := if First(b[1..]) == 43 || First(b[1..]) == MINUS then b[2..] else b[1..];
      if !IsDigit(First(d)) then Malformed else Parsed((), d[CountDigits(d)..])
  }

  predicate InteriorEnds(b: seq<byte>) {
    First(b) != DOT && First(b) != 101 && First(b) != 69
  }

  /** The digits of a number, behind its sign. */
  function Unsigned(b: seq<byte>): (d: seq<byte>)
    ensures |d| <= |b|
  {
    if First(b) == MINUS then b[1..] else b
  }

  /** What comes behind the integer part n of the number at the front of b. */
  function AfterInteger(b: seq<byte>, n: int, rest: seq<byte>): (r: Parsed<Json>)
    requires |rest| < |b|
    ensures r.Parsed? ==> |r.rest| < |b|
  {
    if InteriorEnds(rest) then Parsed(Number(n), rest)
    else
      var (_, rest) :- SkipFraction(rest);
      var (_, rest) :- SkipExponent(rest);
      Parsed(Real(b[..|b| - |rest|]), rest)
  }

  function ParseNumber(b: seq<byte>): (r: Parsed<Json>)
    ensures r.Parsed? ==> |r.rest| < |b|
  {
    var d := Unsigned(b);
    var k := CountDigits(d);
    if k == 0 || (d[0] == ZERO && k > 1) then Malformed
    else
      var value: int := Value(d[..k]);
      AfterInteger(b, if First(b) == MINUS then -value else value, d[k..])
  }

  function Expect(b: seq<byte>, expected: seq<byte>, v: Json): (r: Parsed<Json>)
    requires expected != []
    ensures r.Parsed? ==> |r.rest| < |b|
  {
    if expected <= b then Parsed(v, b[|expected|..]) else Malformed
  }

  function ParseValue(b: seq<byte>, depth: nat): (r: Parsed<Json>)
    ensures r.Parsed? ==> |r.rest| < |b|
    decreases |b|, 1
  {
    if depth > MAX_DEPTH then Malformed
    else
      var b := SkipSpace(b);
      if b == [] then Malformed
      else if b[0] == MINUS || IsDigit(b[0]) then ParseNumber(b)
      else if b[0] == 116 then Expect(b, TRUE_TEXT, Bool(true))
      else if b[0] == 102 then Expect(b, FALSE_TEXT, Bool(false))
      else if b[0] == 110 then Expect(b, NULL_TEXT, Null)
      else if b[0] == QUOTE then
        var (s, rest) :- ParseString(b[1..], -1, []);
        Parsed(String(s), rest)
      else if b[0] == OPEN_OBJECT then
        var t := SkipSpace(b[1..]);
        if First(t) == CLOSE_OBJECT then Parsed(Object([]), t[1..]) else ParseMembers(t, depth, [])
      else if b[0] == OPEN_ARRAY then
        var t := SkipSpace(b[1..]);
        if First(t) == CLOSE_ARRAY then Parsed(Array([]), t[1..]) else ParseItems(t, depth, [])
      else Malformed
  }

  /** The rest of an object, from the quote of a key on. */
  function ParseMembers(b: seq<byte>, depth: nat, done: seq<Member>): (r: Parsed<Json>)
    ensures r.Parsed? ==> |r.rest| < |b|
    decreases |b|, 0
  {
    if First(b) != QUOTE then Malformed
    else
      var (key, b) :- ParseString(b[1..], -1, []);
      var b := SkipSpace(b);
      if First(b) != COLON then Malformed
      else
        var (v, b) :- ParseValue(b[1..], depth + 1);
        var done := Assign(done, key, v);
        var b := SkipSpace(b);
        if First(b) == CLOSE_OBJECT then Parsed(Object(done), b[1..])
        else if First(b) != COMMA then Malformed
        else ParseMembers(SkipSpace(b[1..]), depth, done)
  }

  /** The rest of an array, from an item on. */
  function ParseItems(b: seq<byte>, depth: nat, done: seq<Json>): (r: Parsed<Json>)
    ensures r.Parsed? ==> |r.rest| < |b|
    decreases |b|, 2
  {
    var (v, b) :- ParseValue(b, depth + 1);
    var done := done + [v];
    var b := SkipSpace(b);
    if First(b) == CLOSE_ARRAY then Parsed(Array(done), b[1..])
    else if First(b) != COMMA then Malformed
    else ParseItems(SkipSpace(b[1..]), depth, done)
  }

  /** Json::parse */
  function Parse(b: seq<byte>): Parsed<Json> {
    var (v, rest) :- ParseValue(b, 0);
    if SkipSpace(rest) == [] then Parsed(v, []) else Malformed
  }
}
