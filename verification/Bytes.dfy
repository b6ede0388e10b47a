// Bytes in network order, as rtc::ByteBufferWriter appends them and
// rtc::ByteBufferReader takes them off the front.
module Bytes {

  type byte = x: int | 0 <= x < 256
  type uint32 = x: int | 0 <= x < 0x1_0000_0000

  /** What reading from the front of a buffer gives: a value and the unread bytes, or nothing. */
  datatype Parsed<+T> = Malformed | Parsed(value: T, rest: seq<byte>) {
    predicate IsFailure() {
      Malformed?
    }

    function PropagateFailure<U>(): Parsed<U>
      requires Malformed?
    {
      Malformed
    }

    function Extract(): (T, seq<byte>)
      requires Parsed?
    {
      (value, rest)
    }
  }

  function U16(n: int): (b: seq<byte>)
    requires 0 <= n < 0x1_0000
    ensures |b| == 2
  {
    [n / 256, n % 256]
  }

  function U32(n: uint32): (b: seq<byte>)
    ensures |b| == 4
  {
    [n / 0x100_0000, n / 0x1_0000 % 256, n / 256 % 256, n % 256]
  }

  function ReadU8(b: seq<byte>): Parsed<byte> {
    if |b| < 1 then Malformed else Parsed(b[0], b[1..])
  }

  function ReadU16(b: seq<byte>): Parsed<int> {
    if |b| < 2 then Malformed else Parsed(b[0] as int * 256 + b[1], b[2..])
  }

  function ReadU32(b: seq<byte>): Parsed<uint32> {
    if |b| < 4 then Malformed
    else Parsed(((b[0] as int * 256 + b[1]) * 256 + b[2]) * 256 + b[3], b[4..])
  }

  function ReadBytes(b: seq<byte>, length: nat): Parsed<seq<byte>> {
    if |b| < length then Malformed else Parsed(b[..length], b[length..])
  }

  lemma ReadsBackU16(n: int, rest: seq<byte>)
    requires 0 <= n < 0x1_0000
    ensures ReadU16(U16(n) + rest) == Parsed(n, rest)
  {
    assert (U16(n) + rest)[2..] == rest;
  }

  lemma ReadsBackU32(n: uint32, rest: seq<byte>)
    ensures ReadU32(U32(n) + rest) == Parsed(n, rest)
  {
    var b := U32(n) + rest;
    assert b[4..] == rest;
    assert b[0] == n / 0x100_0000 && b[1] == n / 0x1_0000 % 256 && b[2] == n / 256 % 256 && b[3] == n % 256;
    assert n / 256 == (n / 0x1_0000) * 256 + n / 256 % 256;
    assert n / 0x1_0000 == (n / 0x100_0000) * 256 + n / 0x1_0000 % 256;
  }

  lemma ReadsBackBytes(data: seq<byte>, rest: seq<byte>)
    ensures ReadBytes(data + rest, |data|) == Parsed(data, rest)
  {
    assert (data + rest)[..|data|] == data && (data + rest)[|data|..] == rest;
  }
}
