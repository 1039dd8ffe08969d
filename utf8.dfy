/// UTF-8 as the Go runtime writes it (section 3 of RFC 3629): how many bytes a
/// Unicode scalar value takes, and which bytes those are.  Dafny's `char` is a
/// Unicode scalar value, so surrogates and values above U+10FFFF cannot occur.
module Utf8 {

  type byte = b: int | 0 <= b < 256

  /** Byte length of `c` in UTF-8 (Go's utf8.RuneLen on a valid scalar value). */
  function RuneLen(c: char): (n: int)
    ensures 1 <= n <= 4
  {
    var v := c as int;
    if v < 0x80 then 1 else if v < 0x800 then 2 else if v < 0x1_0000 then 3 else 4
  }

  /** Number of bytes that `s` occupies once encoded (a strings.Builder's Len). */
  function ByteLen(s: string): nat
  {
    if s == [] then 0 else RuneLen(s[0]) + ByteLen(s[1..])
  }

  /** A byte that continues a multi-byte sequence: 10xxxxxx. */
  predicate IsContinuation(b: byte) { 0x80 <= b < 0xC0 }

  /** The sequence length announced by a leading byte, 0 for a continuation byte
      or a byte that never starts a sequence. */
  function SequenceLength(lead: byte): int
  {
    if lead < 0x80 then 1
    else if lead < 0xC0 then 0
    else if lead < 0xE0 then 2
    else if lead < 0xF0 then 3
    else if lead < 0xF8 then 4
    else 0
  }

  /** The UTF-8 encoding of one scalar value (the bytes strings.Builder.WriteRune appends). */
  function EncodeRune(c: char): (bs: seq<byte>)
    ensures |bs| == RuneLen(c)
    ensures SequenceLength(bs[0]) == |bs|
    ensures forall k :: 1 <= k < |bs| ==> IsContinuation(bs[k])
  {
    var v := c as int;
    if v < 0x80 then [v]
    else if v < 0x800 then [0xC0 + v / 64, 0x80 + v % 64]
    else if v < 0x1_0000 then [0xE0 + v / 64 / 64, 0x80 + v / 64 % 64, 0x80 + v % 64]
    else [0xF0 + v / 64 / 64 / 64, 0x80 + v / 64 / 64 % 64, 0x80 + v / 64 % 64, 0x80 + v % 64]
  }

  /** The scalar value carried by a well-formed sequence: the payload bits of the
      leading byte followed by six bits from each continuation byte. */
  function DecodeValue(bs: seq<byte>): int
    requires |bs| >= 1 && SequenceLength(bs[0]) == |bs|
  {
    var n := |bs|;
    var lead: int := if n == 1 then bs[0] else if n == 2 then bs[0] as int - 0xC0
                else if n == 3 then bs[0] as int - 0xE0 else bs[0] as int - 0xF0;
    if n == 1 then lead
    else if n == 2 then lead * 64 + (bs[1] as int - 0x80)
    else if n == 3 then (lead * 64 + (bs[1] as int - 0x80)) * 64 + (bs[2] as int - 0x80)
    else ((lead * 64 + (bs[1] as int - 0x80)) * 64 + (bs[2] as int - 0x80)) * 64 + (bs[3] as int - 0x80)
  }

  /** Decoding undoes encoding: no information is lost in a single code point. */
  lemma EncodeRuneRoundTrip(c: char)
    ensures DecodeValue(EncodeRune(c)) == c as int
  {
    var v := c as int;
    var v1 := v / 64;
    var v2 := v1 / 64;
    assert v == v1 * 64 + v % 64 && v1 == v2 * 64 + v1 % 64 && v2 == v2 / 64 * 64 + v2 % 64;
  }

  /** The UTF-8 encoding of a whole string. */
  function Encode(s: string): seq<byte>
  {
    if s == [] then [] else EncodeRune(s[0]) + Encode(s[1..])
  }

  /** ByteLen counts exactly the bytes of the encoding. */
  lemma {:induction false} EncodeLength(s: string)
    ensures |Encode(s)| == ByteLen(s)
  {
    if s != [] {
      EncodeLength(s[1..]);
    }
  }

  /** Encoding distributes over concatenation: cutting a string between two code
      points cuts its encoding between two whole sequences. */
  lemma {:induction false} EncodeAppend(a: string, b: string)
    ensures Encode(a + b) == Encode(a) + Encode(b)
  {
    if a == [] {
      assert a + b == b;
    } else {
      assert (a + b)[0] == a[0] && (a + b)[1..] == a[1..] + b;
      EncodeAppend(a[1..], b);
    }
  }

  lemma {:induction false} ByteLenAppend(a: string, b: string)
    ensures ByteLen(a + b) == ByteLen(a) + ByteLen(b)
  {
    if a == [] {
      assert a + b == b;
    } else {
      assert (a + b)[0] == a[0] && (a + b)[1..] == a[1..] + b;
      ByteLenAppend(a[1..], b);
    }
  }
}
