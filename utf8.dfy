/**
 * The UTF-8 decoding that `String::from_utf8` performs on a frame's payload,
 * and the ASCII subset that `as_ascii_str` admits on the way out. Well-formed
 * byte sequences are those of section 4 of RFC 3629: no overlong forms, no
 * surrogates, nothing above U+10FFFF.
 */
module Utf8 {
  import opened Wire

  predicate IsContinuation(b: Byte) {
    0x80 <= b <= 0xBF
  }

  /** The length of the well-formed UTF-8 sequence that starts `b`, or 0 when
      `b` does not start with one. */
  function LeadLength(b: seq<Byte>): (n: nat)
    ensures n <= 4 && n <= |b|
    ensures b != [] && b[0] < 0x80 ==> n == 1
  {
    if |b| == 0 then 0
    else if b[0] <= 0x7F then 1
    else if 0xC2 <= b[0] <= 0xDF then
      if |b| >= 2 && IsContinuation(b[1]) then 2 else 0
    else if b[0] == 0xE0 then
      if |b| >= 3 && 0xA0 <= b[1] <= 0xBF && IsContinuation(b[2]) then 3 else 0
    else if 0xE1 <= b[0] <= 0xEC || 0xEE <= b[0] <= 0xEF then
      if |b| >= 3 && IsContinuation(b[1]) && IsContinuation(b[2]) then 3 else 0
    else if b[0] == 0xED then
      if |b| >= 3 && 0x80 <= b[1] <= 0x9F && IsContinuation(b[2]) then 3 else 0
    else if b[0] == 0xF0 then
      if |b| >= 4 && 0x90 <= b[1] <= 0xBF && IsContinuation(b[2]) && IsContinuation(b[3]) then 4 else 0
    else if 0xF1 <= b[0] <= 0xF3 then
      if |b| >= 4 && IsContinuation(b[1]) && IsContinuation(b[2]) && IsContinuation(b[3]) then 4 else 0
    else if b[0] == 0xF4 then
      if |b| >= 4 && 0x80 <= b[1] <= 0x8F && IsContinuation(b[2]) && IsContinuation(b[3]) then 4 else 0
    else 0
  }

  /** The Unicode scalar value that the well-formed sequence of length `n` at
      the start of `b` encodes. */
  function ScalarValue(b: seq<Byte>, n: nat): (c: int)
    requires 0 < n && LeadLength(b) == n
    ensures 0 <= c < 0xD800 || 0xE000 <= c < 0x11_0000
    ensures n == 1 <==> c < 0x80
  {
    var b0 := b[0] as int;
    if n == 1 then b0
    else if n == 2 then (b0 - 0xC0) * 0x40 + (b[1] as int - 0x80)
    else if n == 3 then (b0 - 0xE0) * 0x1000 + (b[1] as int - 0x80) * 0x40 + (b[2] as int - 0x80)
    else (b0 - 0xF0) * 0x4_0000 + (b[1] as int - 0x80) * 0x1000 + (b[2] as int - 0x80) * 0x40 + (b[3] as int - 0x80)
  }

  /** `String::from_utf8`: the text the bytes encode, or None when they are
      not well-formed UTF-8. */
  function Decode(b: seq<Byte>): (r: Option<string>)
    ensures r.Some? ==> |r.value| <= |b|
    decreases |b|
  {
    if b == [] then Some("")
    else
      var n := LeadLength(b);
      if n == 0 then None
      else
        match Decode(b[n..])
        case None => None
        case Some(rest) => Some([ScalarValue(b, n) as char] + rest)
  }

  predicate IsAscii(s: string) {
    forall i :: 0 <= i < |s| ==> s[i] < 128 as char
  }

  /** `as_ascii_str().as_bytes()`: one byte per ASCII character, its code. */
  function AsciiBytes(s: string): (b: seq<Byte>)
    requires IsAscii(s)
    ensures |b| == |s|
    ensures forall i :: 0 <= i < |s| ==> b[i] == s[i] as int
  {
    seq(|s|, i requires 0 <= i < |s| => s[i] as int)
  }

  /** A slice of the bytes of an ASCII text is the bytes of the same slice of
      the text. */
  lemma AsciiBytesSlice(s: string, i: nat, j: nat)
    requires IsAscii(s) && i <= j <= |s|
    ensures IsAscii(s[i..j]) && AsciiBytes(s)[i..j] == AsciiBytes(s[i..j])
  {
  }

  /** ASCII bytes are well-formed UTF-8 and decode back to the same text. */
  lemma {:induction false} DecodeAscii(s: string)
    requires IsAscii(s)
    ensures Decode(AsciiBytes(s)) == Some(s)
  {
    var b := AsciiBytes(s);
    if s != [] {
      assert IsAscii(s[1..]);
      assert b[1..] == AsciiBytes(s[1..]);
      DecodeAscii(s[1..]);
      assert LeadLength(b) == 1;
      assert ScalarValue(b, 1) as char == s[0];
      assert s == [s[0]] + s[1..];
    }
  }
}
