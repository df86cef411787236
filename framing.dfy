/**
 * Frame transport of src/core/messages.rs: `make_message` wraps an ASCII
 * payload in a 4-byte big-endian length prefix, `read_msg` takes one frame off
 * the front of a receive buffer and hands back the bytes that follow it.
 */
module Framing {
  import opened Wire
  import opened Utf8

  /** What `read_msg` returns: the declared size, the payload text, and the
      bytes left in the buffer. */
  datatype Decoded = Decoded(size: nat, text: string, rest: seq<Byte>)

  /** The payload size a buffer of at least four bytes declares: the prefix read
      as an i32 and cast to usize. A prefix with its top bit set declares a size
      no slice can hold. */
  function DeclaredSize(buf: seq<Byte>): (n: nat)
    requires |buf| >= 4
    ensures buf[0] < 0x80 ==> n == BeValue(buf[..4])
    ensures buf[0] >= 0x80 ==> n > MAX_SLICE_LEN
  {
    Int32ToUsize(Int32FromBeBytes(buf[..4]))
  }

  /** The buffer holds a whole frame: the prefix and all the payload it declares. */
  predicate HasFullFrame(buf: seq<Byte>) {
    |buf| >= 4 && |buf| - 4 >= DeclaredSize(buf)
  }

  /** `read_msg` unwraps `String::from_utf8` on a complete payload, so a complete
      payload that is not UTF-8 makes it panic. */
  predicate PayloadDecodes(buf: seq<Byte>) {
    HasFullFrame(buf) ==> Decode(buf[4..4 + DeclaredSize(buf)]).Some?
  }

  /** `read_msg`: the first frame of the buffer and what follows it; when the
      buffer is short, the buffer itself, whole, with an empty text. */
  function ReadMsg(buf: seq<Byte>): (r: Result<Decoded>)
    requires PayloadDecodes(buf)
    ensures r.Ok?
    ensures |buf| < 4 ==> r.value == Decoded(0, "", buf)
    ensures |buf| >= 4 ==> r.value.size == DeclaredSize(buf)
    ensures !HasFullFrame(buf) ==> r.value.text == "" && r.value.rest == buf
    ensures HasFullFrame(buf) ==>
      && buf == buf[..4 + r.value.size] + r.value.rest
      && Decode(buf[4..4 + r.value.size]) == Some(r.value.text)
  {
    if |buf| < 4 then
      Ok(Decoded(0, "", buf))
    else
      var size := DeclaredSize(buf);
      if |buf| - 4 >= size then
        Ok(Decoded(size, Decode(buf[4..4 + size]).value, buf[4 + size..]))
      else
        Ok(Decoded(size, "", buf))
  }

  /** The bytes `make_message` produces: `msg.len() as i32` in big-endian order,
      then the ASCII bytes of the message. */
  function Frame(msg: string): (f: seq<Byte>)
    requires IsAscii(msg)
    ensures |f| == 4 + |msg|
    ensures f[4..] == AsciiBytes(msg)
    ensures |msg| < TWO_31 ==> f[0] < 0x80 && BeValue(f[..4]) == |msg|
  {
    var prefix := Int32ToBeBytes(WrapToInt32(|msg|));
    BeBytesRoundTrip(WrapToInt32(|msg|));
    assert (prefix + AsciiBytes(msg))[..4] == prefix;
    prefix + AsciiBytes(msg)
  }

  /** Whatever the length of the message, the payload the prefix of its frame
      declares (if present) is ASCII, so reading the frame never panics. */
  lemma FramePayloadDecodes(msg: string)
    requires IsAscii(msg)
    ensures PayloadDecodes(Frame(msg))
  {
    var f := Frame(msg);
    if HasFullFrame(f) {
      var size := DeclaredSize(f);
      assert f[4..4 + size] == AsciiBytes(msg)[..size];
      AsciiBytesSlice(msg, 0, size);
      DecodeAscii(msg[..size]);
    }
  }

  /** `make_message`: builds the frame in a buffer, re-reads it as a self-check
      and returns it. */
  method MakeMessage(msg: string) returns (r: Result<seq<Byte>>)
    requires IsAscii(msg)
    ensures r == Ok(Frame(msg))
    ensures |r.value| == 4 + |msg| && r.value[4..] == AsciiBytes(msg)
    ensures PayloadDecodes(r.value)
    ensures |msg| < TWO_31 ==> ReadMsg(r.value) == Ok(Decoded(|msg|, msg, []))
  {
    var buffer: seq<Byte> := [];
    buffer := buffer + Int32ToBeBytes(WrapToInt32(|msg|));
    buffer := buffer + AsciiBytes(msg);
    var tmp := buffer;
    assert tmp == Frame(msg);
    // The self-check: its precondition is what makes it never panic, and its
    // result is always Ok, so the `?` never propagates an error.
    FramePayloadDecodes(msg);
    var _ := ReadMsg(tmp);
    if |msg| < TWO_31 {
      ReadFrame(msg, []);
      assert Frame(msg) + [] == Frame(msg);
    }
    r := Ok(tmp);
  }

  /** A frame followed by any bytes is read back as the message, its length and
      exactly those bytes. */
  lemma ReadFrame(msg: string, rest: seq<Byte>)
    requires IsAscii(msg) && |msg| < TWO_31
    ensures PayloadDecodes(Frame(msg) + rest)
    ensures ReadMsg(Frame(msg) + rest) == Ok(Decoded(|msg|, msg, rest))
  {
    var f := Frame(msg);
    var buf := f + rest;
    assert buf[..4] == f[..4];
    assert DeclaredSize(buf) == |msg|;
    assert buf[4..4 + |msg|] == AsciiBytes(msg);
    DecodeAscii(msg);
    assert buf[4 + |msg|..] == rest;
  }

  /** Two frames in a row are read in order, the second from the rest of the first. */
  lemma ReadTwoFrames(m1: string, m2: string, rest: seq<Byte>)
    requires IsAscii(m1) && |m1| < TWO_31
    requires IsAscii(m2) && |m2| < TWO_31
    ensures PayloadDecodes(Frame(m1) + Frame(m2) + rest)
    ensures ReadMsg(Frame(m1) + Frame(m2) + rest) == Ok(Decoded(|m1|, m1, Frame(m2) + rest))
    ensures PayloadDecodes(Frame(m2) + rest)
    ensures ReadMsg(Frame(m2) + rest) == Ok(Decoded(|m2|, m2, rest))
  {
    assert Frame(m1) + Frame(m2) + rest == Frame(m1) + (Frame(m2) + rest);
    ReadFrame(m1, Frame(m2) + rest);
    ReadFrame(m2, rest);
  }

  /** Every proper prefix of a frame is incomplete: it comes back whole, with an
      empty text, and with the declared size once the prefix is there. */
  lemma PartialFrameUntouched(msg: string, k: nat)
    requires IsAscii(msg) && |msg| < TWO_31 && k < 4 + |msg|
    ensures PayloadDecodes(Frame(msg)[..k])
    ensures ReadMsg(Frame(msg)[..k]) == Ok(Decoded(if k < 4 then 0 else |msg|, "", Frame(msg)[..k]))
  {
    var buf := Frame(msg)[..k];
    if k >= 4 {
      assert buf[..4] == Frame(msg)[..4];
      assert DeclaredSize(buf) == |msg|;
    }
  }

  /** The caller tells "need more bytes" from a read frame by the buffer alone:
      it comes back whole exactly when it holds no complete frame. */
  lemma IncompleteIffWhole(buf: seq<Byte>)
    requires PayloadDecodes(buf)
    ensures ReadMsg(buf).value.rest == buf <==> !HasFullFrame(buf)
  {
    if HasFullFrame(buf) {
      assert |ReadMsg(buf).value.rest| < |buf|;
    }
  }

  /** A prefix with its top bit set (a negative i32) never counts as complete,
      however many bytes follow it in a buffer a slice can hold. */
  lemma NegativePrefixNeverComplete(buf: seq<Byte>)
    requires 4 <= |buf| <= MAX_SLICE_LEN && buf[0] >= 0x80
    ensures PayloadDecodes(buf)
    ensures ReadMsg(buf) == Ok(Decoded(DeclaredSize(buf), "", buf))
  {
  }

  /** `msg.len() as i32` wraps: a message of 2^31 bytes or more gets a negative
      prefix when its length is below 2^32, and its own frame is then never
      read as complete. */
  lemma OversizedFrameUnreadable(msg: string)
    requires IsAscii(msg) && TWO_31 <= |msg| < TWO_32 && |msg| + 4 <= MAX_SLICE_LEN
    ensures PayloadDecodes(Frame(msg))
    ensures ReadMsg(Frame(msg)).value.text == "" && ReadMsg(Frame(msg)).value.rest == Frame(msg)
  {
    var f := Frame(msg);
    var v := WrapToInt32(|msg|);
    assert v < 0;
    assert f[..4] == Int32ToBeBytes(v);
    BeBytesRoundTrip(v);
  }
}
