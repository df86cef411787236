/**
 * The pieces of src/core/messages.rs used together, as a client and the
 * gateway use them: values are turned into fields, the fields into one
 * payload, the payload into a frame; on the other side the frame is read off
 * the receive buffer and its payload split back into fields.
 */
module Pipeline {
  import opened Wire
  import opened Utf8
  import opened Framing
  import opened FieldCodec
  import Decimal
  import RequestCodes
  import RequestShapes

  /** Values whose fields can travel: no NUL inside a field, and ASCII, as
      `make_message` demands of the whole payload. */
  predicate Sendable(vals: seq<FieldValue>) {
    forall i :: 0 <= i < |vals| ==> NulFree(vals[i]) && AsciiValue(vals[i])
  }

  /** The payload of ASCII values is ASCII. */
  lemma {:induction false} EncodeAscii(vals: seq<FieldValue>)
    requires forall i :: 0 <= i < |vals| ==> AsciiValue(vals[i])
    ensures IsAscii(Encode(vals))
  {
    if vals != [] {
      EncodeAscii(vals[1..]);
      FieldAscii(vals[0]);
      var f, t := Field(vals[0]), Encode(vals[1..]);
      assert Encode(vals) == f + t;
      forall k | 0 <= k < |f + t|
        ensures (f + t)[k] < 128 as char
      {
        if k >= |f| {
          assert (f + t)[k] == t[k - |f|];
        }
      }
    }
  }

  /** A framed payload of sendable values, read off the front of a buffer,
      comes back as the payload, the bytes after it untouched, and the payload
      splits into the texts of the values, in order. */
  lemma SendReceive(vals: seq<FieldValue>, rest: seq<Byte>)
    requires Sendable(vals) && |Encode(vals)| < TWO_31
    ensures IsAscii(Encode(vals))
    ensures PayloadDecodes(Frame(Encode(vals)) + rest)
    ensures ReadMsg(Frame(Encode(vals)) + rest) == Ok(Decoded(|Encode(vals)|, Encode(vals), rest))
    ensures Fields(Encode(vals)) == Texts(vals)
  {
    EncodeAscii(vals);
    ReadFrame(Encode(vals), rest);
    ReadEncodedFields(vals);
  }

  /** A request's code, written as its first field, is read back and mapped by
      `from_i32` to the same request. */
  lemma RequestCodeReadsBack(d: RequestCodes.ServerReqMsgDiscriminant, vals: seq<FieldValue>)
    requires forall i :: 0 <= i < |vals| ==> NulFree(vals[i])
    ensures |Fields(Encode([I32(RequestCodes.Code(d))] + vals))| >= 1
    ensures Decimal.ParseInt(Fields(Encode([I32(RequestCodes.Code(d))] + vals))[0]) == Some(RequestCodes.Code(d))
    ensures RequestCodes.FromCode(RequestCodes.Code(d)) == Some(d)
  {
    var all := [I32(RequestCodes.Code(d))] + vals;
    assert all[0] == I32(RequestCodes.Code(d)) && all[1..] == vals;
    ReadEncodedFields(all);
    TextsAt(all, 0);
    I32FieldReadsBack(RequestCodes.Code(d));
    RequestCodes.FromCodeOfCode(d);
  }

  /** The family-codes request has no field of its own, so its payload is its
      code alone, "80" and a NUL, and its frame is the three-byte length prefix
      followed by those bytes. */
  lemma FamilyCodesScenario()
    ensures RequestShapes.Shape(RequestCodes.ReqFamilyCodes) == RequestShapes.NoFields
    ensures RequestCodes.Code(RequestCodes.ReqFamilyCodes) == 80
    ensures Encode([I32(80)]) == "80\0"
    ensures Frame("80\0") == [0, 0, 0, 3, 0x38, 0x30, 0]
  {
    assert Decimal.NatText(80) == "80";
    assert Encode([I32(80)]) == Field(I32(80)) + Encode([]);
  }

  /** `read_fields` on "a", NUL, "b", NUL, NUL keeps the empty field between
      the last two NULs and drops the empty tail. */
  lemma SplitExample()
    ensures Fields("a\0b\0\0") == ["a", "b", ""]
  {
    assert "a\0b\0\0" == Join(["a", "b", ""]) + "";
    FieldsJoin(["a", "b", ""], "");
  }
}
