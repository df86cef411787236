# Message layer of the IB TWS API client, in Dafny

This project models the wire-protocol message layer of a Rust client for the
Interactive Brokers TWS gateway (`src/core/messages.rs`), and proves
properties of that model:

- **Frame transport**: `make_message` puts a 4-byte big-endian `i32` length
  in front of an ASCII payload. `read_msg` takes one frame off the front of a
  receive buffer. If the buffer holds no complete frame, it hands back the
  buffer whole.
- **Field codec**: `make_field` and `make_field_handle_empty` turn one value
  into a NUL-terminated field, with the unset sentinels written as an empty
  field. `read_fields` splits a payload on NUL and drops the unterminated
  tail.
- **Message catalogs**:
  - the numeric discriminants of the gateway's messages
    (`ServerRspMsgDiscriminants`) and of the client's requests
    (`ServerReqMsgDiscriminants`), each with the `FromPrimitive` inverse;
  - the `FAMessageDataTypes` codes;
  - the version-field shape of every `ServerReqMsg` variant.

Files and modules:

| file | modules | what |
|---|---|---|
| `wire.dfy` | `Wire` | bytes, `i32`/`usize` conversions, big-endian prefix, `Option`/`Result` |
| `utf8.dfy` | `Utf8` | `String::from_utf8` as an RFC 3629 decoder; the ASCII subset |
| `decimal.dfy` | `Decimal` | the decimal text of an integer, with a reference parser |
| `framing.dfy` | `Framing` | `make_message`, `read_msg` |
| `fields.dfy` | `FieldCodec` | `make_field`, `make_field_handle_empty`, `read_fields` |
| `catalog.dfy` | `FaMessageData`, `ResponseCodes`, `RequestCodes` | the discriminant tables |
| `request_shape.dfy` | `RequestShapes` | whether each request opens with a `version` field |
| `pipeline.dfy` | `Pipeline` | the pieces used together, end to end |

`make_message` and `make_field` build their result step by step in a
local buffer, so they are methods (`Framing.MakeMessage`,
`FieldCodec.MakeField`), each proved against a specification function
(`Frame`, `Field`). `read_fields` collects pieces in a loop, so
`FieldCodec.ReadFields` is a method too; it is proved equal to the function
`Fields`, which every lemma about splitting uses. `read_msg` and
`make_field_handle_empty` only branch and compute, so they are functions.

Facts about the code that the model follows:

- The length prefix is written as an `i32`, not as an unsigned length: the
  code writes `msg.len() as i32` and reads the prefix back as an `i32` cast
  to `usize`. A prefix with its top bit set therefore declares a size no
  buffer reaches, and a message of 2^31 bytes or more wraps
  (`Framing.OversizedFrameUnreadable`).
- Invalid UTF-8 in a payload and non-ASCII outbound text are not returned
  as errors: the code `unwrap`s both and panics. The model turns each panic
  into a precondition: `IsAscii` for `MakeMessage`, `PayloadDecodes` for
  `ReadMsg`.
- "Need more bytes" is not a separate outcome: `read_msg` returns `Ok` with
  an empty text and the whole buffer. The caller can still tell the two
  apart, because the buffer comes back whole exactly when no frame was
  complete (`Framing.IncompleteIffWhole`).
- Response code 48 is missing from `ServerRspMsgDiscriminants`, as well as
  codes 22–44 and 60.

## Model

| member | source | states |
|---|---|---|
| Wire.WrapToInt32 | src/core/messages.rs:996 | `len as i32`: a length below 2^31 is kept; the result is negative exactly when bit 31 of the length is set; it is congruent to the length modulo 2^32 |
| Wire.Int32ToUsize | src/core/messages.rs:1017 | `i32 as usize` keeps a non-negative value and sends a negative one beyond the largest slice length |
| Wire.Int32ToBeBytes | src/core/messages.rs:996 | `i32::to_be_bytes` gives four bytes whose big-endian value is the `i32` modulo 2^32, its two's complement bits |
| Wire.Int32FromBeBytes | src/core/messages.rs:1017 | the prefix read as `i32` is negative exactly when its first byte has the top bit set |
| Wire.BeBytesRoundTrip | src/core/messages.rs:996 | reading back the four bytes `to_be_bytes` wrote gives the same `i32` |
| Wire.BeBytesOnto | src/core/messages.rs:1017 | every 4-byte prefix is the big-endian encoding of the `i32` read from it |
| Utf8.ScalarValue | src/core/messages.rs:1021 | a well-formed sequence decodes to a Unicode scalar value (no surrogate, at most U+10FFFF), one byte long exactly when below 0x80 |
| Utf8.Decode | src/core/messages.rs:1021 | `String::from_utf8`: on success the text has no more characters than there were bytes; weaker, see "## Left out" |
| Utf8.AsciiBytes | src/core/messages.rs:998 | `as_ascii_str().as_bytes()` gives one byte per character, the character's code |
| Utf8.DecodeAscii | src/core/messages.rs:1021 | `String::from_utf8` accepts the bytes of any ASCII text and returns that text |
| Decimal.IntText | src/core/messages.rs:1064 | `format!("{}", i)` is non-empty, starts with `-` exactly for negative values, and is otherwise all digits |
| Decimal.IntTextRoundTrip | src/core/messages.rs:1064 | the reference parser reads the decimal text of any integer back as that integer |
| Decimal.IntTextInjective | src/core/messages.rs:1064 | different integers get different decimal texts |
| Framing.DeclaredSize | src/core/messages.rs:1017 | the declared size is the big-endian value of the prefix when its top bit is clear, and more than any slice length otherwise |
| Framing.ReadMsg | src/core/messages.rs:1009-1027 | never an error. A buffer under 4 bytes comes back whole with size 0. Otherwise the size is the declared one. An incomplete frame gives an empty text and the whole buffer. A complete frame gives the decoded payload and exactly the bytes after it |
| Framing.Frame | src/core/messages.rs:996-998 | the frame is 4 + len bytes: the message's ASCII bytes after the prefix, and a prefix with its top bit clear whose value is the length (below 2^31) |
| Framing.MakeMessage | src/core/messages.rs:992-1006 | returns `Ok` of the frame; the self-check read never panics; below 2^31 bytes the frame reads back as (length, message, no bytes) |
| Framing.FramePayloadDecodes | src/core/messages.rs:1002 | whatever the message length, re-reading its own frame never hits the UTF-8 panic |
| Framing.ReadFrame | src/core/messages.rs:1009-1027 | a frame followed by any bytes reads back as the message, its length and exactly those bytes |
| Framing.ReadTwoFrames | src/core/messages.rs:1023 | two frames in a row come back in order, the second read from the rest left by the first |
| Framing.PartialFrameUntouched | src/core/messages.rs:1012-1026 | every proper prefix of a frame comes back whole with an empty text, with size 0 under 4 bytes and the declared size from 4 bytes on |
| Framing.IncompleteIffWhole | src/core/messages.rs:1020-1025 | the buffer comes back whole exactly when it holds no complete frame |
| Framing.NegativePrefixNeverComplete | src/core/messages.rs:1017-1020 | a prefix with its top bit set never makes a frame complete, whatever follows it |
| Framing.OversizedFrameUnreadable | src/core/messages.rs:996 | a message of 2^31 to 2^32 bytes gets a negative prefix and its own frame is never read as complete |
| FieldCodec.Field | src/core/messages.rs:1045-1073 | a field ends in NUL; an unset integer, an unset float or an unrecognised type gives the bare NUL |
| FieldCodec.MakeField | src/core/messages.rs:1045-1073 | returns `Ok` of the field of the value; for a value whose text holds no NUL, only the terminator is a NUL |
| FieldCodec.MakeFieldHandleEmpty | src/core/messages.rs:1076-1088 | always the same result as `make_field` on the same value |
| FieldCodec.FieldTextNulFree | src/core/messages.rs:1050-1070 | booleans, integers and NUL-free text or float text give field text without NUL |
| FieldCodec.FieldAscii | src/core/messages.rs:1050-1070 | booleans, integers and ASCII text or float text give an ASCII field |
| FieldCodec.I32FieldReadsBack | src/core/messages.rs:1060-1065 | the field of `UNSET_INTEGER` is empty; any other `i32` field parses back to that integer |
| FieldCodec.USizeFieldReadsBack | src/core/messages.rs:1052-1053 | a `usize` field parses back to the value truncated to `i32`: the value itself below 2^31 |
| FieldCodec.Split | src/core/messages.rs:1033 | `split('\0')` yields at least one piece; weaker, see "## Left out" |
| FieldCodec.SplitCount | src/core/messages.rs:1033 | `split('\0')` yields one piece more than there are NULs |
| FieldCodec.SplitNulFree | src/core/messages.rs:1033 | no piece of `split('\0')` contains a NUL |
| FieldCodec.SplitNoNul | src/core/messages.rs:1033 | a string without NUL splits into itself alone |
| FieldCodec.SplitAtNul | src/core/messages.rs:1033 | the text before the first NUL is the first piece, and the rest is split on |
| FieldCodec.ReadFields | src/core/messages.rs:1030-1042 | the fields are the pieces without the last; there are as many fields as NULs, and none holds a NUL |
| FieldCodec.FieldsFacts | src/core/messages.rs:1030-1042 | the fields of a payload number its NULs and contain none |
| FieldCodec.SplitJoin | src/core/messages.rs:1033-1036 | every payload is its fields, each NUL-terminated, followed by the dropped tail |
| FieldCodec.FieldsJoin | src/core/messages.rs:1030-1042 | NUL-free fields joined with terminators, plus any NUL-free tail, split back into exactly those fields, empty ones included |
| FieldCodec.EncodeIsJoin | src/core/messages.rs:1045-1073 | a concatenation of `make_field` results is the value texts, each NUL-terminated |
| FieldCodec.ReadEncodedFields | src/core/messages.rs:1030-1042 | `read_fields` of concatenated fields of NUL-free values gives each value's text, in order |
| FaMessageData.Code | src/core/messages.rs:41-45 | the financial-advisor data kinds have codes 1 to 3 |
| FaMessageData.CodeInjective | src/core/messages.rs:41-45 | no two financial-advisor data kinds share a code |
| ResponseCodes.Code | src/core/messages.rs:47-127 | response codes lie in 1..102, and 22–44, 48 and 60 are unused |
| ResponseCodes.FromCode | src/core/messages.rs:47-127 | `from_i32` names a response only for a listed code: 1..102 without 22–44, 48 and 60 |
| ResponseCodes.FromCodeOfCode | src/core/messages.rs:47-127 | `from_i32` of a response's code is that response |
| ResponseCodes.CodeOfFromCode | src/core/messages.rs:47-127 | whatever response `from_i32` returns has the code it was given |
| ResponseCodes.CodeInjective | src/core/messages.rs:47-127 | no two responses share a code |
| ResponseCodes.UnlistedCodes | src/core/messages.rs:47-127 | codes outside 1..102, and 22–44, 48 and 60, give `None` |
| RequestCodes.Code | src/core/messages.rs:524-602 | request codes lie in 1..99, and 26–48 and 60 are unused |
| RequestCodes.FromCode | src/core/messages.rs:524-602 | `from_i32` names a request only for a listed code: 1..99 without 26–48 and 60 |
| RequestCodes.FromCodeOfCode | src/core/messages.rs:524-602 | `from_i32` of a request's code is that request |
| RequestCodes.CodeOfFromCode | src/core/messages.rs:524-602 | whatever request `from_i32` returns has the code it was given |
| RequestCodes.CodeInjective | src/core/messages.rs:524-602 | no two requests share a code |
| RequestCodes.UnlistedCodes | src/core/messages.rs:524-602 | codes outside 1..99, and 26–48 and 60, give `None` |
| RequestShapes.Shape | src/core/messages.rs:605-988 | a request opens with a `version` field exactly when its code is at most 77 (up to CancelAccountUpdatesMulti) |
| RequestShapes.FieldlessRequests | src/core/messages.rs:605-988 | exactly ReqFamilyCodes, ReqMktDepthExchanges and ReqNewsProviders carry no field |
| Pipeline.EncodeAscii | src/core/messages.rs:998 | the concatenated fields of ASCII values pass `make_message`'s ASCII check |
| Pipeline.SendReceive | src/core/messages.rs:992-1042 | the fields of NUL-free ASCII values, framed and read off a buffer, come back as the payload and the untouched rest, and split into the value texts in order |
| Pipeline.RequestCodeReadsBack | src/core/messages.rs:524-602 | a request code written as the first field parses back, and `from_i32` maps it to the same request |
| Pipeline.FamilyCodesScenario | src/core/messages.rs:893 | the family-codes request (code 80) has no fields; its payload is "80" and a NUL, framed as 0,0,0,3 then those bytes |
| Pipeline.SplitExample | src/core/messages.rs:1030-1042 | "a", NUL, "b", NUL, NUL splits into "a", "b" and an empty field |

## Left out

- The payload fields of the `ServerRspMsg` variants and the field names and
  types of the `ServerReqMsg` variants are not modelled. Of the requests,
  only the version-field shape is kept.
- The message decoder, the socket layer, the `EClientMsgSink` callback
  trait and the `debug!` logging are not part of this model.
- Rust's float `Display` is not modelled. `F64Value.display` is the text it
  gives, supplied from outside. `UNSET_DOUBLE == x` is compared on the bits,
  which agrees with `f64` equality for f64::MAX.
- `UNSET_INTEGER` and `UNSET_DOUBLE` live in `core::common`, which is not
  part of this model. They are taken to be `i32::MAX` and `f64::MAX`.
- `usize` is taken to be 64 bits wide. This fixes how `i32 as usize`
  sign-extends and the largest slice length.
- The `unwrap` panics on non-ASCII text (line 998) and on invalid UTF-8
  (line 1021) are preconditions rather than modelled outcomes.
- `Vec::write` into memory never fails, and `read_msg` never returns an
  error. So the `?` at lines 998 and 1002 never propagates one, and the
  `Result`s are always `Ok`. The `try_into().unwrap()` of line 1017 cannot
  fail on a 4-byte slice.
- `make_field` dispatches on `&dyn Any` at run time. The model uses a
  closed type of the recognised kinds plus `Other` for anything else, and
  `String` and `&str` are one case.
- `str::split` is an iterator in Rust; the model splits the whole string at
  once. The cloning of buffers is modelled on values, so aliasing is not
  represented.
- The `ScannerDataEnd` and `HistoricalDataEnd` variants of `ServerRspMsg`
  have no entry in `ServerRspMsgDiscriminants`, so they have no code here.
- `FAMessageDataTypes` does not derive `FromPrimitive`, so it gets no
  inverse.
- Utf8.Decode: states only that the text is no longer than the bytes. What
  it accepts is stated through `DecodeAscii`, the only direction the codec
  relies on.
- FieldCodec.Split: its own contract states only that there is at least one
  piece. The piece count and the NUL-freedom of the pieces are the separate
  lemmas `SplitCount` and `SplitNulFree`.
- ResponseCodes.FromCode: its own contract states only which codes can
  name a response. That it returns the response with that code, and `None`
  for every unlisted code, are the lemmas `CodeOfFromCode`,
  `FromCodeOfCode` and `UnlistedCodes`.
- RequestCodes.FromCode: the same, for requests.
