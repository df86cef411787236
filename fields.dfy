/**
 * Field codec of src/core/messages.rs: `make_field` and
 * `make_field_handle_empty` turn one value into a NUL-terminated field,
 * `read_fields` splits a payload back into its fields.
 */
module FieldCodec {
  import opened Wire
  import Decimal

  const NUL: char := 0 as char

  /** `UNSET_INTEGER` of core::common (i32::MAX). */
  const UNSET_INTEGER: Int32 := 0x7FFF_FFFF

  /** The IEEE 754 bits of `UNSET_DOUBLE` of core::common (f64::MAX). Being
      neither zero nor NaN, f64::MAX is `==` to exactly one bit pattern, so
      comparing bits is comparing values. */
  const UNSET_DOUBLE: bv64 := 0x7FEF_FFFF_FFFF_FFFF

  /** Rust `usize` on a 64-bit target. */
  type Usize = n: nat | n < TWO_64

  /** An f64: its bits, and the text Rust's float `Display` gives it, which is
      computed outside this model. */
  datatype F64Value = F64Value(bits: bv64, display: string)

  /** The values `make_field` recognises, and `Other` for any other type. */
  datatype FieldValue =
    | Bool(b: bool)
    | USize(n: Usize)
    | F64(x: F64Value)
    | I32(i: Int32)
    | Text(s: string)
    | Other

  predicate IsUnset(v: FieldValue) {
    (v.F64? && v.x.bits == UNSET_DOUBLE) || (v.I32? && v.i == UNSET_INTEGER)
  }

  /** The text of a field, terminator excluded. */
  function FieldText(v: FieldValue): string {
    match v
    case Bool(b) => if b then "1" else "0"
    case USize(n) => Decimal.IntText(WrapToInt32(n))
    case F64(x) => if x.bits == UNSET_DOUBLE then "" else x.display
    case I32(i) => if i == UNSET_INTEGER then "" else Decimal.IntText(i)
    case Text(s) => s
    case Other => ""
  }

  /** What `make_field` produces for a value. */
  function Field(v: FieldValue): (f: string)
    ensures |f| >= 1 && f[|f| - 1] == NUL
    ensures (IsUnset(v) || v.Other?) ==> f == [NUL]
  {
    FieldText(v) + [NUL]
  }

  /** The value leaves no NUL in its field text: true of every kind but text and
      the display of a float, which the caller must keep free of NUL. */
  predicate NulFree(v: FieldValue) {
    match v
    case Text(s) => NUL !in s
    case F64(x) => NUL !in x.display
    case _ => true
  }

  /** `make_field`: starts from the empty field and replaces it according to
      the kind of the value. */
  method MakeField(val: FieldValue) returns (r: Result<string>)
    ensures r == Ok(Field(val))
    ensures NulFree(val) ==> NUL !in r.value[..|r.value| - 1]
  {
    var field := [NUL];
    if val.Bool? {
      field := (if val.b then "1" else "0") + [NUL];
    } else if val.USize? {
      field := Decimal.IntText(WrapToInt32(val.n)) + [NUL];
    } else if val.F64? {
      if UNSET_DOUBLE == val.x.bits {
        field := "" + [NUL];
      } else {
        field := val.x.display + [NUL];
      }
    } else if val.I32? {
      if UNSET_INTEGER == val.i {
        field := "" + [NUL];
      } else {
        field := Decimal.IntText(val.i) + [NUL];
      }
    } else if val.Text? {
      field := val.s + [NUL];
    }
    if NulFree(val) {
      FieldTextNulFree(val);
    }
    assert field[..|field| - 1] == FieldText(val);
    r := Ok(field);
  }

  /** `make_field_handle_empty`: unset floats and integers become the field of
      an empty text; everything else goes to `make_field`. */
  function MakeFieldHandleEmpty(val: FieldValue): (r: Result<string>)
    ensures r == Ok(Field(val))
  {
    match val
    case F64(x) =>
      if UNSET_DOUBLE == x.bits then Ok(Field(Text(""))) else Ok(Field(val))
    case I32(i) =>
      if UNSET_INTEGER == i then Ok(Field(Text(""))) else Ok(Field(val))
    case _ => Ok(Field(val))
  }

  lemma FieldTextNulFree(v: FieldValue)
    requires NulFree(v)
    ensures NUL !in FieldText(v)
  {
    match v
    case USize(n) =>
      var t := Decimal.IntText(WrapToInt32(n));
      assert forall k :: 0 <= k < |t| ==> t[k] != NUL;
    case I32(i) =>
      if i != UNSET_INTEGER {
        var t := Decimal.IntText(i);
        assert forall k :: 0 <= k < |t| ==> t[k] != NUL;
      }
    case _ =>
  }

  /** Every field but that of text or of a float is ASCII; so is the field of
      ASCII text or of a float displayed in ASCII. */
  predicate AsciiValue(v: FieldValue) {
    match v
    case Text(s) => forall k :: 0 <= k < |s| ==> s[k] < 128 as char
    case F64(x) => forall k :: 0 <= k < |x.display| ==> x.display[k] < 128 as char
    case _ => true
  }

  lemma FieldAscii(v: FieldValue)
    requires AsciiValue(v)
    ensures forall k :: 0 <= k < |Field(v)| ==> Field(v)[k] < 128 as char
  {
    var t := FieldText(v);
    match v
    case USize(n) =>
      assert forall k :: 0 <= k < |t| ==> t[k] < 128 as char;
    case I32(i) =>
      assert forall k :: 0 <= k < |t| ==> t[k] < 128 as char;
    case _ =>
  }

  /** The field of a non-sentinel integer reads back as that integer, and the
      field of the sentinel is empty. */
  lemma I32FieldReadsBack(i: Int32)
    ensures i == UNSET_INTEGER ==> FieldText(I32(i)) == ""
    ensures i != UNSET_INTEGER ==> Decimal.ParseInt(FieldText(I32(i))) == Some(i as int)
  {
    if i != UNSET_INTEGER {
      Decimal.IntTextRoundTrip(i);
    }
  }

  /** A usize field reads back as the value wrapped to i32: the value itself
      below 2^31. */
  lemma USizeFieldReadsBack(n: Usize)
    ensures Decimal.ParseInt(FieldText(USize(n))) == Some(WrapToInt32(n) as int)
    ensures n < TWO_31 ==> Decimal.ParseInt(FieldText(USize(n))) == Some(n as int)
  {
    Decimal.IntTextRoundTrip(WrapToInt32(n));
  }

  // ------------------------------------------------------------------------
  // Splitting a payload into fields

  /** `str::split('\0')`: the pieces between NULs, the last one after the last
      NUL (the whole string when there is none). */
  function Split(s: string): (pieces: seq<string>)
    ensures |pieces| >= 1
  {
    if s == [] then [""]
    else
      var rest := Split(s[1..]);
      if s[0] == NUL then [""] + rest else [[s[0]] + rest[0]] + rest[1..]
  }

  /** There is one piece more than there are NULs. */
  lemma {:induction false} SplitCount(s: string)
    ensures |Split(s)| == multiset(s)[NUL] + 1
  {
    if s != [] {
      SplitCount(s[1..]);
      assert s == [s[0]] + s[1..];
    }
  }

  /** No piece holds a NUL. */
  lemma {:induction false} SplitNulFree(s: string)
    ensures forall i :: 0 <= i < |Split(s)| ==> NUL !in Split(s)[i]
  {
    if s != [] {
      SplitNulFree(s[1..]);
    }
  }

  /** A string without NUL is a single piece. */
  lemma {:induction false} SplitNoNul(a: string)
    requires NUL !in a
    ensures Split(a) == [a]
  {
    if a != [] {
      SplitNoNul(a[1..]);
      assert [a[0]] + a[1..] == a;
    }
  }

  /** The text before the first NUL is the first piece; the rest is split on. */
  lemma {:induction false} SplitAtNul(a: string, b: string)
    requires NUL !in a
    ensures Split(a + [NUL] + b) == [a] + Split(b)
  {
    var s := a + [NUL] + b;
    if a == [] {
      assert s[1..] == b;
    } else {
      assert s[0] == a[0] && s[1..] == a[1..] + [NUL] + b;
      SplitAtNul(a[1..], b);
      assert [a[0]] + a[1..] == a;
    }
  }

  /** The fields of a payload: the pieces that a NUL terminates. */
  function Fields(s: string): seq<string> {
    var pieces := Split(s);
    pieces[..|pieces| - 1]
  }

  /** Fields joined back into a payload, each followed by its terminator. */
  function Join(fields: seq<string>): string {
    if fields == [] then "" else fields[0] + [NUL] + Join(fields[1..])
  }

  /** `read_fields`: splits the payload on NUL into a vector of pieces, then
      removes the last piece, the one no NUL terminates. */
  method ReadFields(buf: string) returns (fields: seq<string>)
    ensures fields == Fields(buf)
    ensures |fields| == multiset(buf)[NUL]
    ensures forall i :: 0 <= i < |fields| ==> NUL !in fields[i]
  {
    var pieces: seq<string> := [];
    var start, i := 0, 0;
    while i < |buf|
      invariant 0 <= start <= i <= |buf|
      invariant NUL !in buf[start..i]
      invariant pieces + Split(buf[start..]) == Split(buf)
    {
      if buf[i] == NUL {
        ReadFieldsStep(pieces, buf, start, i);
        pieces := pieces + [buf[start..i]];
        start := i + 1;
      } else {
        assert buf[start..i + 1] == buf[start..i] + [buf[i]];
      }
      i := i + 1;
    }
    assert buf[start..i] == buf[start..];
    SplitNoNul(buf[start..]);
    pieces := pieces + [buf[start..]];
    fields := pieces[..|pieces| - 1];
    FieldsFacts(buf);
  }

  /** One NUL met by `read_fields`: the text since the previous NUL becomes
      the next piece, and splitting resumes after the NUL. */
  lemma ReadFieldsStep(pieces: seq<string>, buf: string, start: nat, i: nat)
    requires start <= i < |buf| && buf[i] == NUL && NUL !in buf[start..i]
    ensures pieces + Split(buf[start..]) == (pieces + [buf[start..i]]) + Split(buf[i + 1..])
  {
    assert buf[start..] == buf[start..i] + [NUL] + buf[i + 1..];
    SplitAtNul(buf[start..i], buf[i + 1..]);
  }

  /** The fields of a payload number its NULs and hold none. */
  lemma FieldsFacts(s: string)
    ensures |Fields(s)| == multiset(s)[NUL]
    ensures forall i :: 0 <= i < |Fields(s)| ==> NUL !in Fields(s)[i]
  {
    SplitCount(s);
    SplitNulFree(s);
  }

  /** The piece after the last NUL: what `read_fields` drops. */
  function LastPiece(s: string): string {
    Split(s)[|Split(s)| - 1]
  }

  /** Every payload is its fields, each terminated, followed by a tail no NUL
      terminates (the tail `read_fields` drops). */
  lemma {:induction false} SplitJoin(s: string)
    ensures s == Join(Fields(s)) + LastPiece(s)
  {
    if s != [] {
      SplitJoin(s[1..]);
      SplitJoinStep(s[0], s[1..]);
      assert s == [s[0]] + s[1..];
    }
  }

  /** Putting one character in front of a payload puts it in front of its
      joined fields and tail. */
  lemma SplitJoinStep(c: char, t: string)
    ensures Join(Fields([c] + t)) + LastPiece([c] + t) == [c] + (Join(Fields(t)) + LastPiece(t))
  {
    var s, r := [c] + t, Split(t);
    assert s[0] == c && s[1..] == t;
    if c == NUL {
      assert Split(s) == [""] + r;
      assert Fields(s) == [""] + Fields(t);
    } else if |r| == 1 {
      assert Split(s) == [[c] + r[0]];
    } else {
      assert Split(s) == [[c] + r[0]] + r[1..];
      assert Fields(s) == [[c] + r[0]] + r[1..|r| - 1];
      assert Fields(t) == [r[0]] + r[1..|r| - 1];
    }
  }

  /** Joined fields free of NUL, followed by any NUL-free tail, split back into
      exactly those fields: embedded empty fields included. */
  lemma {:induction false} FieldsJoin(fields: seq<string>, tail: string)
    requires forall i :: 0 <= i < |fields| ==> NUL !in fields[i]
    requires NUL !in tail
    ensures Fields(Join(fields) + tail) == fields
  {
    if fields == [] {
      assert Join(fields) + tail == tail;
      SplitNoNul(tail);
    } else {
      var f, more := fields[0], Join(fields[1..]) + tail;
      FieldsJoin(fields[1..], tail);
      assert Join(fields) + tail == f + [NUL] + more;
      SplitAtNul(f, more);
      var r := Split(more);
      assert Fields(Join(fields) + tail) == [f] + r[..|r| - 1];
    }
  }

  /** The fields of a list of values, concatenated into one payload. */
  function Encode(vals: seq<FieldValue>): string {
    if vals == [] then "" else Field(vals[0]) + Encode(vals[1..])
  }

  function Texts(vals: seq<FieldValue>): (ts: seq<string>)
    ensures |ts| == |vals|
  {
    if vals == [] then [] else [FieldText(vals[0])] + Texts(vals[1..])
  }

  lemma {:induction false} EncodeIsJoin(vals: seq<FieldValue>)
    ensures Encode(vals) == Join(Texts(vals))
    decreases |vals|
  {
    if vals != [] {
      EncodeIsJoin(vals[1..]);
      assert Texts(vals)[1..] == Texts(vals[1..]);
    }
  }

  /** Splitting the concatenated fields of NUL-free values gives back the text
      of each value, in order. */
  lemma ReadEncodedFields(vals: seq<FieldValue>)
    requires forall i :: 0 <= i < |vals| ==> NulFree(vals[i])
    ensures Fields(Encode(vals)) == Texts(vals)
  {
    EncodeIsJoin(vals);
    forall i | 0 <= i < |vals|
      ensures NUL !in Texts(vals)[i]
    {
      TextsAt(vals, i);
      FieldTextNulFree(vals[i]);
    }
    FieldsJoin(Texts(vals), "");
    assert Join(Texts(vals)) + "" == Join(Texts(vals));
  }

  lemma {:induction false} TextsAt(vals: seq<FieldValue>, i: nat)
    requires i < |vals|
    ensures Texts(vals)[i] == FieldText(vals[i])
    decreases i
  {
    if i > 0 {
      TextsAt(vals[1..], i - 1);
    }
  }
}
