/**
 * Primitive wire types shared by the codec: bytes, the Rust integer widths the
 * codec converts between, the 4-byte big-endian length prefix, and the
 * Option/Result wrappers that stand for Rust's Option and Result.
 */
module Wire {

  datatype Option<+T> = None | Some(value: T)

  /** The library's error type. The codec functions return a Result but never
      produce an error (see the individual contracts). */
  datatype LibError = IoError

  datatype Result<+T> = Ok(value: T) | Err(error: LibError)

  type Byte = b: int | 0 <= b < 0x100

  const TWO_31: int := 0x8000_0000
  const TWO_32: int := 0x1_0000_0000
  const TWO_64: int := 0x1_0000_0000_0000_0000

  /** Rust `i32`. */
  type Int32 = x: int | -TWO_31 <= x < TWO_31

  /** The largest length a Rust slice or Vec can have (isize::MAX on a 64-bit target). */
  const MAX_SLICE_LEN: int := 0x7FFF_FFFF_FFFF_FFFF

  /** `n as i32` for a non-negative integer n: keep the low 32 bits and read them
      in two's complement. */
  function WrapToInt32(n: nat): (r: Int32)
    ensures n < TWO_31 ==> r == n
    ensures r >= 0 <==> n % TWO_32 < TWO_31
    ensures (r - n) % TWO_32 == 0
  {
    var u := n % TWO_32;
    if u < TWO_31 then u else u - TWO_32
  }

  /** `v as usize` for an i32 on a 64-bit target: sign extension. */
  function Int32ToUsize(v: Int32): (r: nat)
    ensures v >= 0 ==> r == v
    ensures v < 0 ==> r >= TWO_64 - TWO_31 && r > MAX_SLICE_LEN
  {
    if v >= 0 then v else v + TWO_64
  }

  /** `i32::to_be_bytes`: the two's complement bytes of v, most significant first. */
  function Int32ToBeBytes(v: Int32): (r: seq<Byte>)
    ensures |r| == 4
    ensures BeValue(r) == v % TWO_32
  {
    var u := v % TWO_32;
    var q1 := u / 0x100;
    var q2 := q1 / 0x100;
    var r := [q2 / 0x100, q2 % 0x100, q1 % 0x100, u % 0x100];
    assert u == q1 * 0x100 + r[3];
    assert q1 == q2 * 0x100 + r[2];
    assert q2 == r[0] * 0x100 + r[1];
    r
  }

  /** The unsigned value of four bytes, most significant first. */
  function BeValue(b: seq<Byte>): (r: nat)
    requires |b| == 4
    ensures r < TWO_32
    ensures r >= TWO_31 <==> b[0] >= 0x80
  {
    (b[0] as int) * 0x100_0000 + (b[1] as int) * 0x1_0000 + (b[2] as int) * 0x100 + (b[3] as int)
  }

  /** `i32::from_be_bytes`: the two's complement value of four bytes, most
      significant first. */
  function Int32FromBeBytes(b: seq<Byte>): (r: Int32)
    requires |b| == 4
    ensures (r < 0) <==> (b[0] >= 0x80)
  {
    var u := BeValue(b);
    if u < TWO_31 then u else u - TWO_32
  }

  /** Reading back the bytes `to_be_bytes` wrote gives the same i32. */
  lemma BeBytesRoundTrip(v: Int32)
    ensures Int32FromBeBytes(Int32ToBeBytes(v)) == v
  {
    var u := v % TWO_32;
    assert v >= 0 ==> u == v;
    if v < 0 {
      DivModUnique(v, TWO_32, -1, v + TWO_32);
    }
    var q1 := u / 0x100;
    var q2 := q1 / 0x100;
    var b := Int32ToBeBytes(v);
    assert u == q1 * 0x100 + b[3];
    assert q1 == q2 * 0x100 + b[2];
    assert q2 == (b[0] as int) * 0x100 + b[1];
    assert u == BeValue(b);
  }

  /** A positive multiple of d is at least d. */
  lemma MultipleAtLeast(a: int, d: int)
    requires a >= 1 && d > 0
    ensures a * d >= d
  {
    assert a * d == (a - 1) * d + d;
  }

  /** Euclidean division is determined by any quotient and in-range remainder. */
  lemma DivModUnique(u: int, d: int, q: int, r: int)
    requires d > 0 && u == q * d + r && 0 <= r < d
    ensures u / d == q && u % d == r
  {
    var q', r' := u / d, u % d;
    assert q * d + r == q' * d + r';
    assert (q - q') * d == q * d - q' * d;
    if q > q' {
      MultipleAtLeast(q - q', d);
    } else if q < q' {
      assert (q' - q) * d == q' * d - q * d;
      MultipleAtLeast(q' - q, d);
    }
  }

  /** Every four bytes are the big-endian encoding of exactly one i32. */
  lemma BeBytesOnto(b: seq<Byte>)
    requires |b| == 4
    ensures Int32ToBeBytes(Int32FromBeBytes(b)) == b
  {
    var u := BeValue(b);
    var v := Int32FromBeBytes(b);
    assert v % TWO_32 == u by {
      DivModUnique(v, TWO_32, if v < 0 then -1 else 0, u);
    }
    DivModUnique(u, 0x100, (b[0] as int) * 0x1_0000 + (b[1] as int) * 0x100 + (b[2] as int), b[3]);
    DivModUnique((b[0] as int) * 0x1_0000 + (b[1] as int) * 0x100 + (b[2] as int), 0x100, (b[0] as int) * 0x100 + (b[1] as int), b[2]);
    DivModUnique((b[0] as int) * 0x100 + (b[1] as int), 0x100, b[0], b[1]);
  }
}
