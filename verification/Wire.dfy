/** Bytes on the wire: fixed-width little-endian integers and concatenation of chunks. */
module Wire {

  datatype Option<T> = None | Some(value: T)

  newtype byte = x: int | 0 <= x < 256

  const TWO_32: int := 0x1_0000_0000

  type uint32 = x: int | 0 <= x < 0x1_0000_0000

  type int32 = x: int | -0x8000_0000 <= x < 0x8000_0000

  /** The largest payload the server takes: a move goal of 200 points and 200 tolerances. */
  const MAX_PAYLOAD: nat := 104_016

  /** The in-memory (little-endian) bytes of a uint32_t. */
  function Put32(x: uint32): (b: seq<byte>)
    ensures |b| == 4
  {
    var x1 := x / 256;
    var x2 := x1 / 256;
    [(x % 256) as byte, (x1 % 256) as byte, (x2 % 256) as byte, (x2 / 256) as byte]
  }

  /** Reads the uint32_t whose first byte is b[at]. */
  function Get32(b: seq<byte>, at: nat): (x: uint32)
    requires at + 4 <= |b|
  {
    b[at] as int + 0x100 * b[at + 1] as int + 0x1_0000 * b[at + 2] as int + 0x100_0000 * b[at + 3] as int
  }

  lemma GetPut32(x: uint32, b: seq<byte>, at: nat)
    requires at + 4 <= |b| && b[at..at + 4] == Put32(x)
    ensures Get32(b, at) == x
  {
    var w := b[at..at + 4];
    assert b[at] == w[0] && b[at + 1] == w[1] && b[at + 2] == w[2] && b[at + 3] == w[3];
    var x1 := x / 256;
    var x2 := x1 / 256;
    assert x == 256 * x1 + x % 256 && x1 == 256 * x2 + x1 % 256 && x2 == 256 * (x2 / 256) + x2 % 256;
  }

  lemma PutGet32(b: seq<byte>, at: nat)
    requires at + 4 <= |b|
    ensures Put32(Get32(b, at)) == b[at..at + 4]
  {
    var x0, x1, x2, x3 := b[at] as int, b[at + 1] as int, b[at + 2] as int, b[at + 3] as int;
    var x := Get32(b, at);
    assert x == 256 * (x1 + 256 * (x2 + 256 * x3)) + x0;
    assert x / 256 == x1 + 256 * (x2 + 256 * x3);
    assert x / 256 / 256 == x2 + 256 * x3;
  }

  /** Least significant byte first. */
  lemma ByteOrder()
    ensures Put32(0x0403_0201) == [1, 2, 3, 4] && Get32([1, 2, 3, 4], 0) == 0x0403_0201
    ensures Signed32(0xFFFF_FFFF) == -1 && Signed32(0x8000_0000) == -0x8000_0000 && Signed32(0x7FFF_FFFF) == 0x7FFF_FFFF
  {
  }

  /** The two's complement reading of a uint32_t, as int32_t fields are read. */
  function Signed32(x: uint32): (r: int32)
    ensures r % TWO_32 == x
  {
    if x < 0x8000_0000 then x else x - TWO_32
  }

  function Unsigned32(x: int32): (r: uint32)
    ensures Signed32(r) == x
  {
    if x < 0 then x + TWO_32 else x
  }

  /** Concatenation of a list of byte strings. */
  function Flatten(chunks: seq<seq<byte>>): seq<byte> {
    if chunks == [] then [] else chunks[0] + Flatten(chunks[1..])
  }

  lemma {:induction false} FlattenAppend(a: seq<seq<byte>>, b: seq<seq<byte>>)
    ensures Flatten(a + b) == Flatten(a) + Flatten(b)
  {
    if a == [] {
      assert a + b == b;
    } else {
      assert (a + b)[1..] == a[1..] + b;
      FlattenAppend(a[1..], b);
    }
  }

  /** The bytes taken by `count` blocks of `width` bytes each: count * width, by repeated addition. */
  function Span(count: nat, width: nat): nat {
    if count == 0 then 0 else width + Span(count - 1, width)
  }

  lemma {:induction false} SpanIsProduct(count: nat, width: nat)
    ensures Span(count, width) == count * width
  {
    if count > 0 {
      SpanIsProduct(count - 1, width);
      assert count * width == (count - 1) * width + width;
    }
  }

  lemma {:induction false} FlattenUniform(chunks: seq<seq<byte>>, width: nat)
    requires forall c :: c in chunks ==> |c| == width
    ensures |Flatten(chunks)| == Span(|chunks|, width)
  {
    if chunks != [] {
      FlattenUniform(chunks[1..], width);
    }
  }

  /** One turn past the modulus. */
  lemma ModOnce(x: nat, n: nat)
    requires 0 < n <= x < n + n
    ensures x % n == x - n
  {
    var q, r := x / n, x % n;
    assert x == n * q + r;
    assert q <= 0 ==> n * q <= 0;
    assert q >= 2 ==> n * q >= n * 2;
  }

  function Min(a: int, b: int): int {
    if a <= b then a else b
  }
}
