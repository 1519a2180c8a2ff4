/** Octets and the fixed-width big-endian integers of the attach frame formats. */
module Bytes {
  type byte = x: int | 0 <= x < 256
  type bytes = seq<byte>

  datatype Option<+T> = None | Some(value: T)

  /** Big-endian unsigned 16-bit integer, Python's struct format "!H". */
  function U16(n: int): (b: bytes)
    requires 0 <= n < 0x1_0000
    ensures |b| == 2
  {
    [n / 256, n % 256]
  }

  function ReadU16(b: bytes): (n: int)
    requires |b| == 2
    ensures 0 <= n < 0x1_0000
  {
    (b[0] as int) * 256 + b[1] as int
  }

  /** Big-endian unsigned 32-bit integer, Python's struct format "!I". */
  function U32(n: int): (b: bytes)
    requires 0 <= n < 0x1_0000_0000
    ensures |b| == 4
  {
    U16(n / 0x1_0000) + U16(n % 0x1_0000)
  }

  function ReadU32(b: bytes): (n: int)
    requires |b| == 4
    ensures 0 <= n < 0x1_0000_0000
  {
    ReadU16(b[..2]) * 0x1_0000 + ReadU16(b[2..])
  }

  lemma U32RoundTrip(n: int)
    requires 0 <= n < 0x1_0000_0000
    ensures ReadU32(U32(n)) == n
  {
    assert U32(n)[..2] == U16(n / 0x1_0000);
    assert U32(n)[2..] == U16(n % 0x1_0000);
  }

  lemma ReadU32RoundTrip(b: bytes)
    requires |b| == 4
    ensures U32(ReadU32(b)) == b
  {
    var hi, lo := ReadU16(b[..2]), ReadU16(b[2..]);
    var n := ReadU32(b);
    assert n / 0x1_0000 == hi && n % 0x1_0000 == lo;
    assert U16(hi) == b[..2] && U16(lo) == b[2..];
  }

  /** Most significant octet first, in both directions. */
  lemma U32IsBigEndian(n: int, b: bytes)
    requires 0 <= n < 0x1_0000_0000 && |b| == 4
    ensures b == U32(n) <==> n == b[0] as int * 16777216 + b[1] as int * 65536 + b[2] as int * 256 + b[3] as int
    ensures ReadU32(b) == b[0] as int * 16777216 + b[1] as int * 65536 + b[2] as int * 256 + b[3] as int
  {
    ReadU32RoundTrip(b);
    U32RoundTrip(n);
  }

  lemma U16IsBigEndian(n: int, b: bytes)
    requires 0 <= n < 0x1_0000 && |b| == 2
    ensures b == U16(n) <==> n == b[0] as int * 256 + b[1] as int
  {
  }
}
