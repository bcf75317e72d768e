/** Bytes, and the native representation of the 32-bit integers that the library copies in and out of byte
    buffers with memcpy or by casting a buffer address (little endian, two's complement). */
module Bytes {

  type Byte = b: int | 0 <= b < 256

  type Int32 = i: int | -0x8000_0000 <= i < 0x8000_0000

  const INT32_SIZE := 4

  /** The four bytes of an unsigned 32-bit value, least significant first. */
  function FromUnsigned(u: int): (bytes: seq<Byte>)
    requires 0 <= u < 0x1_0000_0000
    ensures |bytes| == INT32_SIZE
  {
    [u % 256, u / 256 % 256, u / 65536 % 256, u / 16777216]
  }

  /** The unsigned 32-bit value stored at `at`. */
  function ToUnsigned(bytes: seq<Byte>, at: nat): (u: int)
    requires at + INT32_SIZE <= |bytes|
    ensures 0 <= u < 0x1_0000_0000
  {
    var b0: int, b1: int, b2: int, b3: int := bytes[at], bytes[at + 1], bytes[at + 2], bytes[at + 3];
    b0 + b1 * 256 + b2 * 65536 + b3 * 16777216
  }

  lemma UnsignedRoundTrip(u: int, before: seq<Byte>, after: seq<Byte>)
    requires 0 <= u < 0x1_0000_0000
    ensures ToUnsigned(before + FromUnsigned(u) + after, |before|) == u
  {
    var bytes := before + FromUnsigned(u) + after;
    var at := |before|;
    assert bytes[at] == u % 256;
    assert bytes[at + 1] == u / 256 % 256;
    assert bytes[at + 2] == u / 65536 % 256;
    assert bytes[at + 3] == u / 16777216;
    assert u / 65536 == u / 256 / 256;
    assert u / 16777216 == u / 256 / 256 / 256;
  }

  function FromInt32(i: Int32): (bytes: seq<Byte>)
    ensures |bytes| == INT32_SIZE
  {
    FromUnsigned(if i < 0 then i + 0x1_0000_0000 else i)
  }

  function ToInt32(bytes: seq<Byte>): Int32
    requires |bytes| == INT32_SIZE
  {
    var u := ToUnsigned(bytes, 0);
    if u < 0x8000_0000 then u else u - 0x1_0000_0000
  }

  lemma Int32RoundTrip(i: Int32)
    ensures ToInt32(FromInt32(i)) == i
  {
    UnsignedRoundTrip(if i < 0 then i + 0x1_0000_0000 else i, [], []);
    assert [] + FromInt32(i) + [] == FromInt32(i);
  }
}
