/** Bytes, and 32-bit integers as four bytes, low byte first. */
module ByteCodec {

  type Byte = b: nat | b < 256 witness 0

  function Le32(v: int): (b: seq<Byte>)
    ensures |b| == 4
  {
    [v % 256, (v / 256) % 256, (v / 256 / 256) % 256, (v / 256 / 256 / 256) % 256]
  }

  // As a signed int, in two's complement.
  function FromLe32(b: seq<Byte>): (v: int)
    requires |b| == 4
    ensures -0x8000_0000 <= v < 0x8000_0000
  {
    var u: int := b[0] as int + 256 * b[1] as int + 65536 * b[2] as int + 16777216 * b[3] as int;
    if u < 0x8000_0000 then u else u - 0x1_0000_0000
  }

  lemma Le32RoundTrip(v: int)
    requires -0x8000_0000 <= v < 0x8000_0000
    ensures FromLe32(Le32(v)) == v
  {
    var q1, q2, q3 := v / 256, v / 256 / 256, v / 256 / 256 / 256;
    assert v == 256 * q1 + v % 256 && q1 == 256 * q2 + q1 % 256 && q2 == 256 * q3 + q2 % 256;
    assert -128 <= q3 < 128;
    assert q3 % 256 == if q3 < 0 then q3 + 256 else q3;
  }
}
