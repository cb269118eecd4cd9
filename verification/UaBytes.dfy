/** Bytes and the little-endian 32-bit integers of section 5.2.2 of OPC UA Part 6. */
module UaBytes {
  import opened Sequences

  type Byte = x: int | 0 <= x < 256
  type Bytes = seq<Byte>

  const TWO32 := 0x1_0000_0000

  type UInt32 = x: int | 0 <= x < TWO32

  function Le32(v: UInt32): (r: Bytes)
    ensures |r| == 4
  {
    [v % 256, v / 256 % 256, v / 65536 % 256, v / 16777216]
  }

  function Rd32(b: Bytes, i: nat): (v: UInt32)
    requires i + 4 <= |b|
  {
    (b[i] as int) + 256 * (b[i + 1] as int) + 65536 * (b[i + 2] as int) + 16777216 * (b[i + 3] as int)
  }

  lemma Le32Digits(v: UInt32)
    ensures v == v % 256 + 256 * (v / 256 % 256) + 65536 * (v / 65536 % 256) + 16777216 * (v / 16777216)
  {
    assert v / 65536 == v / 256 / 256;
    assert v / 16777216 == v / 65536 / 256;
  }

  /** Decoding undoes encoding. */
  lemma Rd32Le32(b: Bytes, i: nat, v: UInt32)
    requires At(b, i, Le32(v))
    ensures Rd32(b, i) == v
  {
    Le32Digits(v);
    var s := b[i..i + 4];
    assert s[0] == b[i] && s[1] == b[i + 1] && s[2] == b[i + 2] && s[3] == b[i + 3];
  }
}
