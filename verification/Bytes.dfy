/** Bytes and fixed-width big-endian numbers. */
module Bytes {

  type byte = x: nat | x < 256

  type u16 = x: nat | x < 0x1_0000

  type u32 = x: nat | x < 0x1_0000_0000

  function Be16(x: u16): (b: seq<byte>)
    ensures |b| == 2
  {
    [x / 256, x % 256]
  }

  function FromBe16(b: seq<byte>): u16
    requires |b| == 2
  {
    var high: nat, low: nat := b[0], b[1];
    high * 256 + low
  }

  function Be32(x: u32): (b: seq<byte>)
    ensures |b| == 4
  {
    Be16(x / 0x1_0000) + Be16(x % 0x1_0000)
  }

  function FromBe32(b: seq<byte>): u32
    requires |b| == 4
  {
    FromBe16(b[..2]) * 0x1_0000 + FromBe16(b[2..])
  }

  lemma Be16Inverse(x: u16)
    ensures FromBe16(Be16(x)) == x
  {
  }

  lemma Be32Inverse(x: u32)
    ensures FromBe32(Be32(x)) == x
  {
    assert Be32(x)[..2] == Be16(x / 0x1_0000) && Be32(x)[2..] == Be16(x % 0x1_0000);
  }
}
