/** The Option type the decoders return, and the machine words they read. */
module Wrappers {

  datatype Option<+T> = None | Some(value: T)
}

module Words {

  type byte = x: int | 0 <= x < 0x100
  type u32 = x: int | 0 <= x < 0x1_0000_0000
  type u64 = x: int | 0 <= x < 0x1_0000_0000_0000_0000

  const U32_MAX: int := 0xffff_ffff

  /** Little-endian word at offset `o`. */
  function Le32(b: seq<byte>, o: nat): u32
    requires o + 4 <= |b|
  {
    var b0: int, b1: int, b2: int, b3: int := b[o], b[o + 1], b[o + 2], b[o + 3];
    b0 + 0x100 * b1 + 0x1_0000 * b2 + 0x100_0000 * b3
  }

  function LeBytes(w: u32): seq<byte> {
    [w % 0x100, w / 0x100 % 0x100, w / 0x1_0000 % 0x100, w / 0x100_0000]
  }

  lemma LeRoundTrip(w: u32)
    ensures |LeBytes(w)| == 4 && Le32(LeBytes(w), 0) == w
  {
    assert w == w / 0x100 * 0x100 + w % 0x100;
    assert w / 0x100 == w / 0x1_0000 * 0x100 + w / 0x100 % 0x100;
    assert w / 0x1_0000 == w / 0x100_0000 * 0x100 + w / 0x1_0000 % 0x100;
  }

  /** A word is read back from wherever its bytes are. */
  lemma WordReads(b: seq<byte>, o: nat, w: u32)
    requires o + 4 <= |b| && b[o..o + 4] == LeBytes(w)
    ensures Le32(b, o) == w
  {
    LeRoundTrip(w);
    var bytes := LeBytes(w);
    hide LeBytes;
    assert forall i | 0 <= i < 4 :: b[o + i] == b[o..o + 4][i] == bytes[i];
  }
}
