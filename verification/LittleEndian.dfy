/** Bytes, and the 32-bit words that AV_RL32 reads from them. */
module LittleEndian {
  type Byte = n: nat | n < 256

  const UINT_MAX := 0xFFFF_FFFF

  /** The word at an offset. */
  function Word(buf: seq<Byte>, at: nat): (u: nat)
    requires at + 4 <= |buf|
    ensures u <= UINT_MAX
  {
    var b0: int, b1: int, b2: int, b3: int := buf[at], buf[at + 1], buf[at + 2], buf[at + 3];
    b0 + 0x100 * b1 + 0x1_0000 * b2 + 0x100_0000 * b3
  }

  /** Byte k of a word. */
  function ByteOf(u: nat, k: nat): Byte {
    if k == 0 then u % 0x100 else if k == 1 then u / 0x100 % 0x100
    else if k == 2 then u / 0x1_0000 % 0x100 else u / 0x100_0000 % 0x100
  }

  /** The bytes of a word are read back as the word. */
  lemma WordOfBytes(buf: seq<Byte>, at: nat, u: nat)
    requires at + 4 <= |buf| && u <= UINT_MAX
    requires buf[at] == ByteOf(u, 0) && buf[at + 1] == ByteOf(u, 1)
    requires buf[at + 2] == ByteOf(u, 2) && buf[at + 3] == ByteOf(u, 3)
    ensures Word(buf, at) == u
  {
    assert u / 0x1_0000 == u / 0x100 / 0x100 && u / 0x100_0000 == u / 0x1_0000 / 0x100;
  }
}
