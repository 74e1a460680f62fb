/** The frame checksum of the McuBoot serial framing: CRC-16/XMODEM
    (polynomial 0x1021, initial register 0, no reflection of input or
    output, no final XOR), as the `crc` crate's `CRC_16_XMODEM` computes it.
    The crate works from a lookup table; the model uses the bitwise
    definition, which the check value below pins to the same parameters. */
module Crc16 {
  import opened Base

  /** One bit of polynomial division: shift left, folding the polynomial
      0x1021 in when the bit shifted out was set (`0 - (c >> 15)` is all
      ones exactly then). */
  function ShiftOnce(c: bv16): bv16 {
    (c << 1) ^ (0x1021 & (0 - (c >> 15)))
  }

  /** Eight bit steps, the work done for one input byte. */
  function ShiftByte(x: bv16): bv16 {
    ShiftOnce(ShiftOnce(ShiftOnce(ShiftOnce(ShiftOnce(ShiftOnce(ShiftOnce(ShiftOnce(x))))))))
  }

  /** Feeds one byte, most significant bit first, into the register. */
  function UpdateByte(c: bv16, b: u8): bv16 {
    ShiftByte(c ^ ((b as bv16) << 8))
  }

  /** The register after feeding the first `n` bytes of `s`, starting
      from 0. */
  function Register(s: Bytes, n: nat): bv16
    requires n <= |s|
  {
    if n == 0 then 0 else UpdateByte(Register(s, n - 1), s[n - 1])
  }

  /** Bit `i` of a register, as a number. */
  function BitAt(c: bv16, i: nat): nat
    requires i < 16
  {
    if (c >> i) & 1 == 1 then 1 else 0
  }

  /** The number the top `k` bits of a register stand for. */
  function Value(c: bv16, k: nat): (r: nat)
    requires k <= 16
    ensures r < Pow2(k)
  {
    if k == 0 then 0 else 2 * Value(c, k - 1) + BitAt(c, 16 - k)
  }

  /** Sixteen bits of register make a `u16`. */
  lemma Pow2Sixteen()
    ensures Pow2(16) == 0x1_0000
  {
    assert Pow2(2) == 4 by { assert Pow2(1) == 2; }
    assert Pow2(4) == 16 by { assert Pow2(3) == 8; }
    assert Pow2(6) == 64 by { assert Pow2(5) == 32; }
    assert Pow2(8) == 256 by { assert Pow2(7) == 128; }
    Pow2Add(8, 8);
  }

  /** The register 0x31C3 stands for the number 0x31C3, evaluated one bit
      at a time. */
  lemma Value31C3()
    ensures Value(0x31C3, 16) == 0x31C3
  {
    assert Value(0x31C3, 1) == 0x0;
    assert Value(0x31C3, 2) == 0x0;
    assert Value(0x31C3, 3) == 0x1;
    assert Value(0x31C3, 4) == 0x3;
    assert Value(0x31C3, 5) == 0x6;
    assert Value(0x31C3, 6) == 0xC;
    assert Value(0x31C3, 7) == 0x18;
    assert Value(0x31C3, 8) == 0x31;
    assert Value(0x31C3, 9) == 0x63;
    assert Value(0x31C3, 10) == 0xC7;
    assert Value(0x31C3, 11) == 0x18E;
    assert Value(0x31C3, 12) == 0x31C;
    assert Value(0x31C3, 13) == 0x638;
    assert Value(0x31C3, 14) == 0xC70;
    assert Value(0x31C3, 15) == 0x18E1;
  }

  /** `CRC_CHECK.checksum(s)`: the number the final register stands for. */
  function Checksum(s: Bytes): u16 {
    Pow2Sixteen();
    Value(Register(s, |s|), 16)
  }

  /** One step of a byte-by-byte evaluation of the register; chains of
      these compute the checksum of a concrete frame. */
  lemma FeedAt(s: Bytes, k: nat, before: bv16, after: bv16)
    requires k < |s| && Register(s, k) == before && UpdateByte(before, s[k]) == after
    ensures Register(s, k + 1) == after
  {
  }

  /** The catalogue check value of CRC-16/XMODEM: the checksum of the
      ASCII digits "123456789" is 0x31C3. */
  lemma CheckValue(s: Bytes)
    requires |s| == 9 && s[0] == 0x31 && s[1] == 0x32 && s[2] == 0x33 && s[3] == 0x34 &&
      s[4] == 0x35 && s[5] == 0x36 && s[6] == 0x37 && s[7] == 0x38 && s[8] == 0x39
    ensures Checksum(s) == 0x31C3
  {
    FeedAt(s, 0, 0x0000, 0x2672);
    FeedAt(s, 1, 0x2672, 0x20B5);
    FeedAt(s, 2, 0x20B5, 0x9752);
    FeedAt(s, 3, 0x9752, 0xD789);
    FeedAt(s, 4, 0xD789, 0x546C);
    FeedAt(s, 5, 0x546C, 0x20E4);
    FeedAt(s, 6, 0x20E4, 0x86D6);
    FeedAt(s, 7, 0x86D6, 0x9015);
    FeedAt(s, 8, 0x9015, 0x31C3);
    Value31C3();
  }
}
