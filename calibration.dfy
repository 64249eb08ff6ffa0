/**
 * The trimming parameters burned into the sensor (section 4.2.2 of the Bosch
 * BME280 datasheet) and the two ways the driver variants decode them: the
 * `ustruct.unpack` layout of bme280.py / bme280_lowmem.py, applied to the
 * 26-byte block at 0x88 and the 7-byte block at 0xE1, and the register-by-
 * register reads of bme280_microbit_lowmem.py (bme280_microbit.py reads the
 * same registers, but its `_short` misreads the signed words).
 */
module Calibration {
  import opened PyInt
  import opened Bytes

  /** dig_T1..dig_T3, dig_P1..dig_P9, dig_H1..dig_H6. */
  datatype Coefficients = Coefficients(
    T1: int, T2: int, T3: int,
    P1: int, P2: int, P3: int, P4: int, P5: int, P6: int, P7: int, P8: int, P9: int,
    H1: int, H2: int, H3: int, H4: int, H5: int, H6: int)

  predicate IsU16(v: int) { 0 <= v < 65536 }
  predicate IsS16(v: int) { -32768 <= v < 32768 }
  predicate IsU8(v: int) { 0 <= v < 256 }
  predicate IsS8(v: int) { -128 <= v < 128 }
  predicate IsS12(v: int) { -2048 <= v < 2048 }

  /** The ranges shared by both decodings: everything except dig_H4 and dig_H5. */
  predicate CommonRanges(c: Coefficients)
  {
    && IsU16(c.T1) && IsS16(c.T2) && IsS16(c.T3)
    && IsU16(c.P1) && IsS16(c.P2) && IsS16(c.P3) && IsS16(c.P4) && IsS16(c.P5)
    && IsS16(c.P6) && IsS16(c.P7) && IsS16(c.P8) && IsS16(c.P9)
    && IsU8(c.H1) && IsS16(c.H2) && IsU8(c.H3) && IsS8(c.H6)
  }

  /** The datasheet's types: dig_H4 and dig_H5 are signed 12-bit quantities. */
  predicate UnpackRanges(c: Coefficients)
  {
    CommonRanges(c) && IsS12(c.H4) && IsS12(c.H5)
  }

  /** The micro:bit variants read the high bytes of dig_H4 / dig_H5 unsigned. */
  predicate RegisterRanges(c: Coefficients)
  {
    CommonRanges(c) && 0 <= c.H4 < 4096 && 0 <= c.H5 < 4096
  }

  /** `(e4_sign << 4) | (b4 & 0xF)`: a signed high byte and the low nibble of b4. */
  function PackedH4(e4: byte, b4: byte): (r: int)
    ensures r == S8(e4) * 16 + b4 % 16
  {
    assert Pow2(4) == 16;
    AndLowMask(b4, 4);
    OrShiftedLow(S8(e4), And(b4, 0xF), 4);
    Or(Shl(S8(e4), 4), And(b4, 0xF))
  }

  /** `(e6_sign << 4) | (b4 >> 4)`: a signed high byte and the high nibble of b4. */
  function PackedH5(e6: byte, b4: byte): (r: int)
    ensures r == S8(e6) * 16 + b4 / 16
  {
    assert Pow2(4) == 16;
    OrShiftedLow(S8(e6), Shr(b4, 4), 4);
    Or(Shl(S8(e6), 4), Shr(b4, 4))
  }

  /**
   * `unpack("<HhhHhhhhhhhhBB", dig_88_a1)`, `unpack("<hB", dig_e1_e7)` and the
   * nibble packing of dig_H4 / dig_H5; byte 24 of the first block is skipped.
   */
  function Unpack(b1: seq<byte>, b2: seq<byte>): (c: Coefficients)
    requires |b1| == 26 && |b2| == 7
    ensures UnpackRanges(c)
  {
    Coefficients(
      U16(b1[0], b1[1]), S16(b1[2], b1[3]), S16(b1[4], b1[5]),
      U16(b1[6], b1[7]), S16(b1[8], b1[9]), S16(b1[10], b1[11]),
      S16(b1[12], b1[13]), S16(b1[14], b1[15]), S16(b1[16], b1[17]),
      S16(b1[18], b1[19]), S16(b1[20], b1[21]), S16(b1[22], b1[23]),
      b1[25],
      S16(b2[0], b2[1]), b2[2],
      PackedH4(b2[3], b2[4]),
      PackedH5(b2[5], b2[4]),
      S8(b2[6]))
  }

  /** The 26 + 7 bytes a sensor must hold to report the coefficients c. */
  function Pack(c: Coefficients): (blocks: (seq<byte>, seq<byte>))
    requires UnpackRanges(c)
    ensures |blocks.0| == 26 && |blocks.1| == 7
  {
    ([LowByte(c.T1), HighByte(c.T1), LowByte(c.T2), HighByte(c.T2),
      LowByte(c.T3), HighByte(c.T3), LowByte(c.P1), HighByte(c.P1),
      LowByte(c.P2), HighByte(c.P2), LowByte(c.P3), HighByte(c.P3),
      LowByte(c.P4), HighByte(c.P4), LowByte(c.P5), HighByte(c.P5),
      LowByte(c.P6), HighByte(c.P6), LowByte(c.P7), HighByte(c.P7),
      LowByte(c.P8), HighByte(c.P8), LowByte(c.P9), HighByte(c.P9),
      0, c.H1],
     [LowByte(c.H2), HighByte(c.H2), c.H3,
      LowByte(c.H4 / 16), c.H4 % 16 + 16 * (c.H5 % 16), LowByte(c.H5 / 16),
      LowByte(c.H6)])
  }

  lemma NibblesRoundTrip(h: int)
    requires IsS12(h)
    ensures S8(LowByte(h / 16)) * 16 + h % 16 == h
  {
    S8RoundTrip(h / 16);
  }

  /** Decoding the bytes of in-range coefficients gives those coefficients back. */
  lemma UnpackPack(c: Coefficients)
    requires UnpackRanges(c)
    ensures Unpack(Pack(c).0, Pack(c).1) == c
  {
    UnpackPackWords(c);
    UnpackPackHumidity(c);
  }

  /** The temperature and pressure words survive encoding and decoding. */
  lemma UnpackPackWords(c: Coefficients)
    requires UnpackRanges(c)
    ensures var u := Unpack(Pack(c).0, Pack(c).1);
      u.T1 == c.T1 && u.T2 == c.T2 && u.T3 == c.T3 && u.P1 == c.P1
      && u.P2 == c.P2 && u.P3 == c.P3 && u.P4 == c.P4 && u.P5 == c.P5
      && u.P6 == c.P6 && u.P7 == c.P7 && u.P8 == c.P8 && u.P9 == c.P9
  {
    var b1 := Pack(c).0;
    assert b1[0] == LowByte(c.T1) && b1[1] == HighByte(c.T1);
    U16RoundTrip(c.T1);
    S16RoundTrip(c.T2);
    S16RoundTrip(c.T3);
    U16RoundTrip(c.P1);
    S16RoundTrip(c.P2);
    S16RoundTrip(c.P3);
    S16RoundTrip(c.P4);
    S16RoundTrip(c.P5);
    S16RoundTrip(c.P6);
    S16RoundTrip(c.P7);
    S16RoundTrip(c.P8);
    S16RoundTrip(c.P9);
  }

  /** The humidity coefficients survive encoding and decoding, nibbles included. */
  lemma UnpackPackHumidity(c: Coefficients)
    requires UnpackRanges(c)
    ensures var u := Unpack(Pack(c).0, Pack(c).1);
      u.H1 == c.H1 && u.H2 == c.H2 && u.H3 == c.H3 && u.H4 == c.H4
      && u.H5 == c.H5 && u.H6 == c.H6
  {
    var b2 := Pack(c).1;
    S16RoundTrip(c.H2);
    NibblesRoundTrip(c.H4);
    NibblesRoundTrip(c.H5);
    assert b2[4] % 16 == c.H4 % 16 && b2[4] / 16 == c.H5 % 16;
    S8RoundTrip(c.H6);
  }

  /**
   * Encoding decoded coefficients reproduces the bytes they came from, except
   * byte 24 of the first block, which the decoding skips.
   */
  lemma PackUnpack(b1: seq<byte>, b2: seq<byte>)
    requires |b1| == 26 && |b2| == 7
    ensures Pack(Unpack(b1, b2)) == (b1[24 := 0], b2)
  {
    PackUnpackFirst(b1, b2);
    PackUnpackSecond(b1, b2);
  }

  lemma PackUnpackFirst(b1: seq<byte>, b2: seq<byte>)
    requires |b1| == 26 && |b2| == 7
    ensures Pack(Unpack(b1, b2)).0 == b1[24 := 0]
  {
    var c := Unpack(b1, b2);
    var p1 := Pack(c).0;
    U16Bytes(b1[0], b1[1]);
    S16Bytes(b1[2], b1[3]);
    S16Bytes(b1[4], b1[5]);
    U16Bytes(b1[6], b1[7]);
    S16Bytes(b1[8], b1[9]);
    S16Bytes(b1[10], b1[11]);
    S16Bytes(b1[12], b1[13]);
    S16Bytes(b1[14], b1[15]);
    S16Bytes(b1[16], b1[17]);
    S16Bytes(b1[18], b1[19]);
    S16Bytes(b1[20], b1[21]);
    S16Bytes(b1[22], b1[23]);
  }

  lemma PackUnpackSecond(b1: seq<byte>, b2: seq<byte>)
    requires |b1| == 26 && |b2| == 7
    ensures Pack(Unpack(b1, b2)).1 == b2
  {
    var c := Unpack(b1, b2);
    var p2 := Pack(c).1;
    S16Bytes(b2[0], b2[1]);
    S8RoundTrip(S8(b2[3]));
    S8RoundTrip(S8(b2[5]));
    assert c.H4 / 16 == S8(b2[3]) && c.H4 % 16 == b2[4] % 16;
    assert c.H5 / 16 == S8(b2[5]) && c.H5 % 16 == b2[4] / 16;
    S8RoundTrip(S8(b2[6]));
    assert p2[4] == b2[4];
  }

  /** The reserved byte 24 of the first block does not influence the decoding. */
  lemma UnpackIgnoresByte24(b1: seq<byte>, b2: seq<byte>, x: byte)
    requires |b1| == 26 && |b2| == 7
    ensures Unpack(b1[24 := x], b2) == Unpack(b1, b2)
  {
  }

  /**
   * The coefficients as bme280_microbit_lowmem.py reads them, one register at
   * a time from the register file mem: 16-bit words at 0x88..0x9E and 0xE1
   * (dig_T1 and dig_P1 unsigned, the others through its two's-complement
   * `_short`), bytes at 0xA1
   * and 0xE3, dig_H4 / dig_H5 from unsigned bytes at 0xE4 / 0xE6 and the two
   * nibbles of 0xE5, and dig_H6 from 0xE7 less 256 when above 127.
   */
  function RegisterCoefficients(mem: seq<byte>): (c: Coefficients)
    requires |mem| == 256
    ensures RegisterRanges(c)
  {
    assert Pow2(4) == 16;
    Coefficients(
      U16(mem[0x88], mem[0x89]), S16(mem[0x8A], mem[0x8B]), S16(mem[0x8C], mem[0x8D]),
      U16(mem[0x8E], mem[0x8F]), S16(mem[0x90], mem[0x91]), S16(mem[0x92], mem[0x93]),
      S16(mem[0x94], mem[0x95]), S16(mem[0x96], mem[0x97]), S16(mem[0x98], mem[0x99]),
      S16(mem[0x9A], mem[0x9B]), S16(mem[0x9C], mem[0x9D]), S16(mem[0x9E], mem[0x9F]),
      mem[0xA1],
      S16(mem[0xE1], mem[0xE2]), mem[0xE3],
      Shl(mem[0xE4], 4) + mem[0xE5] % 16,
      Shl(mem[0xE6], 4) + Shr(mem[0xE5], 4),
      S8(mem[0xE7]))
  }

  /**
   * On the same register contents the two decodings agree on every coefficient
   * but dig_H4 and dig_H5, and those differ by exactly 4096 when their high
   * byte (0xE4, resp. 0xE6) has its top bit set.
   */
  lemma RegisterVersusUnpack(mem: seq<byte>)
    requires |mem| == 256
    ensures var u := Unpack(mem[0x88..0xA2], mem[0xE1..0xE8]);
            var r := RegisterCoefficients(mem);
            && r.(H4 := u.H4, H5 := u.H5) == u
            && r.H4 == u.H4 + (if mem[0xE4] >= 128 then 4096 else 0)
            && r.H5 == u.H5 + (if mem[0xE6] >= 128 then 4096 else 0)
  {
    var b1, b2 := mem[0x88..0xA2], mem[0xE1..0xE8];
    assert forall i :: 0 <= i < 26 ==> b1[i] == mem[0x88 + i];
    assert b2 == [mem[0xE1], mem[0xE2], mem[0xE3], mem[0xE4], mem[0xE5], mem[0xE6], mem[0xE7]];
    assert Pow2(4) == 16;
  }

  /** A sensor whose dig_H4 is negative is decoded differently by the two layouts. */
  lemma RegisterDivergesOnNegativeH4(mem: seq<byte>)
    requires |mem| == 256 && mem[0xE4] == 0x80 && mem[0xE5] == 0
    ensures Unpack(mem[0x88..0xA2], mem[0xE1..0xE8]).H4 == -2048
    ensures RegisterCoefficients(mem).H4 == 2048
  {
    RegisterVersusUnpack(mem);
  }
}
