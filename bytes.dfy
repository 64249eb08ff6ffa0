/**
 * Bytes as the driver reads them from the sensor, and the `ustruct` formats
 * it decodes them with: "<B"/"<b" (one unsigned or signed byte) and
 * "<H"/"<h" (little-endian unsigned or signed 16-bit words).
 */
module Bytes {

  type byte = b: int | 0 <= b < 256

  /** `unpack("<b", ...)`: one byte read as two's complement. */
  function S8(b: byte): (r: int)
    ensures -128 <= r < 128 && r % 256 == b
  {
    if b < 128 then b else b - 256
  }

  /** `unpack("<H", ...)`: low byte first, unsigned. */
  function U16(lo: byte, hi: byte): (r: int)
    ensures 0 <= r < 65536 && r % 256 == lo && r / 256 == hi
  {
    lo + 256 * hi
  }

  /** `unpack("<h", ...)`: low byte first, with the sign in the high byte. */
  function S16(lo: byte, hi: byte): (r: int)
    ensures -32768 <= r < 32768 && r % 65536 == U16(lo, hi)
  {
    S8(hi) * 256 + lo
  }

  /** The low byte of v, as `v & 0xFF` gives it. */
  function LowByte(v: int): byte
  {
    v % 256
  }

  /** The second byte of v in two's complement. */
  function HighByte(v: int): byte
  {
    (v / 256) % 256
  }

  /** The two bytes a 16-bit word is transferred as, low byte first. */
  function WordBytes(w: int): (s: seq<byte>)
    requires 0 <= w < 65536
    ensures |s| == 2 && U16(s[0], s[1]) == w
  {
    [LowByte(w), w / 256]
  }

  /** A signed byte survives encoding into its two's-complement byte. */
  lemma S8RoundTrip(v: int)
    requires -128 <= v < 128
    ensures S8(LowByte(v)) == v
  {
  }

  /** Every 16-bit signed value is the "<h" reading of its two bytes. */
  lemma S16RoundTrip(v: int)
    requires -32768 <= v < 32768
    ensures S16(LowByte(v), HighByte(v)) == v
  {
    var q := v / 256;
    assert -128 <= q < 128;
    S8RoundTrip(q);
  }

  /** Every 16-bit unsigned value is the "<H" reading of its two bytes. */
  lemma U16RoundTrip(v: int)
    requires 0 <= v < 65536
    ensures U16(LowByte(v), HighByte(v)) == v
  {
  }

  /** And the bytes of a "<h" reading are the bytes it was read from. */
  lemma S16Bytes(lo: byte, hi: byte)
    ensures LowByte(S16(lo, hi)) == lo && HighByte(S16(lo, hi)) == hi
  {
    var v := S16(lo, hi);
    assert v == S8(hi) * 256 + lo;
    assert v / 256 == S8(hi);
  }

  /** The bytes of a "<H" reading are the bytes it was read from. */
  lemma U16Bytes(lo: byte, hi: byte)
    ensures LowByte(U16(lo, hi)) == lo && HighByte(U16(lo, hi)) == hi
  {
  }

  /** The boundary patterns 0x00, 0x7F, 0x80 and 0xFF, read as signed bytes. */
  lemma S8Boundaries()
    ensures S8(0x00) == 0 && S8(0x7F) == 127 && S8(0x80) == -128 && S8(0xFF) == -1
  {
  }
}
