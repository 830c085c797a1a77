/**
 * Byte-level vocabulary shared by the host tool and the device bootloader:
 * octets, and the big-endian field packing both sides use on the wire
 * (a 24-bit application size and 32-bit checksums). Fixed-width quantities
 * are bit vectors, so C `uint32_t` wrap-around is the vector arithmetic.
 */
module Bytes {

  /** One octet on the wire (C `uint8_t`, one element of a Python `bytearray`). */
  type byte = bv8

  /** Big-endian encoding of a 32-bit value, most significant byte first. */
  function BeBytes32(x: bv32): (r: seq<byte>)
    ensures |r| == 4
  {
    [(x >> 24) as byte, ((x >> 16) & 0xFF) as byte, ((x >> 8) & 0xFF) as byte, (x & 0xFF) as byte]
  }

  /** Big-endian decoding of four bytes. */
  function BeUint32(s: seq<byte>): (r: bv32)
    requires |s| == 4
  {
    ((s[0] as bv32) << 24) | ((s[1] as bv32) << 16) | ((s[2] as bv32) << 8) | (s[3] as bv32)
  }

  /** Big-endian decoding of three bytes into the low 24 bits of a 32-bit value. */
  function BeUint24(s: seq<byte>): (r: bv32)
    requires |s| == 3
  {
    ((s[0] as bv32) << 16) | ((s[1] as bv32) << 8) | (s[2] as bv32)
  }

  /** Decoding undoes encoding. */
  lemma BeUint32OfBytes(x: bv32)
    ensures BeUint32(BeBytes32(x)) == x
  {
  }

  /** Encoding undoes decoding: every four bytes are the encoding of their value. */
  lemma BeBytesOfUint32(s: seq<byte>)
    requires |s| == 4
    ensures BeBytes32(BeUint32(s)) == s
  {
  }

  /** A three-byte field never holds more than 24 bits. */
  lemma BeUint24Bound(s: seq<byte>)
    requires |s| == 3
    ensures BeUint24(s) < 0x100_0000
  {
  }

  /**
   * A value below 2^24 encodes with a zero top byte, and the remaining three
   * bytes decode back to it.
   */
  lemma BeUint24OfBytes(x: bv32)
    requires x < 0x100_0000
    ensures BeBytes32(x)[0] == 0
    ensures BeUint24(BeBytes32(x)[1..]) == x
  {
  }

  /** Two 32-bit values are equal exactly when their encodings are. */
  lemma BeBytes32Injective(x: bv32, y: bv32)
    ensures BeBytes32(x) == BeBytes32(y) <==> x == y
  {
    if BeBytes32(x) == BeBytes32(y) {
      BeUint32OfBytes(x);
      BeUint32OfBytes(y);
    }
  }
}
