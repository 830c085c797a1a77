/**
 * The checksum engine both sides use: a table-driven, MSB-first 32-bit CRC
 * that starts from 0xFFFFFFFF and applies no final XOR (the parameter set
 * usually catalogued as CRC-32/MPEG-2).
 *
 * The device computes it in C `uint32_t` arithmetic, so the left shift drops
 * the top byte; the host computes it on an unbounded Python integer and masks
 * with 0xFFFFFFFF after every byte. Both are modelled and proved equal to the
 * functional definition `Checksum`; the table it steps through is proved
 * entry by entry to be polynomial division in module CrcTable.
 */
module Crc {
  import opened Bytes
  import opened CrcTable

  /** The accumulator's starting value. */
  const Initial: bv32 := 0xFFFF_FFFF

  /** The table slot for the next byte: the accumulator's top byte XOR the input byte. */
  function Index(crc: bv32, b: byte): (r: bv8)
  {
    (((crc >> 24) ^ (b as bv32)) & 0xFF) as bv8
  }

  /** One byte of the device's update, in `uint32_t` arithmetic. */
  function Step(crc: bv32, b: byte): (r: bv32)
  {
    (crc << 8) ^ TableEntry(Index(crc, b))
  }

  /** Step applied to every byte of `s`, first to last, starting from `acc`. */
  function Fold(acc: bv32, s: seq<byte>): (r: bv32)
    decreases |s|
  {
    if |s| == 0 then acc else Fold(Step(acc, s[0]), s[1..])
  }

  /** The checksum of a whole buffer. */
  function Checksum(s: seq<byte>): (r: bv32)
  {
    Fold(Initial, s)
  }

  /** Appending one byte applies one more table step to the running checksum. */
  lemma {:induction false} FoldAppend(acc: bv32, s: seq<byte>, b: byte)
    ensures Fold(acc, s + [b]) == Step(Fold(acc, s), b)
    decreases |s|
  {
    if |s| == 0 {
      assert (s + [b])[1..] == [];
    } else {
      assert (s + [b])[1..] == s[1..] + [b];
      FoldAppend(Step(acc, s[0]), s[1..], b);
    }
  }

  /** The checksum can be computed in pieces: the first piece's result seeds the second. */
  lemma {:induction false} FoldConcat(acc: bv32, s: seq<byte>, t: seq<byte>)
    ensures Fold(acc, s + t) == Fold(Fold(acc, s), t)
    decreases |s|
  {
    if |s| == 0 {
      assert s + t == t;
    } else {
      assert (s + t)[1..] == s[1..] + t;
      FoldConcat(Step(acc, s[0]), s[1..], t);
    }
  }

  /** The empty buffer's checksum is the initial value: no final XOR is applied. */
  lemma ChecksumEmpty()
    ensures Checksum([]) == 0xFFFF_FFFF
  {
  }

  /**
   * The recurrence both implementations run, stated on the whole checksum:
   * crc(s ++ [b]) = ((crc(s) << 8) ^ T[((crc(s) >> 24) ^ b) & 255]) mod 2^32.
   */
  lemma ChecksumSnoc(s: seq<byte>, b: byte)
    ensures Checksum(s + [b])
         == (Checksum(s) << 8) ^ TableEntry(Index(Checksum(s), b))
  {
    FoldAppend(Initial, s, b);
  }

  /** The standard check value of CRC-32/MPEG-2: the checksum of ASCII "123456789" is 0x0376E6E7. */
  lemma CheckValue()
    ensures Checksum([0x31, 0x32, 0x33, 0x34, 0x35, 0x36, 0x37, 0x38, 0x39]) == 0x0376_E6E7
  {
    var s: seq<byte> := [0x31, 0x32, 0x33, 0x34, 0x35, 0x36, 0x37, 0x38, 0x39];
    var c1 := Step(Initial, 0x31);
    assert c1 == 0x9EFB_CF93 by { assert Index(Initial, 0x31) == 0xCE; }
    var c2 := Step(c1, 0x32);
    assert c2 == 0x3FEC_5E6A by { assert Index(c1, 0x32) == 0xAC; }
    var c3 := Step(c2, 0x33);
    assert c3 == 0xD952_F164 by { assert Index(c2, 0x33) == 0x0C; }
    var c4 := Step(c3, 0x34);
    assert c4 == 0xA695_C4AA by { assert Index(c3, 0x34) == 0xED; }
    var c5 := Step(c4, 0x35);
    assert c5 == 0xBD9A_B747 by { assert Index(c4, 0x35) == 0x93; }
    var c6 := Step(c5, 0x36);
    assert c6 == 0xD8F0_6C8F by { assert Index(c5, 0x36) == 0x8B; }
    var c7 := Step(c6, 0x37);
    assert c7 == 0x0D8A_14C4 by { assert Index(c6, 0x37) == 0xEF; }
    var c8 := Step(c7, 0x38);
    assert c8 == 0x49E3_C2FB by { assert Index(c7, 0x38) == 0x35; }
    var c9 := Step(c8, 0x39);
    assert c9 == 0x0376_E6E7 by { assert Index(c8, 0x39) == 0x70; }
    assert Fold(c9, []) == c9;
    assert s[1..][1..][1..][1..][1..][1..][1..][1..][1..] == [];
  }

  /**
   * The device's loop: `size` counts down while a pointer walks the buffer.
   * The caller passes a buffer with at least `appSize` readable bytes.
   */
  method CalculateCrc(buffer: seq<byte>, appSize: nat) returns (crc: bv32)
    requires appSize <= |buffer|
    ensures crc == Checksum(buffer[..appSize])
  {
    var size := appSize;
    var p := 0;
    var calculated: bv32 := 0xFFFF_FFFF;
    while size > 0
      invariant p + size == appSize
      invariant calculated == Checksum(buffer[..p])
      decreases size
    {
      size := size - 1;
      FoldAppend(Initial, buffer[..p], buffer[p]);
      assert buffer[..p + 1] == buffer[..p] + [buffer[p]];
      calculated := Step(calculated, buffer[p]);
      p := p + 1;
    }
    crc := calculated;
  }

  /*
   * The host's loop. The Python accumulator is an unbounded integer, masked to
   * 32 bits at the end of every iteration, so between iterations it is a
   * 32-bit value; the update itself is computed on 64 bits, which hold the
   * unmasked intermediate (below 2^40) exactly.
   */

  /** `crc = (crc << 8) ^ crc32_table[((crc >> 24) ^ data) & 255]` followed by `crc &= 0xffffffff`. */
  function HostStep(crc: bv32, b: byte): (r: bv32)
  {
    var wide := ((crc as bv64) << 8) ^ (TableEntry((((crc as bv64 >> 24) ^ (b as bv64)) & 0xFF) as bv8) as bv64);
    (wide & 0xFFFF_FFFF) as bv32
  }

  /** `while crc_size > 0`: each pass reads `buffer[size - crc_size]`. */
  function HostLoop(buffer: seq<byte>, crcSize: nat, crc: bv32): (r: bv32)
    requires crcSize <= |buffer|
    decreases crcSize
  {
    if crcSize == 0 then crc
    else HostLoop(buffer, crcSize - 1, HostStep(crc, buffer[|buffer| - crcSize]))
  }

  /** The host's `calculate_crc`. */
  function HostCrc(buffer: seq<byte>): (r: bv32)
  {
    HostLoop(buffer, |buffer|, 0xFFFF_FFFF)
  }

  /** Masking the 64-bit update to 32 bits gives the wrapping 32-bit update. */
  lemma HostStepAgrees(crc: bv32, b: byte)
    ensures HostStep(crc, b) == Step(crc, b)
  {
  }

  /** From index `i` on, the host's loop computes the fold of the remaining bytes. */
  lemma {:induction false} HostLoopAgrees(buffer: seq<byte>, i: nat, crc: bv32)
    requires i <= |buffer|
    ensures HostLoop(buffer, |buffer| - i, crc) == Fold(crc, buffer[i..])
    decreases |buffer| - i
  {
    if i < |buffer| {
      HostStepAgrees(crc, buffer[i]);
      HostLoopAgrees(buffer, i + 1, Step(crc, buffer[i]));
      assert buffer[i..][1..] == buffer[i + 1..];
    }
  }

  /** The host's and the device's checksums agree on every buffer. */
  lemma HostCrcIsChecksum(buffer: seq<byte>)
    ensures HostCrc(buffer) == Checksum(buffer)
  {
    HostLoopAgrees(buffer, 0, Initial);
    assert buffer[0..] == buffer;
  }
}
