/**
 * The 256-entry lookup table shared by the host tool and the device
 * bootloader, and the proof that every entry is the MSB-first remainder of
 * its index (placed in the top byte) under the CRC-32/MPEG-2 generator
 * polynomial 0x04C11DB7 of ISO/IEC 13818-1 Annex A.
 */
module CrcTable {

  /** Generator polynomial, MSB-first (the x^32 term is implicit). */
  const Polynomial: bv32 := 0x04C1_1DB7

  /**
   * The lookup table, entry for entry as both implementations spell it out,
   * laid out as sixteen rows of sixteen: the high nibble of the index picks
   * the row and the low nibble the column.
   */
  function TableEntry(j: bv8): (r: bv32)
  {
    var column := j & 0x0F;
    match j >> 4
    case 0x0 => (match column
      case 0x0 => 0x00000000 case 0x1 => 0x04c11db7 case 0x2 => 0x09823b6e case 0x3 => 0x0d4326d9 case 0x4 => 0x130476dc case 0x5 => 0x17c56b6b case 0x6 => 0x1a864db2 case 0x7 => 0x1e475005
      case 0x8 => 0x2608edb8 case 0x9 => 0x22c9f00f case 0xA => 0x2f8ad6d6 case 0xB => 0x2b4bcb61 case 0xC => 0x350c9b64 case 0xD => 0x31cd86d3 case 0xE => 0x3c8ea00a case _ => 0x384fbdbd)
    case 0x1 => (match column
      case 0x0 => 0x4c11db70 case 0x1 => 0x48d0c6c7 case 0x2 => 0x4593e01e case 0x3 => 0x4152fda9 case 0x4 => 0x5f15adac case 0x5 => 0x5bd4b01b case 0x6 => 0x569796c2 case 0x7 => 0x52568b75
      case 0x8 => 0x6a1936c8 case 0x9 => 0x6ed82b7f case 0xA => 0x639b0da6 case 0xB => 0x675a1011 case 0xC => 0x791d4014 case 0xD => 0x7ddc5da3 case 0xE => 0x709f7b7a case _ => 0x745e66cd)
    case 0x2 => (match column
      case 0x0 => 0x9823b6e0 case 0x1 => 0x9ce2ab57 case 0x2 => 0x91a18d8e case 0x3 => 0x95609039 case 0x4 => 0x8b27c03c case 0x5 => 0x8fe6dd8b case 0x6 => 0x82a5fb52 case 0x7 => 0x8664e6e5
      case 0x8 => 0xbe2b5b58 case 0x9 => 0xbaea46ef case 0xA => 0xb7a96036 case 0xB => 0xb3687d81 case 0xC => 0xad2f2d84 case 0xD => 0xa9ee3033 case 0xE => 0xa4ad16ea case _ => 0xa06c0b5d)
    case 0x3 => (match column
      case 0x0 => 0xd4326d90 case 0x1 => 0xd0f37027 case 0x2 => 0xddb056fe case 0x3 => 0xd9714b49 case 0x4 => 0xc7361b4c case 0x5 => 0xc3f706fb case 0x6 => 0xceb42022 case 0x7 => 0xca753d95
      case 0x8 => 0xf23a8028 case 0x9 => 0xf6fb9d9f case 0xA => 0xfbb8bb46 case 0xB => 0xff79a6f1 case 0xC => 0xe13ef6f4 case 0xD => 0xe5ffeb43 case 0xE => 0xe8bccd9a case _ => 0xec7dd02d)
    case 0x4 => (match column
      case 0x0 => 0x34867077 case 0x1 => 0x30476dc0 case 0x2 => 0x3d044b19 case 0x3 => 0x39c556ae case 0x4 => 0x278206ab case 0x5 => 0x23431b1c case 0x6 => 0x2e003dc5 case 0x7 => 0x2ac12072
      case 0x8 => 0x128e9dcf case 0x9 => 0x164f8078 case 0xA => 0x1b0ca6a1 case 0xB => 0x1fcdbb16 case 0xC => 0x018aeb13 case 0xD => 0x054bf6a4 case 0xE => 0x0808d07d case _ => 0x0cc9cdca)
    case 0x5 => (match column
      case 0x0 => 0x7897ab07 case 0x1 => 0x7c56b6b0 case 0x2 => 0x71159069 case 0x3 => 0x75d48dde case 0x4 => 0x6b93dddb case 0x5 => 0x6f52c06c case 0x6 => 0x6211e6b5 case 0x7 => 0x66d0fb02
      case 0x8 => 0x5e9f46bf case 0x9 => 0x5a5e5b08 case 0xA => 0x571d7dd1 case 0xB => 0x53dc6066 case 0xC => 0x4d9b3063 case 0xD => 0x495a2dd4 case 0xE => 0x44190b0d case _ => 0x40d816ba)
    case 0x6 => (match column
      case 0x0 => 0xaca5c697 case 0x1 => 0xa864db20 case 0x2 => 0xa527fdf9 case 0x3 => 0xa1e6e04e case 0x4 => 0xbfa1b04b case 0x5 => 0xbb60adfc case 0x6 => 0xb6238b25 case 0x7 => 0xb2e29692
      case 0x8 => 0x8aad2b2f case 0x9 => 0x8e6c3698 case 0xA => 0x832f1041 case 0xB => 0x87ee0df6 case 0xC => 0x99a95df3 case 0xD => 0x9d684044 case 0xE => 0x902b669d case _ => 0x94ea7b2a)
    case 0x7 => (match column
      case 0x0 => 0xe0b41de7 case 0x1 => 0xe4750050 case 0x2 => 0xe9362689 case 0x3 => 0xedf73b3e case 0x4 => 0xf3b06b3b case 0x5 => 0xf771768c case 0x6 => 0xfa325055 case 0x7 => 0xfef34de2
      case 0x8 => 0xc6bcf05f case 0x9 => 0xc27dede8 case 0xA => 0xcf3ecb31 case 0xB => 0xcbffd686 case 0xC => 0xd5b88683 case 0xD => 0xd1799b34 case 0xE => 0xdc3abded case _ => 0xd8fba05a)
    case 0x8 => (match column
      case 0x0 => 0x690ce0ee case 0x1 => 0x6dcdfd59 case 0x2 => 0x608edb80 case 0x3 => 0x644fc637 case 0x4 => 0x7a089632 case 0x5 => 0x7ec98b85 case 0x6 => 0x738aad5c case 0x7 => 0x774bb0eb
      case 0x8 => 0x4f040d56 case 0x9 => 0x4bc510e1 case 0xA => 0x46863638 case 0xB => 0x42472b8f case 0xC => 0x5c007b8a case 0xD => 0x58c1663d case 0xE => 0x558240e4 case _ => 0x51435d53)
    case 0x9 => (match column
      case 0x0 => 0x251d3b9e case 0x1 => 0x21dc2629 case 0x2 => 0x2c9f00f0 case 0x3 => 0x285e1d47 case 0x4 => 0x36194d42 case 0x5 => 0x32d850f5 case 0x6 => 0x3f9b762c case 0x7 => 0x3b5a6b9b
      case 0x8 => 0x0315d626 case 0x9 => 0x07d4cb91 case 0xA => 0x0a97ed48 case 0xB => 0x0e56f0ff case 0xC => 0x1011a0fa case 0xD => 0x14d0bd4d case 0xE => 0x19939b94 case _ => 0x1d528623)
    case 0xA => (match column
      case 0x0 => 0xf12f560e case 0x1 => 0xf5ee4bb9 case 0x2 => 0xf8ad6d60 case 0x3 => 0xfc6c70d7 case 0x4 => 0xe22b20d2 case 0x5 => 0xe6ea3d65 case 0x6 => 0xeba91bbc case 0x7 => 0xef68060b
      case 0x8 => 0xd727bbb6 case 0x9 => 0xd3e6a601 case 0xA => 0xdea580d8 case 0xB => 0xda649d6f case 0xC => 0xc423cd6a case 0xD => 0xc0e2d0dd case 0xE => 0xcda1f604 case _ => 0xc960ebb3)
    case 0xB => (match column
      case 0x0 => 0xbd3e8d7e case 0x1 => 0xb9ff90c9 case 0x2 => 0xb4bcb610 case 0x3 => 0xb07daba7 case 0x4 => 0xae3afba2 case 0x5 => 0xaafbe615 case 0x6 => 0xa7b8c0cc case 0x7 => 0xa379dd7b
      case 0x8 => 0x9b3660c6 case 0x9 => 0x9ff77d71 case 0xA => 0x92b45ba8 case 0xB => 0x9675461f case 0xC => 0x8832161a case 0xD => 0x8cf30bad case 0xE => 0x81b02d74 case _ => 0x857130c3)
    case 0xC => (match column
      case 0x0 => 0x5d8a9099 case 0x1 => 0x594b8d2e case 0x2 => 0x5408abf7 case 0x3 => 0x50c9b640 case 0x4 => 0x4e8ee645 case 0x5 => 0x4a4ffbf2 case 0x6 => 0x470cdd2b case 0x7 => 0x43cdc09c
      case 0x8 => 0x7b827d21 case 0x9 => 0x7f436096 case 0xA => 0x7200464f case 0xB => 0x76c15bf8 case 0xC => 0x68860bfd case 0xD => 0x6c47164a case 0xE => 0x61043093 case _ => 0x65c52d24)
    case 0xD => (match column
      case 0x0 => 0x119b4be9 case 0x1 => 0x155a565e case 0x2 => 0x18197087 case 0x3 => 0x1cd86d30 case 0x4 => 0x029f3d35 case 0x5 => 0x065e2082 case 0x6 => 0x0b1d065b case 0x7 => 0x0fdc1bec
      case 0x8 => 0x3793a651 case 0x9 => 0x3352bbe6 case 0xA => 0x3e119d3f case 0xB => 0x3ad08088 case 0xC => 0x2497d08d case 0xD => 0x2056cd3a case 0xE => 0x2d15ebe3 case _ => 0x29d4f654)
    case 0xE => (match column
      case 0x0 => 0xc5a92679 case 0x1 => 0xc1683bce case 0x2 => 0xcc2b1d17 case 0x3 => 0xc8ea00a0 case 0x4 => 0xd6ad50a5 case 0x5 => 0xd26c4d12 case 0x6 => 0xdf2f6bcb case 0x7 => 0xdbee767c
      case 0x8 => 0xe3a1cbc1 case 0x9 => 0xe760d676 case 0xA => 0xea23f0af case 0xB => 0xeee2ed18 case 0xC => 0xf0a5bd1d case 0xD => 0xf464a0aa case 0xE => 0xf9278673 case _ => 0xfde69bc4)
    case 0xF => (match column
      case 0x0 => 0x89b8fd09 case 0x1 => 0x8d79e0be case 0x2 => 0x803ac667 case 0x3 => 0x84fbdbd0 case 0x4 => 0x9abc8bd5 case 0x5 => 0x9e7d9662 case 0x6 => 0x933eb0bb case 0x7 => 0x97ffad0c
      case 0x8 => 0xafb010b1 case 0x9 => 0xab710d06 case 0xA => 0xa6322bdf case 0xB => 0xa2f33668 case 0xC => 0xbcb4666d case 0xD => 0xb8757bda case 0xE => 0xb5365d03 case _ => 0xb1f740b4)
  }

  /** One bit of long division by the polynomial: shift left, and reduce when a 1 falls off the top. */
  function DivisionStep(c: bv32): (r: bv32)
  {
    if c & 0x8000_0000 != 0 then (c << 1) ^ Polynomial else c << 1
  }

  /** Eight bits of long division: the remainder contributed by one byte. */
  function DivideByte(c: bv32): (r: bv32)
  {
    DivisionStep(DivisionStep(DivisionStep(DivisionStep(
      DivisionStep(DivisionStep(DivisionStep(DivisionStep(c))))))))
  }

  /** The table entry the polynomial determines for index `j`. */
  function BitwiseEntry(j: bv8): (r: bv32)
  {
    DivideByte((j as bv32) << 24)
  }

  /** Row 0x0 of the table: indices 0x00 to 0x0F. */
  lemma TableRow0(j: bv8)
    requires j < 0x10
    ensures TableEntry(j) == BitwiseEntry(j)
  {
    if j == 0x00 {}
    else if j == 0x01 {}
    else if j == 0x02 {}
    else if j == 0x03 {}
    else if j == 0x04 {}
    else if j == 0x05 {}
    else if j == 0x06 {}
    else if j == 0x07 {}
    else if j == 0x08 {}
    else if j == 0x09 {}
    else if j == 0x0A {}
    else if j == 0x0B {}
    else if j == 0x0C {}
    else if j == 0x0D {}
    else if j == 0x0E {}
    else {}
  }

  /** Row 0x1 of the table: indices 0x10 to 0x1F. */
  lemma TableRow1(j: bv8)
    requires 0x10 <= j < 0x20
    ensures TableEntry(j) == BitwiseEntry(j)
  {
    if j == 0x10 {}
    else if j == 0x11 {}
    else if j == 0x12 {}
    else if j == 0x13 {}
    else if j == 0x14 {}
    else if j == 0x15 {}
    else if j == 0x16 {}
    else if j == 0x17 {}
    else if j == 0x18 {}
    else if j == 0x19 {}
    else if j == 0x1A {}
    else if j == 0x1B {}
    else if j == 0x1C {}
    else if j == 0x1D {}
    else if j == 0x1E {}
    else {}
  }

  /** Row 0x2 of the table: indices 0x20 to 0x2F. */
  lemma TableRow2(j: bv8)
    requires 0x20 <= j < 0x30
    ensures TableEntry(j) == BitwiseEntry(j)
  {
    if j == 0x20 {}
    else if j == 0x21 {}
    else if j == 0x22 {}
    else if j == 0x23 {}
    else if j == 0x24 {}
    else if j == 0x25 {}
    else if j == 0x26 {}
    else if j == 0x27 {}
    else if j == 0x28 {}
    else if j == 0x29 {}
    else if j == 0x2A {}
    else if j == 0x2B {}
    else if j == 0x2C {}
    else if j == 0x2D {}
    else if j == 0x2E {}
    else {}
  }

  /** Row 0x3 of the table: indices 0x30 to 0x3F. */
  lemma TableRow3(j: bv8)
    requires 0x30 <= j < 0x40
    ensures TableEntry(j) == BitwiseEntry(j)
  {
    if j == 0x30 {}
    else if j == 0x31 {}
    else if j == 0x32 {}
    else if j == 0x33 {}
    else if j == 0x34 {}
    else if j == 0x35 {}
    else if j == 0x36 {}
    else if j == 0x37 {}
    else if j == 0x38 {}
    else if j == 0x39 {}
    else if j == 0x3A {}
    else if j == 0x3B {}
    else if j == 0x3C {}
    else if j == 0x3D {}
    else if j == 0x3E {}
    else {}
  }

  /** Row 0x4 of the table: indices 0x40 to 0x4F. */
  lemma TableRow4(j: bv8)
    requires 0x40 <= j < 0x50
    ensures TableEntry(j) == BitwiseEntry(j)
  {
    if j == 0x40 {}
    else if j == 0x41 {}
    else if j == 0x42 {}
    else if j == 0x43 {}
    else if j == 0x44 {}
    else if j == 0x45 {}
    else if j == 0x46 {}
    else if j == 0x47 {}
    else if j == 0x48 {}
    else if j == 0x49 {}
    else if j == 0x4A {}
    else if j == 0x4B {}
    else if j == 0x4C {}
    else if j == 0x4D {}
    else if j == 0x4E {}
    else {}
  }

  /** Row 0x5 of the table: indices 0x50 to 0x5F. */
  lemma TableRow5(j: bv8)
    requires 0x50 <= j < 0x60
    ensures TableEntry(j) == BitwiseEntry(j)
  {
    if j == 0x50 {}
    else if j == 0x51 {}
    else if j == 0x52 {}
    else if j == 0x53 {}
    else if j == 0x54 {}
    else if j == 0x55 {}
    else if j == 0x56 {}
    else if j == 0x57 {}
    else if j == 0x58 {}
    else if j == 0x59 {}
    else if j == 0x5A {}
    else if j == 0x5B {}
    else if j == 0x5C {}
    else if j == 0x5D {}
    else if j == 0x5E {}
    else {}
  }

  /** Row 0x6 of the table: indices 0x60 to 0x6F. */
  lemma TableRow6(j: bv8)
    requires 0x60 <= j < 0x70
    ensures TableEntry(j) == BitwiseEntry(j)
  {
    if j == 0x60 {}
    else if j == 0x61 {}
    else if j == 0x62 {}
    else if j == 0x63 {}
    else if j == 0x64 {}
    else if j == 0x65 {}
    else if j == 0x66 {}
    else if j == 0x67 {}
    else if j == 0x68 {}
    else if j == 0x69 {}
    else if j == 0x6A {}
    else if j == 0x6B {}
    else if j == 0x6C {}
    else if j == 0x6D {}
    else if j == 0x6E {}
    else {}
  }

  /** Row 0x7 of the table: indices 0x70 to 0x7F. */
  lemma TableRow7(j: bv8)
    requires 0x70 <= j < 0x80
    ensures TableEntry(j) == BitwiseEntry(j)
  {
    if j == 0x70 {}
    else if j == 0x71 {}
    else if j == 0x72 {}
    else if j == 0x73 {}
    else if j == 0x74 {}
    else if j == 0x75 {}
    else if j == 0x76 {}
    else if j == 0x77 {}
    else if j == 0x78 {}
    else if j == 0x79 {}
    else if j == 0x7A {}
    else if j == 0x7B {}
    else if j == 0x7C {}
    else if j == 0x7D {}
    else if j == 0x7E {}
    else {}
  }

  /** Row 0x8 of the table: indices 0x80 to 0x8F. */
  lemma TableRow8(j: bv8)
    requires 0x80 <= j < 0x90
    ensures TableEntry(j) == BitwiseEntry(j)
  {
    if j == 0x80 {}
    else if j == 0x81 {}
    else if j == 0x82 {}
    else if j == 0x83 {}
    else if j == 0x84 {}
    else if j == 0x85 {}
    else if j == 0x86 {}
    else if j == 0x87 {}
    else if j == 0x88 {}
    else if j == 0x89 {}
    else if j == 0x8A {}
    else if j == 0x8B {}
    else if j == 0x8C {}
    else if j == 0x8D {}
    else if j == 0x8E {}
    else {}
  }

  /** Row 0x9 of the table: indices 0x90 to 0x9F. */
  lemma TableRow9(j: bv8)
    requires 0x90 <= j < 0xA0
    ensures TableEntry(j) == BitwiseEntry(j)
  {
    if j == 0x90 {}
    else if j == 0x91 {}
    else if j == 0x92 {}
    else if j == 0x93 {}
    else if j == 0x94 {}
    else if j == 0x95 {}
    else if j == 0x96 {}
    else if j == 0x97 {}
    else if j == 0x98 {}
    else if j == 0x99 {}
    else if j == 0x9A {}
    else if j == 0x9B {}
    else if j == 0x9C {}
    else if j == 0x9D {}
    else if j == 0x9E {}
    else {}
  }

  /** Row 0xA of the table: indices 0xA0 to 0xAF. */
  lemma TableRowA(j: bv8)
    requires 0xA0 <= j < 0xB0
    ensures TableEntry(j) == BitwiseEntry(j)
  {
    if j == 0xA0 {}
    else if j == 0xA1 {}
    else if j == 0xA2 {}
    else if j == 0xA3 {}
    else if j == 0xA4 {}
    else if j == 0xA5 {}
    else if j == 0xA6 {}
    else if j == 0xA7 {}
    else if j == 0xA8 {}
    else if j == 0xA9 {}
    else if j == 0xAA {}
    else if j == 0xAB {}
    else if j == 0xAC {}
    else if j == 0xAD {}
    else if j == 0xAE {}
    else {}
  }

  /** Row 0xB of the table: indices 0xB0 to 0xBF. */
  lemma TableRowB(j: bv8)
    requires 0xB0 <= j < 0xC0
    ensures TableEntry(j) == BitwiseEntry(j)
  {
    if j == 0xB0 {}
    else if j == 0xB1 {}
    else if j == 0xB2 {}
    else if j == 0xB3 {}
    else if j == 0xB4 {}
    else if j == 0xB5 {}
    else if j == 0xB6 {}
    else if j == 0xB7 {}
    else if j == 0xB8 {}
    else if j == 0xB9 {}
    else if j == 0xBA {}
    else if j == 0xBB {}
    else if j == 0xBC {}
    else if j == 0xBD {}
    else if j == 0xBE {}
    else {}
  }

  /** Row 0xC of the table: indices 0xC0 to 0xCF. */
  lemma TableRowC(j: bv8)
    requires 0xC0 <= j < 0xD0
    ensures TableEntry(j) == BitwiseEntry(j)
  {
    if j == 0xC0 {}
    else if j == 0xC1 {}
    else if j == 0xC2 {}
    else if j == 0xC3 {}
    else if j == 0xC4 {}
    else if j == 0xC5 {}
    else if j == 0xC6 {}
    else if j == 0xC7 {}
    else if j == 0xC8 {}
    else if j == 0xC9 {}
    else if j == 0xCA {}
    else if j == 0xCB {}
    else if j == 0xCC {}
    else if j == 0xCD {}
    else if j == 0xCE {}
    else {}
  }

  /** Row 0xD of the table: indices 0xD0 to 0xDF. */
  lemma TableRowD(j: bv8)
    requires 0xD0 <= j < 0xE0
    ensures TableEntry(j) == BitwiseEntry(j)
  {
    if j == 0xD0 {}
    else if j == 0xD1 {}
    else if j == 0xD2 {}
    else if j == 0xD3 {}
    else if j == 0xD4 {}
    else if j == 0xD5 {}
    else if j == 0xD6 {}
    else if j == 0xD7 {}
    else if j == 0xD8 {}
    else if j == 0xD9 {}
    else if j == 0xDA {}
    else if j == 0xDB {}
    else if j == 0xDC {}
    else if j == 0xDD {}
    else if j == 0xDE {}
    else {}
  }

  /** Row 0xE of the table: indices 0xE0 to 0xEF. */
  lemma TableRowE(j: bv8)
    requires 0xE0 <= j < 0xF0
    ensures TableEntry(j) == BitwiseEntry(j)
  {
    if j == 0xE0 {}
    else if j == 0xE1 {}
    else if j == 0xE2 {}
    else if j == 0xE3 {}
    else if j == 0xE4 {}
    else if j == 0xE5 {}
    else if j == 0xE6 {}
    else if j == 0xE7 {}
    else if j == 0xE8 {}
    else if j == 0xE9 {}
    else if j == 0xEA {}
    else if j == 0xEB {}
    else if j == 0xEC {}
    else if j == 0xED {}
    else if j == 0xEE {}
    else {}
  }

  /** Row 0xF of the table: indices 0xF0 to 0xFF. */
  lemma TableRowF(j: bv8)
    requires 0xF0 <= j
    ensures TableEntry(j) == BitwiseEntry(j)
  {
    if j == 0xF0 {}
    else if j == 0xF1 {}
    else if j == 0xF2 {}
    else if j == 0xF3 {}
    else if j == 0xF4 {}
    else if j == 0xF5 {}
    else if j == 0xF6 {}
    else if j == 0xF7 {}
    else if j == 0xF8 {}
    else if j == 0xF9 {}
    else if j == 0xFA {}
    else if j == 0xFB {}
    else if j == 0xFC {}
    else if j == 0xFD {}
    else if j == 0xFE {}
    else {}
  }

  /** Every table entry is the polynomial-division remainder of its index. */
  lemma TableIsBitwise(j: bv8)
    ensures TableEntry(j) == BitwiseEntry(j)
  {
    match j >> 4
    case 0x0 => TableRow0(j);
    case 0x1 => TableRow1(j);
    case 0x2 => TableRow2(j);
    case 0x3 => TableRow3(j);
    case 0x4 => TableRow4(j);
    case 0x5 => TableRow5(j);
    case 0x6 => TableRow6(j);
    case 0x7 => TableRow7(j);
    case 0x8 => TableRow8(j);
    case 0x9 => TableRow9(j);
    case 0xA => TableRowA(j);
    case 0xB => TableRowB(j);
    case 0xC => TableRowC(j);
    case 0xD => TableRowD(j);
    case 0xE => TableRowE(j);
    case _ => TableRowF(j);
  }

  /** Entry 1 is the polynomial itself and entry 0 is zero. */
  lemma TableShape()
    ensures TableEntry(1) == Polynomial
    ensures TableEntry(0) == 0
  {
  }
}
