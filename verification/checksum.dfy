/**
 * The two checksums of the chip protocol (src/BatMan.cpp):
 *  - calcCRC, a table-driven CRC-8 seeded with 0x10 that forms the PEC byte
 *    of every register-read command;
 *  - crc14_bytes / crc14_bits, a table-driven CRC-14 over the polynomial
 *    0x025B with a byte phase followed by a partial-bit phase, protecting
 *    configuration writes.
 */
module Checksum {
  import opened Common

  // ---------------------------------------------------------------- CRC-8

  /**
   * crcTable2f, row by row as the firmware lists it. The firmware's
   * initialiser stops after fifteen rows of a 256-entry array, so C fills the
   * sixteenth row (indices 0xF0..0xFF) with zeros; that row is written out here.
   */
  const Crc8Rows: seq<seq<bv8>> := [
      [0x00, 0x2F, 0x5E, 0x71, 0xBC, 0x93, 0xE2, 0xCD, 0x57, 0x78, 0x09, 0x26, 0xEB, 0xC4, 0xB5, 0x9A],
      [0xAE, 0x81, 0xF0, 0xDF, 0x12, 0x3D, 0x4C, 0x63, 0xF9, 0xD6, 0xA7, 0x88, 0x45, 0x6A, 0x1B, 0x34],
      [0x73, 0x5C, 0x2D, 0x02, 0xCF, 0xE0, 0x91, 0xBE, 0x24, 0x0B, 0x7A, 0x55, 0x98, 0xB7, 0xC6, 0xE9],
      [0xDD, 0xF2, 0x83, 0xAC, 0x61, 0x4E, 0x3F, 0x10, 0x8A, 0xA5, 0xD4, 0xFB, 0x36, 0x19, 0x68, 0x47],
      [0xE6, 0xC9, 0xB8, 0x97, 0x5A, 0x75, 0x04, 0x2B, 0xB1, 0x9E, 0xEF, 0xC0, 0x0D, 0x22, 0x53, 0x7C],
      [0x48, 0x67, 0x16, 0x39, 0xF4, 0xDB, 0xAA, 0x85, 0x1F, 0x30, 0x41, 0x6E, 0xA3, 0x8C, 0xFD, 0xD2],
      [0x95, 0xBA, 0xCB, 0xE4, 0x29, 0x06, 0x77, 0x58, 0xC2, 0xED, 0x9C, 0xB3, 0x7E, 0x51, 0x20, 0x0F],
      [0x3B, 0x14, 0x65, 0x4A, 0x87, 0xA8, 0xD9, 0xF6, 0x6C, 0x43, 0x32, 0x1D, 0xD0, 0xFF, 0x8E, 0xA1],
      [0xE3, 0xCC, 0xBD, 0x92, 0x5F, 0x70, 0x01, 0x2E, 0xB4, 0x9B, 0xEA, 0xC5, 0x08, 0x27, 0x56, 0x79],
      [0x4D, 0x62, 0x13, 0x3C, 0xF1, 0xDE, 0xAF, 0x80, 0x1A, 0x35, 0x44, 0x6B, 0xA6, 0x89, 0xF8, 0xD7],
      [0x90, 0xBF, 0xCE, 0xE1, 0x2C, 0x03, 0x72, 0x5D, 0xC7, 0xE8, 0x99, 0xB6, 0x7B, 0x54, 0x25, 0x0A],
      [0x3E, 0x11, 0x60, 0x4F, 0x82, 0xA1, 0xD0, 0xFF, 0x3A, 0x15, 0x64, 0x4B, 0x86, 0xA5, 0xD4, 0xFB],
      [0x05, 0x2A, 0x5B, 0x74, 0xB9, 0x96, 0xE7, 0xC8, 0x42, 0x6D, 0x1C, 0x33, 0xFE, 0xD1, 0xA0, 0x8F],
      [0xAB, 0x84, 0xF5, 0xDA, 0x17, 0x38, 0x49, 0x66, 0xFC, 0xD3, 0xA2, 0x8D, 0x40, 0x6F, 0x1E, 0x31],
      [0x76, 0x59, 0x28, 0x07, 0xCA, 0xE5, 0x94, 0xBB, 0x21, 0x0E, 0x7F, 0x50, 0x9D, 0xB2, 0xC3, 0xE4],
      [0x00, 0x00, 0x00, 0x00, 0x00, 0x00, 0x00, 0x00, 0x00, 0x00, 0x00, 0x00, 0x00, 0x00, 0x00, 0x00]
  ]

  function Crc8Table(i: bv8): bv8
  {
    Crc8Rows[(i / 16) as int][(i % 16) as int]
  }

  const Crc8Seed: bv8 := 0x10

  /** A table-driven CRC-8 over `data`, first byte first: each byte is XORed into the running value `crc`, which is then looked up. */
  function TableFold(table: bv8 -> bv8, crc: bv8, data: seq<bv8>): bv8
    decreases |data|
  {
    if |data| == 0 then crc else TableFold(table, table(crc ^ data[0]), data[1..])
  }

  /** Folding one more byte is one more table step on the running value, whatever the table. */
  lemma {:induction false} TableFoldSnoc(table: bv8 -> bv8, crc: bv8, data: seq<bv8>, b: bv8)
    ensures TableFold(table, crc, data + [b]) == table(TableFold(table, crc, data) ^ b)
    decreases |data|
  {
    if |data| == 0 {
      assert data + [b] == [b];
    } else {
      assert (data + [b])[1..] == data[1..] + [b];
      TableFoldSnoc(table, table(crc ^ data[0]), data[1..], b);
    }
  }

  /** The PEC obtained by folding `data`, first byte first, into the running value `crc` with crcTable2f. */
  function Crc8Fold(crc: bv8, data: seq<bv8>): bv8
    decreases |data|
  {
    if |data| == 0 then crc else Crc8Fold(Crc8Table(crc ^ data[0]), data[1..])
  }

  /** Crc8Fold is the table-driven fold with crcTable2f as its table. */
  lemma {:induction false} Crc8FoldIsTableFold(crc: bv8, data: seq<bv8>)
    ensures Crc8Fold(crc, data) == TableFold(Crc8Table, crc, data)
    decreases |data|
  {
    if |data| > 0 {
      Crc8FoldIsTableFold(Crc8Table(crc ^ data[0]), data[1..]);
    }
  }

  /** Folding one more byte is one more lookup in crcTable2f. */
  lemma Crc8FoldSnoc(crc: bv8, data: seq<bv8>, b: bv8)
    ensures Crc8Fold(crc, data + [b]) == Crc8Table(Crc8Fold(crc, data) ^ b)
  {
    Crc8FoldIsTableFold(crc, data + [b]);
    Crc8FoldIsTableFold(crc, data);
    TableFoldSnoc(Crc8Table, crc, data, b);
  }

  /** calcCRC: the loop over the `Length` bytes of `inData` (a uint8_t length). */
  method CalcCrc(data: seq<bv8>) returns (crc: bv8)
    requires |data| < 256
    ensures crc == Crc8Fold(Crc8Seed, data)
    ensures |data| == 0 ==> crc == Crc8Seed
    ensures |data| > 0 ==> crc == Crc8Table(Crc8Fold(Crc8Seed, data[..|data| - 1]) ^ data[|data| - 1])
  {
    crc := Crc8Seed;
    var i := 0;
    while i < |data|
      invariant 0 <= i <= |data|
      invariant crc == Crc8Fold(Crc8Seed, data[..i])
    {
      Crc8FoldSnoc(Crc8Seed, data[..i], data[i]);
      assert data[..i + 1] == data[..i] + [data[i]];
      crc := Crc8Table(crc ^ data[i]);
      i := i + 1;
    }
    assert data[..i] == data;
    if |data| > 0 {
      Crc8FoldSnoc(Crc8Seed, data[..|data| - 1], data[|data| - 1]);
      assert data[..|data| - 1] + [data[|data| - 1]] == data;
    }
  }

  /** The PEC byte of the read command for register `id`: calcCRC over {id, 0}. */
  function ReadPec(id: bv8): bv8
  {
    Crc8Fold(Crc8Seed, [id, 0])
  }

  /**
   * The PEC bytes of the cell-voltage group reads A, B and C agree with the
   * command table kept in the firmware's comments.
   */
  lemma ReadPecGroupsAtoC()
    ensures ReadPec(0x47) == 0x70 && ReadPec(0x48) == 0x34 && ReadPec(0x49) == 0xDD
  {
  }

  /** The same for the cell-voltage group reads D, E and F. */
  lemma ReadPecGroupsDtoF()
    ensures ReadPec(0x4A) == 0xC9 && ReadPec(0x4B) == 0x20 && ReadPec(0x4C) == 0xE1
  {
  }

  /** The same for the Aux A, status and configuration reads. */
  lemma ReadPecOtherVectors()
    ensures ReadPec(0x4D) == 0x08 && ReadPec(0x4F) == 0xF5 && ReadPec(0x50) == 0x94
  {
  }

  /**
   * For Aux B (0x4E) the fold reaches the zero-filled sixteenth row, so the
   * table gives 0x00 where the commented command table lists 0x33.
   */
  lemma ReadPecAuxB()
    ensures ReadPec(0x4E) == 0x00
  {
  }

  /** The table is not XOR-linear, so it cannot be regenerated from a polynomial. */
  lemma Crc8TableNotLinear()
    ensures Crc8Table(0xB0 ^ 0x05) != Crc8Table(0xB0) ^ Crc8Table(0x05)
    ensures Crc8Table(0xF0) == 0 && Crc8Table(0x00) == 0
  {
  }

  // --------------------------------------------------------------- CRC-14

  /** crc14table, eight entries per row as in the firmware. */
  const Crc14Rows: seq<seq<bv16>> := [
      [0x0000, 0x025b, 0x04b6, 0x06ed, 0x096c, 0x0b37, 0x0dda, 0x0f81],
      [0x12d8, 0x1083, 0x166e, 0x1435, 0x1bb4, 0x19ef, 0x1f02, 0x1d59],
      [0x25b0, 0x27eb, 0x2106, 0x235d, 0x2cdc, 0x2e87, 0x286a, 0x2a31],
      [0x3768, 0x3533, 0x33de, 0x3185, 0x3e04, 0x3c5f, 0x3ab2, 0x38e9],
      [0x093b, 0x0b60, 0x0d8d, 0x0fd6, 0x0057, 0x020c, 0x04e1, 0x06ba],
      [0x1be3, 0x19b8, 0x1f55, 0x1d0e, 0x128f, 0x10d4, 0x1639, 0x1462],
      [0x2c8b, 0x2ed0, 0x283d, 0x2a66, 0x25e7, 0x27bc, 0x2151, 0x230a],
      [0x3e53, 0x3c08, 0x3ae5, 0x38be, 0x373f, 0x3564, 0x3389, 0x31d2],
      [0x1276, 0x102d, 0x16c0, 0x149b, 0x1b1a, 0x1941, 0x1fac, 0x1df7],
      [0x00ae, 0x02f5, 0x0418, 0x0643, 0x09c2, 0x0b99, 0x0d74, 0x0f2f],
      [0x37c6, 0x359d, 0x3370, 0x312b, 0x3eaa, 0x3cf1, 0x3a1c, 0x3847],
      [0x251e, 0x2745, 0x21a8, 0x23f3, 0x2c72, 0x2e29, 0x28c4, 0x2a9f],
      [0x1b4d, 0x1916, 0x1ffb, 0x1da0, 0x1221, 0x107a, 0x1697, 0x14cc],
      [0x0995, 0x0bce, 0x0d23, 0x0f78, 0x00f9, 0x02a2, 0x044f, 0x0614],
      [0x3efd, 0x3ca6, 0x3a4b, 0x3810, 0x3791, 0x35ca, 0x3327, 0x317c],
      [0x2c25, 0x2e7e, 0x2893, 0x2ac8, 0x2549, 0x2712, 0x21ff, 0x23a4],
      [0x24ec, 0x26b7, 0x205a, 0x2201, 0x2d80, 0x2fdb, 0x2936, 0x2b6d],
      [0x3634, 0x346f, 0x3282, 0x30d9, 0x3f58, 0x3d03, 0x3bee, 0x39b5],
      [0x015c, 0x0307, 0x05ea, 0x07b1, 0x0830, 0x0a6b, 0x0c86, 0x0edd],
      [0x1384, 0x11df, 0x1732, 0x1569, 0x1ae8, 0x18b3, 0x1e5e, 0x1c05],
      [0x2dd7, 0x2f8c, 0x2961, 0x2b3a, 0x24bb, 0x26e0, 0x200d, 0x2256],
      [0x3f0f, 0x3d54, 0x3bb9, 0x39e2, 0x3663, 0x3438, 0x32d5, 0x308e],
      [0x0867, 0x0a3c, 0x0cd1, 0x0e8a, 0x010b, 0x0350, 0x05bd, 0x07e6],
      [0x1abf, 0x18e4, 0x1e09, 0x1c52, 0x13d3, 0x1188, 0x1765, 0x153e],
      [0x369a, 0x34c1, 0x322c, 0x3077, 0x3ff6, 0x3dad, 0x3b40, 0x391b],
      [0x2442, 0x2619, 0x20f4, 0x22af, 0x2d2e, 0x2f75, 0x2998, 0x2bc3],
      [0x132a, 0x1171, 0x179c, 0x15c7, 0x1a46, 0x181d, 0x1ef0, 0x1cab],
      [0x01f2, 0x03a9, 0x0544, 0x071f, 0x089e, 0x0ac5, 0x0c28, 0x0e73],
      [0x3fa1, 0x3dfa, 0x3b17, 0x394c, 0x36cd, 0x3496, 0x327b, 0x3020],
      [0x2d79, 0x2f22, 0x29cf, 0x2b94, 0x2415, 0x264e, 0x20a3, 0x22f8],
      [0x1a11, 0x184a, 0x1ea7, 0x1cfc, 0x137d, 0x1126, 0x17cb, 0x1590],
      [0x08c9, 0x0a92, 0x0c7f, 0x0e24, 0x01a5, 0x03fe, 0x0513, 0x0748]
  ]

  function Crc14Table(i: bv8): bv16
  {
    Crc14Rows[(i / 8) as int][(i % 8) as int]
  }

  /** utilTopN: the mask keeping the top `n` bits of a byte. */
  const UtilTopN: seq<bv8> := [0x00, 0x80, 0xC0, 0xE0, 0xF0, 0xF8, 0xFC, 0xFE, 0xFF]

  /** One iteration of the byte loop of crc14_bytes, with the uint8_t cast of the index. */
  function Crc14ByteStep(crc: bv16, b: bv8): (r: bv16)
    ensures r < 0x4000
  {
    var pos := (((crc >> 6) ^ (b as bv16)) & 0xFF) as bv8;
    ((crc << 8) & 0x3FFF) ^ Crc14Table(pos)
  }

  /** crc14_bytes: the byte phase over `bytes`, updating the accumulator in place. */
  function Crc14Bytes(crc: bv16, bytes: seq<bv8>): (r: bv16)
    decreases |bytes|
  {
    if |bytes| == 0 then crc else Crc14Bytes(Crc14ByteStep(crc, bytes[0]), bytes[1..])
  }

  /**
   * `n` turns of the crc14_bits shift register: uint16_t shift left, and
   * XOR with the polynomial 0x025B whenever bit 13 was set.
   */
  function ShiftReg(x: bv16, n: nat): bv16
    decreases n
  {
    if n == 0 then x
    else if x & 0x2000 != 0 then ShiftReg((x << 1) ^ 0x025B, n - 1)
    else ShiftReg(x << 1, n - 1)
  }

  /** crc14_bits: folds the top `n` bits of `inB` into the accumulator and masks it to 14 bits. */
  function Crc14Bits(n: nat, inB: bv8, crc: bv16): (r: bv16)
    requires n <= 8
    ensures r < 0x4000
  {
    var b := inB & UtilTopN[n];
    ShiftReg(crc ^ ((b as bv16) << 6), n) & 0x3FFF
  }

  /** After at least one byte, or from a 14-bit start, the byte phase leaves a 14-bit accumulator. */
  lemma {:induction false} Crc14BytesBelow(crc: bv16, bytes: seq<bv8>)
    requires crc < 0x4000 || |bytes| > 0
    ensures Crc14Bytes(crc, bytes) < 0x4000
    decreases |bytes|
  {
    if |bytes| > 0 {
      Crc14BytesBelow(Crc14ByteStep(crc, bytes[0]), bytes[1..]);
    }
  }

  // The table agrees with eight turns of the shift register.

  predicate Crc14EntryMatches(i: bv8)
  {
    Crc14Table(i) == ShiftReg((i as bv16) << 6, 8) & 0x3FFF
  }

  lemma Crc14TableRow0()
    ensures forall i: bv8 | 0 <= i as int < 8 :: Crc14EntryMatches(i)
  {
    assert Crc14EntryMatches(0);
    assert Crc14EntryMatches(1);
    assert Crc14EntryMatches(2);
    assert Crc14EntryMatches(3);
    assert Crc14EntryMatches(4);
    assert Crc14EntryMatches(5);
    assert Crc14EntryMatches(6);
    assert Crc14EntryMatches(7);
  }

  lemma Crc14TableRow1()
    ensures forall i: bv8 | 8 <= i as int < 16 :: Crc14EntryMatches(i)
  {
    assert Crc14EntryMatches(8);
    assert Crc14EntryMatches(9);
    assert Crc14EntryMatches(10);
    assert Crc14EntryMatches(11);
    assert Crc14EntryMatches(12);
    assert Crc14EntryMatches(13);
    assert Crc14EntryMatches(14);
    assert Crc14EntryMatches(15);
  }

  lemma Crc14TableRow2()
    ensures forall i: bv8 | 16 <= i as int < 24 :: Crc14EntryMatches(i)
  {
    assert Crc14EntryMatches(16);
    assert Crc14EntryMatches(17);
    assert Crc14EntryMatches(18);
    assert Crc14EntryMatches(19);
    assert Crc14EntryMatches(20);
    assert Crc14EntryMatches(21);
    assert Crc14EntryMatches(22);
    assert Crc14EntryMatches(23);
  }

  lemma Crc14TableRow3()
    ensures forall i: bv8 | 24 <= i as int < 32 :: Crc14EntryMatches(i)
  {
    assert Crc14EntryMatches(24);
    assert Crc14EntryMatches(25);
    assert Crc14EntryMatches(26);
    assert Crc14EntryMatches(27);
    assert Crc14EntryMatches(28);
    assert Crc14EntryMatches(29);
    assert Crc14EntryMatches(30);
    assert Crc14EntryMatches(31);
  }

  lemma Crc14TableRow4()
    ensures forall i: bv8 | 32 <= i as int < 40 :: Crc14EntryMatches(i)
  {
    assert Crc14EntryMatches(32);
    assert Crc14EntryMatches(33);
    assert Crc14EntryMatches(34);
    assert Crc14EntryMatches(35);
    assert Crc14EntryMatches(36);
    assert Crc14EntryMatches(37);
    assert Crc14EntryMatches(38);
    assert Crc14EntryMatches(39);
  }

  lemma Crc14TableRow5()
    ensures forall i: bv8 | 40 <= i as int < 48 :: Crc14EntryMatches(i)
  {
    assert Crc14EntryMatches(40);
    assert Crc14EntryMatches(41);
    assert Crc14EntryMatches(42);
    assert Crc14EntryMatches(43);
    assert Crc14EntryMatches(44);
    assert Crc14EntryMatches(45);
    assert Crc14EntryMatches(46);
    assert Crc14EntryMatches(47);
  }

  lemma Crc14TableRow6()
    ensures forall i: bv8 | 48 <= i as int < 56 :: Crc14EntryMatches(i)
  {
    assert Crc14EntryMatches(48);
    assert Crc14EntryMatches(49);
    assert Crc14EntryMatches(50);
    assert Crc14EntryMatches(51);
    assert Crc14EntryMatches(52);
    assert Crc14EntryMatches(53);
    assert Crc14EntryMatches(54);
    assert Crc14EntryMatches(55);
  }

  lemma Crc14TableRow7()
    ensures forall i: bv8 | 56 <= i as int < 64 :: Crc14EntryMatches(i)
  {
    assert Crc14EntryMatches(56);
    assert Crc14EntryMatches(57);
    assert Crc14EntryMatches(58);
    assert Crc14EntryMatches(59);
    assert Crc14EntryMatches(60);
    assert Crc14EntryMatches(61);
    assert Crc14EntryMatches(62);
    assert Crc14EntryMatches(63);
  }

  lemma Crc14TableRow8()
    ensures forall i: bv8 | 64 <= i as int < 72 :: Crc14EntryMatches(i)
  {
    assert Crc14EntryMatches(64);
    assert Crc14EntryMatches(65);
    assert Crc14EntryMatches(66);
    assert Crc14EntryMatches(67);
    assert Crc14EntryMatches(68);
    assert Crc14EntryMatches(69);
    assert Crc14EntryMatches(70);
    assert Crc14EntryMatches(71);
  }

  lemma Crc14TableRow9()
    ensures forall i: bv8 | 72 <= i as int < 80 :: Crc14EntryMatches(i)
  {
    assert Crc14EntryMatches(72);
    assert Crc14EntryMatches(73);
    assert Crc14EntryMatches(74);
    assert Crc14EntryMatches(75);
    assert Crc14EntryMatches(76);
    assert Crc14EntryMatches(77);
    assert Crc14EntryMatches(78);
    assert Crc14EntryMatches(79);
  }

  lemma Crc14TableRow10()
    ensures forall i: bv8 | 80 <= i as int < 88 :: Crc14EntryMatches(i)
  {
    assert Crc14EntryMatches(80);
    assert Crc14EntryMatches(81);
    assert Crc14EntryMatches(82);
    assert Crc14EntryMatches(83);
    assert Crc14EntryMatches(84);
    assert Crc14EntryMatches(85);
    assert Crc14EntryMatches(86);
    assert Crc14EntryMatches(87);
  }

  lemma Crc14TableRow11()
    ensures forall i: bv8 | 88 <= i as int < 96 :: Crc14EntryMatches(i)
  {
    assert Crc14EntryMatches(88);
    assert Crc14EntryMatches(89);
    assert Crc14EntryMatches(90);
    assert Crc14EntryMatches(91);
    assert Crc14EntryMatches(92);
    assert Crc14EntryMatches(93);
    assert Crc14EntryMatches(94);
    assert Crc14EntryMatches(95);
  }

  lemma Crc14TableRow12()
    ensures forall i: bv8 | 96 <= i as int < 104 :: Crc14EntryMatches(i)
  {
    assert Crc14EntryMatches(96);
    assert Crc14EntryMatches(97);
    assert Crc14EntryMatches(98);
    assert Crc14EntryMatches(99);
    assert Crc14EntryMatches(100);
    assert Crc14EntryMatches(101);
    assert Crc14EntryMatches(102);
    assert Crc14EntryMatches(103);
  }

  lemma Crc14TableRow13()
    ensures forall i: bv8 | 104 <= i as int < 112 :: Crc14EntryMatches(i)
  {
    assert Crc14EntryMatches(104);
    assert Crc14EntryMatches(105);
    assert Crc14EntryMatches(106);
    assert Crc14EntryMatches(107);
    assert Crc14EntryMatches(108);
    assert Crc14EntryMatches(109);
    assert Crc14EntryMatches(110);
    assert Crc14EntryMatches(111);
  }

  lemma Crc14TableRow14()
    ensures forall i: bv8 | 112 <= i as int < 120 :: Crc14EntryMatches(i)
  {
    assert Crc14EntryMatches(112);
    assert Crc14EntryMatches(113);
    assert Crc14EntryMatches(114);
    assert Crc14EntryMatches(115);
    assert Crc14EntryMatches(116);
    assert Crc14EntryMatches(117);
    assert Crc14EntryMatches(118);
    assert Crc14EntryMatches(119);
  }

  lemma Crc14TableRow15()
    ensures forall i: bv8 | 120 <= i as int < 128 :: Crc14EntryMatches(i)
  {
    assert Crc14EntryMatches(120);
    assert Crc14EntryMatches(121);
    assert Crc14EntryMatches(122);
    assert Crc14EntryMatches(123);
    assert Crc14EntryMatches(124);
    assert Crc14EntryMatches(125);
    assert Crc14EntryMatches(126);
    assert Crc14EntryMatches(127);
  }

  lemma Crc14TableRow16()
    ensures forall i: bv8 | 128 <= i as int < 136 :: Crc14EntryMatches(i)
  {
    assert Crc14EntryMatches(128);
    assert Crc14EntryMatches(129);
    assert Crc14EntryMatches(130);
    assert Crc14EntryMatches(131);
    assert Crc14EntryMatches(132);
    assert Crc14EntryMatches(133);
    assert Crc14EntryMatches(134);
    assert Crc14EntryMatches(135);
  }

  lemma Crc14TableRow17()
    ensures forall i: bv8 | 136 <= i as int < 144 :: Crc14EntryMatches(i)
  {
    assert Crc14EntryMatches(136);
    assert Crc14EntryMatches(137);
    assert Crc14EntryMatches(138);
    assert Crc14EntryMatches(139);
    assert Crc14EntryMatches(140);
    assert Crc14EntryMatches(141);
    assert Crc14EntryMatches(142);
    assert Crc14EntryMatches(143);
  }

  lemma Crc14TableRow18()
    ensures forall i: bv8 | 144 <= i as int < 152 :: Crc14EntryMatches(i)
  {
    assert Crc14EntryMatches(144);
    assert Crc14EntryMatches(145);
    assert Crc14EntryMatches(146);
    assert Crc14EntryMatches(147);
    assert Crc14EntryMatches(148);
    assert Crc14EntryMatches(149);
    assert Crc14EntryMatches(150);
    assert Crc14EntryMatches(151);
  }

  lemma Crc14TableRow19()
    ensures forall i: bv8 | 152 <= i as int < 160 :: Crc14EntryMatches(i)
  {
    assert Crc14EntryMatches(152);
    assert Crc14EntryMatches(153);
    assert Crc14EntryMatches(154);
    assert Crc14EntryMatches(155);
    assert Crc14EntryMatches(156);
    assert Crc14EntryMatches(157);
    assert Crc14EntryMatches(158);
    assert Crc14EntryMatches(159);
  }

  lemma Crc14TableRow20()
    ensures forall i: bv8 | 160 <= i as int < 168 :: Crc14EntryMatches(i)
  {
    assert Crc14EntryMatches(160);
    assert Crc14EntryMatches(161);
    assert Crc14EntryMatches(162);
    assert Crc14EntryMatches(163);
    assert Crc14EntryMatches(164);
    assert Crc14EntryMatches(165);
    assert Crc14EntryMatches(166);
    assert Crc14EntryMatches(167);
  }

  lemma Crc14TableRow21()
    ensures forall i: bv8 | 168 <= i as int < 176 :: Crc14EntryMatches(i)
  {
    assert Crc14EntryMatches(168);
    assert Crc14EntryMatches(169);
    assert Crc14EntryMatches(170);
    assert Crc14EntryMatches(171);
    assert Crc14EntryMatches(172);
    assert Crc14EntryMatches(173);
    assert Crc14EntryMatches(174);
    assert Crc14EntryMatches(175);
  }

  lemma Crc14TableRow22()
    ensures forall i: bv8 | 176 <= i as int < 184 :: Crc14EntryMatches(i)
  {
    assert Crc14EntryMatches(176);
    assert Crc14EntryMatches(177);
    assert Crc14EntryMatches(178);
    assert Crc14EntryMatches(179);
    assert Crc14EntryMatches(180);
    assert Crc14EntryMatches(181);
    assert Crc14EntryMatches(182);
    assert Crc14EntryMatches(183);
  }

  lemma Crc14TableRow23()
    ensures forall i: bv8 | 184 <= i as int < 192 :: Crc14EntryMatches(i)
  {
    assert Crc14EntryMatches(184);
    assert Crc14EntryMatches(185);
    assert Crc14EntryMatches(186);
    assert Crc14EntryMatches(187);
    assert Crc14EntryMatches(188);
    assert Crc14EntryMatches(189);
    assert Crc14EntryMatches(190);
    assert Crc14EntryMatches(191);
  }

  lemma Crc14TableRow24()
    ensures forall i: bv8 | 192 <= i as int < 200 :: Crc14EntryMatches(i)
  {
    assert Crc14EntryMatches(192);
    assert Crc14EntryMatches(193);
    assert Crc14EntryMatches(194);
    assert Crc14EntryMatches(195);
    assert Crc14EntryMatches(196);
    assert Crc14EntryMatches(197);
    assert Crc14EntryMatches(198);
    assert Crc14EntryMatches(199);
  }

  lemma Crc14TableRow25()
    ensures forall i: bv8 | 200 <= i as int < 208 :: Crc14EntryMatches(i)
  {
    assert Crc14EntryMatches(200);
    assert Crc14EntryMatches(201);
    assert Crc14EntryMatches(202);
    assert Crc14EntryMatches(203);
    assert Crc14EntryMatches(204);
    assert Crc14EntryMatches(205);
    assert Crc14EntryMatches(206);
    assert Crc14EntryMatches(207);
  }

  lemma Crc14TableRow26()
    ensures forall i: bv8 | 208 <= i as int < 216 :: Crc14EntryMatches(i)
  {
    assert Crc14EntryMatches(208);
    assert Crc14EntryMatches(209);
    assert Crc14EntryMatches(210);
    assert Crc14EntryMatches(211);
    assert Crc14EntryMatches(212);
    assert Crc14EntryMatches(213);
    assert Crc14EntryMatches(214);
    assert Crc14EntryMatches(215);
  }

  lemma Crc14TableRow27()
    ensures forall i: bv8 | 216 <= i as int < 224 :: Crc14EntryMatches(i)
  {
    assert Crc14EntryMatches(216);
    assert Crc14EntryMatches(217);
    assert Crc14EntryMatches(218);
    assert Crc14EntryMatches(219);
    assert Crc14EntryMatches(220);
    assert Crc14EntryMatches(221);
    assert Crc14EntryMatches(222);
    assert Crc14EntryMatches(223);
  }

  lemma Crc14TableRow28()
    ensures forall i: bv8 | 224 <= i as int < 232 :: Crc14EntryMatches(i)
  {
    assert Crc14EntryMatches(224);
    assert Crc14EntryMatches(225);
    assert Crc14EntryMatches(226);
    assert Crc14EntryMatches(227);
    assert Crc14EntryMatches(228);
    assert Crc14EntryMatches(229);
    assert Crc14EntryMatches(230);
    assert Crc14EntryMatches(231);
  }

  lemma Crc14TableRow29()
    ensures forall i: bv8 | 232 <= i as int < 240 :: Crc14EntryMatches(i)
  {
    assert Crc14EntryMatches(232);
    assert Crc14EntryMatches(233);
    assert Crc14EntryMatches(234);
    assert Crc14EntryMatches(235);
    assert Crc14EntryMatches(236);
    assert Crc14EntryMatches(237);
    assert Crc14EntryMatches(238);
    assert Crc14EntryMatches(239);
  }

  lemma Crc14TableRow30()
    ensures forall i: bv8 | 240 <= i as int < 248 :: Crc14EntryMatches(i)
  {
    assert Crc14EntryMatches(240);
    assert Crc14EntryMatches(241);
    assert Crc14EntryMatches(242);
    assert Crc14EntryMatches(243);
    assert Crc14EntryMatches(244);
    assert Crc14EntryMatches(245);
    assert Crc14EntryMatches(246);
    assert Crc14EntryMatches(247);
  }

  lemma Crc14TableRow31()
    ensures forall i: bv8 | 248 <= i as int < 256 :: Crc14EntryMatches(i)
  {
    assert Crc14EntryMatches(248);
    assert Crc14EntryMatches(249);
    assert Crc14EntryMatches(250);
    assert Crc14EntryMatches(251);
    assert Crc14EntryMatches(252);
    assert Crc14EntryMatches(253);
    assert Crc14EntryMatches(254);
    assert Crc14EntryMatches(255);
  }

  /**
   * crc14table is the byte table of polynomial 0x025B: entry i is what eight
   * turns of the crc14_bits register make of i placed in bits 6..13.
   */
  lemma Crc14TableIsPolynomial()
    ensures forall i: bv8 :: Crc14EntryMatches(i)
  {
    Crc14TableRow0(); Crc14TableRow1(); Crc14TableRow2(); Crc14TableRow3(); Crc14TableRow4(); Crc14TableRow5(); Crc14TableRow6(); Crc14TableRow7();
    Crc14TableRow8(); Crc14TableRow9(); Crc14TableRow10(); Crc14TableRow11(); Crc14TableRow12(); Crc14TableRow13(); Crc14TableRow14(); Crc14TableRow15();
    Crc14TableRow16(); Crc14TableRow17(); Crc14TableRow18(); Crc14TableRow19(); Crc14TableRow20(); Crc14TableRow21(); Crc14TableRow22(); Crc14TableRow23();
    Crc14TableRow24(); Crc14TableRow25(); Crc14TableRow26(); Crc14TableRow27(); Crc14TableRow28(); Crc14TableRow29(); Crc14TableRow30(); Crc14TableRow31();
  }

  /**
   * The PEC that follows a balance word in the configuration write: the byte
   * phase from seed 0x0010 over 0xF3, 0x00 and the word's two bytes, high byte
   * first, then two zero bits.
   */
  function ConfigPec(w: u16): (p: u16)
    ensures p < 0x4000
  {
    var crc := Crc14Bits(2, 2, Crc14Bytes(0x0010, [0xF3, 0x00, ByteBits(Hi(w)), ByteBits(Lo(w))]));
    crc as int
  }

  /** The byte phase over 0xF3 0x00 0x00 0x00 from seed 0x0010, byte by byte. */
  lemma IdleBytePhase()
    ensures Crc14Bytes(0x0010, [0xF3, 0x00, 0x00, 0x00]) == 0x0E37
  {
    assert Crc14ByteStep(0x0010, 0xF3) == 0x0CFC;
    assert Crc14ByteStep(0x0CFC, 0x00) == 0x1666;
    assert Crc14ByteStep(0x1666, 0x00) == 0x0145;
    assert Crc14ByteStep(0x0145, 0x00) == 0x0E37;
  }

  /** The PEC of an all-zero balance word. */
  lemma ConfigPecOfZero(w: u16)
    requires w == 0
    ensures ConfigPec(w) == 0x38DC
  {
    assert Hi(w) == 0 && Lo(w) == 0;
    assert ByteBits(0) == 0;
    var bytes: seq<bv8> := [0xF3, 0x00, ByteBits(Hi(w)), ByteBits(Lo(w))];
    assert bytes == [0xF3, 0x00, 0x00, 0x00];
    IdleBytePhase();
    assert Crc14Bits(2, 2, 0x0E37) == 0x38DC;
  }
}
