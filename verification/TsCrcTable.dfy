/** The lookup table of mpeg_crc32, and where it strays from the division.

    Each entry is compared with eight turns of the bitwise division. The five that
    differ do so by 0x00a00000, so that one turn of the table loop is one
    byte of the division, give or take these bits. */
module TsCrcTable {
  import opened TsCrcShift

  // Entries 0 to 63, eight to a row
  function Quarter0(h: bv32): (r: seq<bv32>)
    ensures |r| == 8
  {
    match h
    case 0 => [0x00000000, 0x04c11db7, 0x09823b6e, 0x0d4326d9, 0x130476dc, 0x17c56b6b, 0x1a864db2, 0x1e475005]
    case 1 => [0x2608edb8, 0x22c9f00f, 0x2f8ad6d6, 0x2b4bcb61, 0x350c9b64, 0x31cd86d3, 0x3c8ea00a, 0x384fbdbd]
    case 2 => [0x4c11db70, 0x48d0c6c7, 0x4593e01e, 0x4152fda9, 0x5f15adac, 0x5bd4b01b, 0x569796c2, 0x52568b75]
    case 3 => [0x6a1936c8, 0x6ed82b7f, 0x639b0da6, 0x67fa1011, 0x79bd4014, 0x7d7c5da3, 0x703f7b7a, 0x74fe66cd]
    case 4 => [0x9823b6e0, 0x9ce2ab57, 0x91a18d8e, 0x95609039, 0x8b27c03c, 0x8fe6dd8b, 0x82a5fb52, 0x8664e6e5]
    case 5 => [0xbe2b5b58, 0xbaea46ef, 0xb7a96036, 0xb3687d81, 0xad2f2d84, 0xa9ee3033, 0xa4ad16ea, 0xa06c0b5d]
    case 6 => [0xd4326d90, 0xd0f37027, 0xddb056fe, 0xd9714b49, 0xc7361b4c, 0xc3f706fb, 0xceb42022, 0xca753d95]
    case _ => [0xf23a8028, 0xf6fb9d9f, 0xfbb8bb46, 0xff79a6f1, 0xe13ef6f4, 0xe5ffeb43, 0xe8bccd9a, 0xec7dd02d]
  }

  // Entries 64 to 127, eight to a row
  function Quarter1(h: bv32): (r: seq<bv32>)
    ensures |r| == 8
  {
    match h
    case 8 => [0x34867077, 0x30476dc0, 0x3d044b19, 0x39c556ae, 0x278206ab, 0x23431b1c, 0x2e003dc5, 0x2ac12072]
    case 9 => [0x128e9dcf, 0x164f8078, 0x1b0ca6a1, 0x1fcdbb16, 0x018aeb13, 0x054bf6a4, 0x0808d07d, 0x0cc9cdca]
    case 10 => [0x7897ab07, 0x7c56b6b0, 0x71159069, 0x75d48dde, 0x6b93dddb, 0x6f52c06c, 0x6211e6b5, 0x66d0fb02]
    case 11 => [0x5e9f46bf, 0x5a5e5b08, 0x571d7dd1, 0x53dc6066, 0x4d9b3063, 0x495a2dd4, 0x44190b0d, 0x40d816ba]
    case 12 => [0xaca5c697, 0xa864db20, 0xa527fdf9, 0xa1e6e04e, 0xbfa1b04b, 0xbb60adfc, 0xb6238b25, 0xb2e29692]
    case 13 => [0x8aad2b2f, 0x8e6c3698, 0x832f1041, 0x87ee0df6, 0x99a95df3, 0x9d684044, 0x902b669d, 0x94ea7b2a]
    case 14 => [0xe0b41de7, 0xe4750050, 0xe9362689, 0xedf73b3e, 0xf3b06b3b, 0xf771768c, 0xfa325055, 0xfef34de2]
    case _ => [0xc6bcf05f, 0xc27dede8, 0xcf3ecb31, 0xcbffd686, 0xd5b88683, 0xd1799b34, 0xdc3abded, 0xd8fba05a]
  }

  // Entries 128 to 191, eight to a row
  function Quarter2(h: bv32): (r: seq<bv32>)
    ensures |r| == 8
  {
    match h
    case 16 => [0x690ce0ee, 0x6dcdfd59, 0x608edb80, 0x644fc637, 0x7a089632, 0x7ec98b85, 0x738aad5c, 0x774bb0eb]
    case 17 => [0x4f040d56, 0x4bc510e1, 0x46863638, 0x42472b8f, 0x5c007b8a, 0x58c1663d, 0x558240e4, 0x51435d53]
    case 18 => [0x251d3b9e, 0x21dc2629, 0x2c9f00f0, 0x285e1d47, 0x36194d42, 0x32d850f5, 0x3f9b762c, 0x3b5a6b9b]
    case 19 => [0x0315d626, 0x07d4cb91, 0x0a97ed48, 0x0e56f0ff, 0x1011a0fa, 0x14d0bd4d, 0x19939b94, 0x1d528623]
    case 20 => [0xf12f560e, 0xf5ee4bb9, 0xf8ad6d60, 0xfc6c70d7, 0xe22b20d2, 0xe6ea3d65, 0xeba91bbc, 0xef68060b]
    case 21 => [0xd727bbb6, 0xd3e6a601, 0xdea580d8, 0xda649d6f, 0xc423cd6a, 0xc0e2d0dd, 0xcda1f604, 0xc960ebb3]
    case 22 => [0xbd3e8d7e, 0xb9ff90c9, 0xb4bcb610, 0xb07daba7, 0xae3afba2, 0xaafbe615, 0xa7b8c0cc, 0xa379dd7b]
    case _ => [0x9b3660c6, 0x9ff77d71, 0x92b45ba8, 0x9675461f, 0x8832161a, 0x8cf30bad, 0x81b02d74, 0x857130c3]
  }

  // Entries 192 to 255, eight to a row
  function Quarter3(h: bv32): (r: seq<bv32>)
    ensures |r| == 8
  {
    match h
    case 24 => [0x5d8a9099, 0x594b8d2e, 0x5408abf7, 0x50c9b640, 0x4e8ee645, 0x4a4ffbf2, 0x470cdd2b, 0x43cdc09c]
    case 25 => [0x7b827d21, 0x7f436096, 0x7200464f, 0x76c15bf8, 0x68860bfd, 0x6c47164a, 0x61043093, 0x65c52d24]
    case 26 => [0x119b4be9, 0x155a565e, 0x18197087, 0x1cd86d30, 0x029f3d35, 0x065e2082, 0x0b1d065b, 0x0fdc1bec]
    case 27 => [0x3793a651, 0x3352bbe6, 0x3e119d3f, 0x3ad08088, 0x2497d08d, 0x2056cd3a, 0x2d15ebe3, 0x29d4f654]
    case 28 => [0xc5a92679, 0xc1683bce, 0xcc2b1d17, 0xc8ea00a0, 0xd6ad50a5, 0xd26c4d12, 0xdf2f6bcb, 0xdbee767c]
    case 29 => [0xe3a1cbc1, 0xe760d676, 0xea23f0af, 0xeee2ed18, 0xf0a5bd1d, 0xf464a0aa, 0xf9278673, 0xfde69bc4]
    case 30 => [0x89b8fd09, 0x8d79e0be, 0x803ac667, 0x84fbdbd0, 0x9abc8bd5, 0x9e7d9662, 0x933eb0bb, 0x97ffad0c]
    case _ => [0xafb010b1, 0xab710d06, 0xa6322bdf, 0xa2f33668, 0xbcb4666d, 0xb8757bda, 0xb5365d03, 0xb1f740b4]
  }

  // Entries 8h to 8h + 7 of crc32_table
  function Row(h: bv32): (r: seq<bv32>)
    ensures |r| == 8
  {
    if h < 8 then Quarter0(h) else if h < 16 then Quarter1(h) else if h < 24 then Quarter2(h) else Quarter3(h)
  }

  function Pick(r: seq<bv32>, j: bv32): bv32
    requires |r| == 8
  {
    match j
    case 0 => r[0] case 1 => r[1] case 2 => r[2] case 3 => r[3]
    case 4 => r[4] case 5 => r[5] case 6 => r[6] case _ => r[7]
  }

  // crc32_table[x]
  function Table(x: bv32): bv32 {
    Pick(Row(x >> 3), x & 7)
  }

  // The five entries that are off, and by how much
  predicate Faulty(x: bv32) {
    27 <= x <= 31
  }

  function Fault(x: bv32): bv32 {
    if Faulty(x) then 0x00a0_0000 else 0
  }

  // What the division makes of the byte x, with the fault
  predicate HoldsByte(e: bv32, x: bv32) {
    Sum(e, ShiftEight(x << 24), Fault(x))
  }

  function Or(x: bv32, j: bv32): bv32 {
    x | j
  }

  predicate Holds(e: bv32, x: bv32, j: bv32) {
    HoldsByte(e, Or(x, j))
  }

  predicate RowHolds(r: seq<bv32>, x: bv32)
    requires |r| == 8
  {
    && Holds(r[0], x, 0) && Holds(r[1], x, 1) && Holds(r[2], x, 2) && Holds(r[3], x, 3)
    && Holds(r[4], x, 4) && Holds(r[5], x, 5) && Holds(r[6], x, 6) && Holds(r[7], x, 7)
  }

  lemma Rows0()
    ensures RowHolds(Row(0), 0) && RowHolds(Row(1), 8)
  {
  }

  lemma Rows2()
    ensures RowHolds(Row(2), 16) && RowHolds(Row(3), 24)
  {
  }

  lemma Rows4()
    ensures RowHolds(Row(4), 32) && RowHolds(Row(5), 40)
  {
  }

  lemma Rows6()
    ensures RowHolds(Row(6), 48) && RowHolds(Row(7), 56)
  {
  }

  lemma Rows8()
    ensures RowHolds(Row(8), 64) && RowHolds(Row(9), 72)
  {
  }

  lemma Rows10()
    ensures RowHolds(Row(10), 80) && RowHolds(Row(11), 88)
  {
  }

  lemma Rows12()
    ensures RowHolds(Row(12), 96) && RowHolds(Row(13), 104)
  {
  }

  lemma Rows14()
    ensures RowHolds(Row(14), 112) && RowHolds(Row(15), 120)
  {
  }

  lemma Rows16()
    ensures RowHolds(Row(16), 128) && RowHolds(Row(17), 136)
  {
  }

  lemma Rows18()
    ensures RowHolds(Row(18), 144) && RowHolds(Row(19), 152)
  {
  }

  lemma Rows20()
    ensures RowHolds(Row(20), 160) && RowHolds(Row(21), 168)
  {
  }

  lemma Rows22()
    ensures RowHolds(Row(22), 176) && RowHolds(Row(23), 184)
  {
  }

  lemma Rows24()
    ensures RowHolds(Row(24), 192) && RowHolds(Row(25), 200)
  {
  }

  lemma Rows26()
    ensures RowHolds(Row(26), 208) && RowHolds(Row(27), 216)
  {
  }

  lemma Rows28()
    ensures RowHolds(Row(28), 224) && RowHolds(Row(29), 232)
  {
  }

  lemma Rows30()
    ensures RowHolds(Row(30), 240) && RowHolds(Row(31), 248)
  {
  }

  lemma RowsFrom0(h: bv32)
    requires 0 <= h < 8
    ensures RowHolds(Row(h), h << 3)
  {
    hide Row, RowHolds;
    if h == 0 || h == 1 {
      Rows0();
    } else if h == 2 || h == 3 {
      Rows2();
    } else if h == 4 || h == 5 {
      Rows4();
    } else {
      Rows6();
    }
  }

  lemma RowsFrom8(h: bv32)
    requires 8 <= h < 16
    ensures RowHolds(Row(h), h << 3)
  {
    hide Row, RowHolds;
    if h == 8 || h == 9 {
      Rows8();
    } else if h == 10 || h == 11 {
      Rows10();
    } else if h == 12 || h == 13 {
      Rows12();
    } else {
      Rows14();
    }
  }

  lemma RowsFrom16(h: bv32)
    requires 16 <= h < 24
    ensures RowHolds(Row(h), h << 3)
  {
    hide Row, RowHolds;
    if h == 16 || h == 17 {
      Rows16();
    } else if h == 18 || h == 19 {
      Rows18();
    } else if h == 20 || h == 21 {
      Rows20();
    } else {
      Rows22();
    }
  }

  lemma RowsFrom24(h: bv32)
    requires 24 <= h < 32
    ensures RowHolds(Row(h), h << 3)
  {
    hide Row, RowHolds;
    if h == 24 || h == 25 {
      Rows24();
    } else if h == 26 || h == 27 {
      Rows26();
    } else if h == 28 || h == 29 {
      Rows28();
    } else {
      Rows30();
    }
  }

  lemma RowIs(h: bv32)
    requires h < 32
    ensures RowHolds(Row(h), h << 3)
  {
    hide Row, RowHolds;
    if h < 8 {
      RowsFrom0(h);
    } else if h < 16 {
      RowsFrom8(h);
    } else if h < 24 {
      RowsFrom16(h);
    } else {
      RowsFrom24(h);
    }
  }

  lemma SmallCases(j: bv32)
    requires j < 8
    ensures j == 0 || j == 1 || j == 2 || j == 3 || j == 4 || j == 5 || j == 6 || j == 7
  {
  }

  lemma PickIs(r: seq<bv32>, j: bv32)
    requires |r| == 8
    ensures j == 0 ==> Pick(r, j) == r[0]
    ensures j == 1 ==> Pick(r, j) == r[1]
    ensures j == 2 ==> Pick(r, j) == r[2]
    ensures j == 3 ==> Pick(r, j) == r[3]
    ensures j == 4 ==> Pick(r, j) == r[4]
    ensures j == 5 ==> Pick(r, j) == r[5]
    ensures j == 6 ==> Pick(r, j) == r[6]
    ensures j == 7 ==> Pick(r, j) == r[7]
  {
  }

  lemma PickHolds(r: seq<bv32>, x: bv32, j: bv32)
    requires |r| == 8 && RowHolds(r, x) && j < 8
    ensures Holds(Pick(r, j), x, j)
  {
    SmallCases(j);
    PickIs(r, j);
    hide Holds, Pick;
  }

  lemma Parts(x: bv32)
    requires x < 256
    ensures x >> 3 < 32 && x & 7 < 8 && Or((x >> 3) << 3, x & 7) == x
  {
  }

  lemma TableAt(x: bv32)
    requires x < 256
    ensures Holds(Table(x), (x >> 3) << 3, x & 7)
  {
    Parts(x);
    hide Row, RowHolds, Holds, Pick;
    RowIs(x >> 3);
    PickHolds(Row(x >> 3), (x >> 3) << 3, x & 7);
  }

  lemma TableHolds(x: bv32)
    requires x < 256
    ensures HoldsByte(Table(x), x)
  {
    Parts(x);
    TableAt(x);
    hide Table, HoldsByte, Or;
  }

  /** What the table holds: the remainder of the byte, for every byte but 27 to
      31, whose entries are off by 0xa00000. */
  lemma TableIs(x: bv32)
    requires x < 256
    ensures Sum(Table(x), ShiftEight(x << 24), Fault(x))
  {
    TableHolds(x);
    hide Table, Sum, ShiftEight, Fault;
  }

  // One turn of the loop of mpeg_crc32
  function Turn(c: bv32, b: bv32): bv32 {
    (c << 8) ^ Table(Index(c, b))
  }

  /** A turn divides by one byte, but for the fault of the entry it looks up. */
  lemma TurnIs(c: bv32, b: bv32)
    requires b < 256
    ensures Sum(Turn(c, b), ByteIn(c, b), Fault(Index(c, b)))
  {
    hide Index, Table, ByteIn, Fault, ShiftEight, Sum;
    var x := Index(c, b);
    IndexSmall(c, b);
    TableIs(x);
    ByteByTable(c, b);
    SumThree(Turn(c, b), ByteIn(c, b), ShiftEight(x << 24), Fault(x), c << 8, Table(x));
  }

  lemma FaultZero(x: bv32)
    ensures Fault(x) == 0 <==> !Faulty(x)
  {
  }
}
