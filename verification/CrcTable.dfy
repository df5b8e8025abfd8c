/** The feedback terms of the checksum, as the program lists them. */
module CrcTable {
  import opened Polynomial

  /** The feedback terms, sixteen to a row. */
  const TABLE: seq<seq<bv32>> := [
    [0x00000000, 0x77073096, 0xee0e612c, 0x990951ba, 0x076dc419, 0x706af48f, 0xe963a535, 0x9e6495a3,
     0x0edb8832, 0x79dcb8a4, 0xe0d5e91e, 0x97d2d988, 0x09b64c2b, 0x7eb17cbd, 0xe7b82d07, 0x90bf1d91],
    [0x1db71064, 0x6ab020f2, 0xf3b97148, 0x84be41de, 0x1adad47d, 0x6ddde4eb, 0xf4d4b551, 0x83d385c7,
     0x136c9856, 0x646ba8c0, 0xfd62f97a, 0x8a65c9ec, 0x14015c4f, 0x63066cd9, 0xfa0f3d63, 0x8d080df5],
    [0x3b6e20c8, 0x4c69105e, 0xd56041e4, 0xa2677172, 0x3c03e4d1, 0x4b04d447, 0xd20d85fd, 0xa50ab56b,
     0x35b5a8fa, 0x42b2986c, 0xdbbbc9d6, 0xacbcf940, 0x32d86ce3, 0x45df5c75, 0xdcd60dcf, 0xabd13d59],
    [0x26d930ac, 0x51de003a, 0xc8d75180, 0xbfd06116, 0x21b4f4b5, 0x56b3c423, 0xcfba9599, 0xb8bda50f,
     0x2802b89e, 0x5f058808, 0xc60cd9b2, 0xb10be924, 0x2f6f7c87, 0x58684c11, 0xc1611dab, 0xb6662d3d],
    [0x76dc4190, 0x01db7106, 0x98d220bc, 0xefd5102a, 0x71b18589, 0x06b6b51f, 0x9fbfe4a5, 0xe8b8d433,
     0x7807c9a2, 0x0f00f934, 0x9609a88e, 0xe10e9818, 0x7f6a0dbb, 0x086d3d2d, 0x91646c97, 0xe6635c01],
    [0x6b6b51f4, 0x1c6c6162, 0x856530d8, 0xf262004e, 0x6c0695ed, 0x1b01a57b, 0x8208f4c1, 0xf50fc457,
     0x65b0d9c6, 0x12b7e950, 0x8bbeb8ea, 0xfcb9887c, 0x62dd1ddf, 0x15da2d49, 0x8cd37cf3, 0xfbd44c65],
    [0x4db26158, 0x3ab551ce, 0xa3bc0074, 0xd4bb30e2, 0x4adfa541, 0x3dd895d7, 0xa4d1c46d, 0xd3d6f4fb,
     0x4369e96a, 0x346ed9fc, 0xad678846, 0xda60b8d0, 0x44042d73, 0x33031de5, 0xaa0a4c5f, 0xdd0d7cc9],
    [0x5005713c, 0x270241aa, 0xbe0b1010, 0xc90c2086, 0x5768b525, 0x206f85b3, 0xb966d409, 0xce61e49f,
     0x5edef90e, 0x29d9c998, 0xb0d09822, 0xc7d7a8b4, 0x59b33d17, 0x2eb40d81, 0xb7bd5c3b, 0xc0ba6cad],
    [0xedb88320, 0x9abfb3b6, 0x03b6e20c, 0x74b1d29a, 0xead54739, 0x9dd277af, 0x04db2615, 0x73dc1683,
     0xe3630b12, 0x94643b84, 0x0d6d6a3e, 0x7a6a5aa8, 0xe40ecf0b, 0x9309ff9d, 0x0a00ae27, 0x7d079eb1],
    [0xf00f9344, 0x8708a3d2, 0x1e01f268, 0x6906c2fe, 0xf762575d, 0x806567cb, 0x196c3671, 0x6e6b06e7,
     0xfed41b76, 0x89d32be0, 0x10da7a5a, 0x67dd4acc, 0xf9b9df6f, 0x8ebeeff9, 0x17b7be43, 0x60b08ed5],
    [0xd6d6a3e8, 0xa1d1937e, 0x38d8c2c4, 0x4fdff252, 0xd1bb67f1, 0xa6bc5767, 0x3fb506dd, 0x48b2364b,
     0xd80d2bda, 0xaf0a1b4c, 0x36034af6, 0x41047a60, 0xdf60efc3, 0xa867df55, 0x316e8eef, 0x4669be79],
    [0xcb61b38c, 0xbc66831a, 0x256fd2a0, 0x5268e236, 0xcc0c7795, 0xbb0b4703, 0x220216b9, 0x5505262f,
     0xc5ba3bbe, 0xb2bd0b28, 0x2bb45a92, 0x5cb36a04, 0xc2d7ffa7, 0xb5d0cf31, 0x2cd99e8b, 0x5bdeae1d],
    [0x9b64c2b0, 0xec63f226, 0x756aa39c, 0x026d930a, 0x9c0906a9, 0xeb0e363f, 0x72076785, 0x05005713,
     0x95bf4a82, 0xe2b87a14, 0x7bb12bae, 0x0cb61b38, 0x92d28e9b, 0xe5d5be0d, 0x7cdcefb7, 0x0bdbdf21],
    [0x86d3d2d4, 0xf1d4e242, 0x68ddb3f8, 0x1fda836e, 0x81be16cd, 0xf6b9265b, 0x6fb077e1, 0x18b74777,
     0x88085ae6, 0xff0f6a70, 0x66063bca, 0x11010b5c, 0x8f659eff, 0xf862ae69, 0x616bffd3, 0x166ccf45],
    [0xa00ae278, 0xd70dd2ee, 0x4e048354, 0x3903b3c2, 0xa7672661, 0xd06016f7, 0x4969474d, 0x3e6e77db,
     0xaed16a4a, 0xd9d65adc, 0x40df0b66, 0x37d83bf0, 0xa9bcae53, 0xdebb9ec5, 0x47b2cf7f, 0x30b5ffe9],
    [0xbdbdf21c, 0xcabac28a, 0x53b39330, 0x24b4a3a6, 0xbad03605, 0xcdd70693, 0x54de5729, 0x23d967bf,
     0xb3667a2e, 0xc4614ab8, 0x5d681b02, 0x2a6f2b94, 0xb40bbe37, 0xc30c8ea1, 0x5a05df1b, 0x2d02ef8d]
  ]

  /** The sixteen values of `f` on the indices whose high part is `base`. */
  function RowOf(f: bv32 -> bv32, base: bv32): (row: seq<bv32>)
  {
    [f(base), f(base | 1), f(base | 2), f(base | 3), f(base | 4), f(base | 5), f(base | 6), f(base | 7),
     f(base | 8), f(base | 9), f(base | 10), f(base | 11), f(base | 12), f(base | 13), f(base | 14), f(base | 15)]
  }

  lemma TableRow0()
    ensures |TABLE| == 16 && TABLE[0] == RowOf(ShiftOut, 0x00)
  {
  }

  lemma TableRow1()
    ensures |TABLE| == 16 && TABLE[1] == RowOf(ShiftOut, 0x10)
  {
  }

  lemma TableRow2()
    ensures |TABLE| == 16 && TABLE[2] == RowOf(ShiftOut, 0x20)
  {
  }

  lemma TableRow3()
    ensures |TABLE| == 16 && TABLE[3] == RowOf(ShiftOut, 0x30)
  {
  }

  lemma TableRow4()
    ensures |TABLE| == 16 && TABLE[4] == RowOf(ShiftOut, 0x40)
  {
  }

  lemma TableRow5()
    ensures |TABLE| == 16 && TABLE[5] == RowOf(ShiftOut, 0x50)
  {
  }

  lemma TableRow6()
    ensures |TABLE| == 16 && TABLE[6] == RowOf(ShiftOut, 0x60)
  {
  }

  lemma TableRow7()
    ensures |TABLE| == 16 && TABLE[7] == RowOf(ShiftOut, 0x70)
  {
  }

  lemma TableRow8()
    ensures |TABLE| == 16 && TABLE[8] == RowOf(ShiftOut, 0x80)
  {
  }

  lemma TableRow9()
    ensures |TABLE| == 16 && TABLE[9] == RowOf(ShiftOut, 0x90)
  {
  }

  lemma TableRow10()
    ensures |TABLE| == 16 && TABLE[10] == RowOf(ShiftOut, 0xA0)
  {
  }

  lemma TableRow11()
    ensures |TABLE| == 16 && TABLE[11] == RowOf(ShiftOut, 0xB0)
  {
  }

  lemma TableRow12()
    ensures |TABLE| == 16 && TABLE[12] == RowOf(ShiftOut, 0xC0)
  {
  }

  lemma TableRow13()
    ensures |TABLE| == 16 && TABLE[13] == RowOf(ShiftOut, 0xD0)
  {
  }

  lemma TableRow14()
    ensures |TABLE| == 16 && TABLE[14] == RowOf(ShiftOut, 0xE0)
  {
  }

  lemma TableRow15()
    ensures |TABLE| == 16 && TABLE[15] == RowOf(ShiftOut, 0xF0)
  {
  }

  lemma TableShape()
    ensures |TABLE| == 16 && forall r | 0 <= r < 16 :: |TABLE[r]| == 16
  {
    assert |TABLE[0]| == 16
      && |TABLE[1]| == 16
      && |TABLE[2]| == 16
      && |TABLE[3]| == 16
      && |TABLE[4]| == 16
      && |TABLE[5]| == 16
      && |TABLE[6]| == 16
      && |TABLE[7]| == 16
      && |TABLE[8]| == 16
      && |TABLE[9]| == 16
      && |TABLE[10]| == 16
      && |TABLE[11]| == 16
      && |TABLE[12]| == 16
      && |TABLE[13]| == 16
      && |TABLE[14]| == 16
      && |TABLE[15]| == 16;
  }

  /** The table entry for one index byte. */
  function TableEntry(index: nat): bv32
    requires index < 256
  {
    TableShape();
    TABLE[index / 16][index % 16]
  }

  lemma Numeral(x: bv32, k: nat)
    requires x as int == k < 16
    ensures x == k as bv32
  {
    assert (x as int) as bv32 == x;
  }

  lemma Nibbles(x: bv32)
    requires x & 0xFF == x
    ensures (x >> 4) as int < 16 && (x & 0xF) as int < 16
    ensures x as int == 16 * ((x >> 4) as int) + (x & 0xF) as int
    ensures x == ((x >> 4) << 4) | (x & 0xF)
  {
  }

  lemma OrZero(base: bv32)
    ensures base | 0 == base
  {
  }

  lemma Column(f: bv32 -> bv32, base: bv32, c: bv32, k: nat)
    requires c as int == k < 16
    ensures RowOf(f, base)[k] == f(base | c)
  {
    Numeral(c, k);
    OrZero(base);
    match k
    case 0 => assert c == 0;
    case 1 => assert c == 1;
    case 2 => assert c == 2;
    case 3 => assert c == 3;
    case 4 => assert c == 4;
    case 5 => assert c == 5;
    case 6 => assert c == 6;
    case 7 => assert c == 7;
    case 8 => assert c == 8;
    case 9 => assert c == 9;
    case 10 => assert c == 10;
    case 11 => assert c == 11;
    case 12 => assert c == 12;
    case 13 => assert c == 13;
    case 14 => assert c == 14;
    case 15 => assert c == 15;
  }

  lemma Rows0To3(hi: bv32, r: nat)
    requires 0 <= hi as int == r < 4
    ensures |TABLE| == 16 && TABLE[r] == RowOf(ShiftOut, hi << 4)
  {
    Numeral(hi, r);
    match r
    case 0 => TableRow0();
    case 1 => TableRow1();
    case 2 => TableRow2();
    case 3 => TableRow3();
  }

  lemma Rows4To7(hi: bv32, r: nat)
    requires 4 <= hi as int == r < 8
    ensures |TABLE| == 16 && TABLE[r] == RowOf(ShiftOut, hi << 4)
  {
    Numeral(hi, r);
    match r
    case 4 => TableRow4();
    case 5 => TableRow5();
    case 6 => TableRow6();
    case 7 => TableRow7();
  }

  lemma Rows8To11(hi: bv32, r: nat)
    requires 8 <= hi as int == r < 12
    ensures |TABLE| == 16 && TABLE[r] == RowOf(ShiftOut, hi << 4)
  {
    Numeral(hi, r);
    match r
    case 8 => TableRow8();
    case 9 => TableRow9();
    case 10 => TableRow10();
    case 11 => TableRow11();
  }

  lemma Rows12To15(hi: bv32, r: nat)
    requires 12 <= hi as int == r < 16
    ensures |TABLE| == 16 && TABLE[r] == RowOf(ShiftOut, hi << 4)
  {
    Numeral(hi, r);
    match r
    case 12 => TableRow12();
    case 13 => TableRow13();
    case 14 => TableRow14();
    case 15 => TableRow15();
  }

  lemma Row(hi: bv32, r: nat)
    requires hi as int == r < 16
    ensures |TABLE| == 16 && TABLE[r] == RowOf(ShiftOut, hi << 4)
  {
    if r < 4 {
      Rows0To3(hi, r);
    } else if r < 8 {
      Rows4To7(hi, r);
    } else if r < 12 {
      Rows8To11(hi, r);
    } else {
      Rows12To15(hi, r);
    }
  }

  lemma IndexSplit(i: nat, r: nat, c: nat)
    requires i == 16 * r + c && r < 16 && c < 16
    ensures i < 256 && i / 16 == r && i % 16 == c
  {
  }

  /** Every entry of the table is its index byte after eight division steps. */
  lemma TableIsDivision(x: bv32)
    requires x & 0xFF == x
    ensures x as int < 256 && TableEntry(x as int) == ShiftOut(x)
  {
    hide RowOf, ShiftOut;
    Nibbles(x);
    IndexSplit(x as int, (x >> 4) as int, (x & 0xF) as int);
    Row(x >> 4, (x as int) / 16);
    Column(ShiftOut, (x >> 4) << 4, x & 0xF, (x as int) % 16);
  }
}
