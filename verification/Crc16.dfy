/** The table-driven CRC of crc16.h, and what it computes. */
module Crc16 {

  // ---------- division bit by bit ----------

  // One step of the division by x^16 + x^12 + x^5 + 1.
  function Bit(c: bv16): bv16 {
    if c & 0x8000 != 0 then (c << 1) ^ 0x1021 else c << 1
  }

  function Xor(x: bv16, y: bv16): bv16 { x ^ y }

  function Bits(c: bv16, n: nat): bv16
    decreases n
  {
    if n == 0 then c else Bits(Bit(c), n - 1)
  }

  function Word(b: bv8): bv16 { (b as bv16) << 8 }

  // The CRC of a message, most significant bit first, from 0.
  function Bitwise(data: seq<bv8>): bv16 {
    if data == [] then 0 else Bits(Xor(Bitwise(data[..|data| - 1]), Word(data[|data| - 1])), 8)
  }

  // ---------- the table ----------

  // crc16tab, in rows of eight.
  const CRC16TAB: seq<seq<bv16>> := [
    [0x0000, 0x1021, 0x2042, 0x3063, 0x4084, 0x50a5, 0x60c6, 0x70e7],
    [0x8108, 0x9129, 0xa14a, 0xb16b, 0xc18c, 0xd1ad, 0xe1ce, 0xf1ef],
    [0x1231, 0x0210, 0x3273, 0x2252, 0x52b5, 0x4294, 0x72f7, 0x62d6],
    [0x9339, 0x8318, 0xb37b, 0xa35a, 0xd3bd, 0xc39c, 0xf3ff, 0xe3de],
    [0x2462, 0x3443, 0x0420, 0x1401, 0x64e6, 0x74c7, 0x44a4, 0x5485],
    [0xa56a, 0xb54b, 0x8528, 0x9509, 0xe5ee, 0xf5cf, 0xc5ac, 0xd58d],
    [0x3653, 0x2672, 0x1611, 0x0630, 0x76d7, 0x66f6, 0x5695, 0x46b4],
    [0xb75b, 0xa77a, 0x9719, 0x8738, 0xf7df, 0xe7fe, 0xd79d, 0xc7bc],
    [0x48c4, 0x58e5, 0x6886, 0x78a7, 0x0840, 0x1861, 0x2802, 0x3823],
    [0xc9cc, 0xd9ed, 0xe98e, 0xf9af, 0x8948, 0x9969, 0xa90a, 0xb92b],
    [0x5af5, 0x4ad4, 0x7ab7, 0x6a96, 0x1a71, 0x0a50, 0x3a33, 0x2a12],
    [0xdbfd, 0xcbdc, 0xfbbf, 0xeb9e, 0x9b79, 0x8b58, 0xbb3b, 0xab1a],
    [0x6ca6, 0x7c87, 0x4ce4, 0x5cc5, 0x2c22, 0x3c03, 0x0c60, 0x1c41],
    [0xedae, 0xfd8f, 0xcdec, 0xddcd, 0xad2a, 0xbd0b, 0x8d68, 0x9d49],
    [0x7e97, 0x6eb6, 0x5ed5, 0x4ef4, 0x3e13, 0x2e32, 0x1e51, 0x0e70],
    [0xff9f, 0xefbe, 0xdfdd, 0xcffc, 0xbf1b, 0xaf3a, 0x9f59, 0x8f78],
    [0x9188, 0x81a9, 0xb1ca, 0xa1eb, 0xd10c, 0xc12d, 0xf14e, 0xe16f],
    [0x1080, 0x00a1, 0x30c2, 0x20e3, 0x5004, 0x4025, 0x7046, 0x6067],
    [0x83b9, 0x9398, 0xa3fb, 0xb3da, 0xc33d, 0xd31c, 0xe37f, 0xf35e],
    [0x02b1, 0x1290, 0x22f3, 0x32d2, 0x4235, 0x5214, 0x6277, 0x7256],
    [0xb5ea, 0xa5cb, 0x95a8, 0x8589, 0xf56e, 0xe54f, 0xd52c, 0xc50d],
    [0x34e2, 0x24c3, 0x14a0, 0x0481, 0x7466, 0x6447, 0x5424, 0x4405],
    [0xa7db, 0xb7fa, 0x8799, 0x97b8, 0xe75f, 0xf77e, 0xc71d, 0xd73c],
    [0x26d3, 0x36f2, 0x0691, 0x16b0, 0x6657, 0x7676, 0x4615, 0x5634],
    [0xd94c, 0xc96d, 0xf90e, 0xe92f, 0x99c8, 0x89e9, 0xb98a, 0xa9ab],
    [0x5844, 0x4865, 0x7806, 0x6827, 0x18c0, 0x08e1, 0x3882, 0x28a3],
    [0xcb7d, 0xdb5c, 0xeb3f, 0xfb1e, 0x8bf9, 0x9bd8, 0xabbb, 0xbb9a],
    [0x4a75, 0x5a54, 0x6a37, 0x7a16, 0x0af1, 0x1ad0, 0x2ab3, 0x3a92],
    [0xfd2e, 0xed0f, 0xdd6c, 0xcd4d, 0xbdaa, 0xad8b, 0x9de8, 0x8dc9],
    [0x7c26, 0x6c07, 0x5c64, 0x4c45, 0x3ca2, 0x2c83, 0x1ce0, 0x0cc1],
    [0xef1f, 0xff3e, 0xcf5d, 0xdf7c, 0xaf9b, 0xbfba, 0x8fd9, 0x9ff8],
    [0x6e17, 0x7e36, 0x4e55, 0x5e74, 0x2e93, 0x3eb2, 0x0ed1, 0x1ef0]
  ]

  lemma TableShape()
    ensures |CRC16TAB| == 32 && forall r :: 0 <= r < 32 ==> |CRC16TAB[r]| == 8
  {}

  function Entry(x: bv16): bv16
    requires x <= 0xff
  {
    TableShape();
    CRC16TAB[x as int / 8][x as int % 8]
  }

  // A message byte changes the CRC by one table entry.
  function Update(crc: bv16, b: bv8): bv16 {
    Xor(crc << 8, Entry(Index(crc, b)))
  }

  function Index(crc: bv16, b: bv8): (i: bv16)
    ensures i <= 0xff
  {
    ((crc >> 8) ^ (b as bv16)) & 0x00ff
  }

  // ---------- the table is the division ----------

  predicate Odd(a: seq<bv16>) {
    |a| == 8 && a[1] == Xor(a[0], 0x1021) && a[3] == Xor(a[2], 0x1021) && a[5] == Xor(a[4], 0x1021)
      && a[7] == Xor(a[6], 0x1021)
  }

  // Rows lo and hi follow from row a by one more step of the division.
  predicate Doubles(a: seq<bv16>, lo: seq<bv16>, hi: seq<bv16>) {
    && |a| == 8 && Odd(lo) && Odd(hi)
    && lo[0] == Bit(a[0]) && lo[2] == Bit(a[1]) && lo[4] == Bit(a[2]) && lo[6] == Bit(a[3])
    && hi[0] == Bit(a[4]) && hi[2] == Bit(a[5]) && hi[4] == Bit(a[6]) && hi[6] == Bit(a[7])
  }

  lemma Row0()
    ensures |CRC16TAB| == 32 && Doubles(CRC16TAB[0], CRC16TAB[0], CRC16TAB[1])
  {}

  lemma Row1()
    ensures |CRC16TAB| == 32 && Doubles(CRC16TAB[1], CRC16TAB[2], CRC16TAB[3])
  {}

  lemma Row2()
    ensures |CRC16TAB| == 32 && Doubles(CRC16TAB[2], CRC16TAB[4], CRC16TAB[5])
  {}

  lemma Row3()
    ensures |CRC16TAB| == 32 && Doubles(CRC16TAB[3], CRC16TAB[6], CRC16TAB[7])
  {}

  lemma Row4()
    ensures |CRC16TAB| == 32 && Doubles(CRC16TAB[4], CRC16TAB[8], CRC16TAB[9])
  {}

  lemma Row5()
    ensures |CRC16TAB| == 32 && Doubles(CRC16TAB[5], CRC16TAB[10], CRC16TAB[11])
  {}

  lemma Row6()
    ensures |CRC16TAB| == 32 && Doubles(CRC16TAB[6], CRC16TAB[12], CRC16TAB[13])
  {}

  lemma Row7()
    ensures |CRC16TAB| == 32 && Doubles(CRC16TAB[7], CRC16TAB[14], CRC16TAB[15])
  {}

  lemma Row8()
    ensures |CRC16TAB| == 32 && Doubles(CRC16TAB[8], CRC16TAB[16], CRC16TAB[17])
  {}

  lemma Row9()
    ensures |CRC16TAB| == 32 && Doubles(CRC16TAB[9], CRC16TAB[18], CRC16TAB[19])
  {}

  lemma Row10()
    ensures |CRC16TAB| == 32 && Doubles(CRC16TAB[10], CRC16TAB[20], CRC16TAB[21])
  {}

  lemma Row11()
    ensures |CRC16TAB| == 32 && Doubles(CRC16TAB[11], CRC16TAB[22], CRC16TAB[23])
  {}

  lemma Row12()
    ensures |CRC16TAB| == 32 && Doubles(CRC16TAB[12], CRC16TAB[24], CRC16TAB[25])
  {}

  lemma Row13()
    ensures |CRC16TAB| == 32 && Doubles(CRC16TAB[13], CRC16TAB[26], CRC16TAB[27])
  {}

  lemma Row14()
    ensures |CRC16TAB| == 32 && Doubles(CRC16TAB[14], CRC16TAB[28], CRC16TAB[29])
  {}

  lemma Row15()
    ensures |CRC16TAB| == 32 && Doubles(CRC16TAB[15], CRC16TAB[30], CRC16TAB[31])
  {}

  lemma RowDoubles(r: nat)
    requires r < 16
    ensures |CRC16TAB| == 32 && Doubles(CRC16TAB[r], CRC16TAB[2 * r], CRC16TAB[2 * r + 1])
  {
    hide Doubles, CRC16TAB;
    match r
    case 0 => Row0(); case 1 => Row1(); case 2 => Row2(); case 3 => Row3();
    case 4 => Row4(); case 5 => Row5(); case 6 => Row6(); case 7 => Row7();
    case 8 => Row8(); case 9 => Row9(); case 10 => Row10(); case 11 => Row11();
    case 12 => Row12(); case 13 => Row13(); case 14 => Row14(); case _ => Row15();
  }

  lemma EntryDoubles(h: bv16)
    requires h <= 0x7f
    ensures h << 1 <= 0xff && (h << 1) + 1 <= 0xff
    ensures Entry(h << 1) == Bit(Entry(h)) && Entry((h << 1) + 1) == Xor(Bit(Entry(h)), 0x1021)
  {
    hide CRC16TAB, Bit, Entry;
    DoubleInt(h);
    var i := h as int;
    EntryAt(h << 1, 2 * i);
    EntryAt((h << 1) + 1, 2 * i + 1);
    EntryAt(h, i);
    ColumnDoubles(i / 8, i % 8, i);
  }

  lemma ColumnDoubles(r: nat, j: nat, i: nat)
    requires r < 16 && j < 8 && i == 8 * r + j
    ensures |CRC16TAB| == 32 && |CRC16TAB[r]| == 8 && |CRC16TAB[(2 * i) / 8]| == 8 && |CRC16TAB[(2 * i + 1) / 8]| == 8
    ensures CRC16TAB[(2 * i) / 8][(2 * i) % 8] == Bit(CRC16TAB[r][j])
    ensures CRC16TAB[(2 * i + 1) / 8][(2 * i + 1) % 8] == Xor(Bit(CRC16TAB[r][j]), 0x1021)
  {
    hide CRC16TAB, Bit;
    RowDoubles(r);
    if j < 4 {
      assert (2 * i) / 8 == 2 * r && (2 * i) % 8 == 2 * j && (2 * i + 1) / 8 == 2 * r && (2 * i + 1) % 8 == 2 * j + 1;
    } else {
      assert (2 * i) / 8 == 2 * r + 1 && (2 * i) % 8 == 2 * j - 8 && (2 * i + 1) / 8 == 2 * r + 1
        && (2 * i + 1) % 8 == 2 * j - 7;
    }
  }

  lemma EntryAt(x: bv16, i: nat)
    requires x <= 0xff && x as int == i < 256
    ensures |CRC16TAB| == 32 && |CRC16TAB[i / 8]| == 8 && Entry(x) == CRC16TAB[i / 8][i % 8]
  {
    hide CRC16TAB;
    TableShape();
  }

  lemma DoubleInt(h: bv16)
    requires h <= 0x7f
    ensures h << 1 <= 0xfe && (h << 1) as int == 2 * (h as int)
    ensures (h << 1) + 1 <= 0xff && ((h << 1) + 1) as int == 2 * (h as int) + 1
  {}

  // ---------- the division is linear ----------

  lemma ShiftXor(x: bv16, y: bv16)
    ensures (x ^ y) << 1 == (x << 1) ^ (y << 1)
  {}

  lemma TopXor(x: bv16, y: bv16)
    ensures (x ^ y) & 0x8000 == (x & 0x8000) ^ (y & 0x8000)
  {}

  lemma TopBit(x: bv16)
    ensures x & 0x8000 == 0 || x & 0x8000 == 0x8000
  {}

  lemma XorBoth(x: bv16, y: bv16)
    ensures (x ^ 0x1021) ^ (y ^ 0x1021) == x ^ y
  {}

  lemma XorLeft(x: bv16, y: bv16, z: bv16)
    ensures (x ^ z) ^ y == (x ^ y) ^ z
  {}

  lemma XorRight(x: bv16, y: bv16, z: bv16)
    ensures x ^ (y ^ z) == (x ^ y) ^ z
  {}

  lemma BitLinear(x: bv16, y: bv16)
    ensures Bit(Xor(x, y)) == Xor(Bit(x), Bit(y))
  {
    ShiftXor(x, y);
    TopXor(x, y);
    TopBit(x);
    TopBit(y);
    XorBoth(x << 1, y << 1);
    XorLeft(x << 1, y << 1, 0x1021);
    XorRight(x << 1, y << 1, 0x1021);
  }

  lemma {:induction false} BitsLinear(x: bv16, y: bv16, n: nat)
    ensures Bits(Xor(x, y), n) == Xor(Bits(x, n), Bits(y, n))
    decreases n
  {
    hide Bit, Xor;
    if n > 0 {
      BitLinear(x, y);
      BitsLinear(Bit(x), Bit(y), n - 1);
    }
  }

  lemma {:induction false} BitsBit(x: bv16, n: nat)
    ensures Bits(Bit(x), n) == Bit(Bits(x, n))
    decreases n
  {
    hide Bit;
    if n > 0 { BitsBit(Bit(x), n - 1); }
  }

  lemma {:induction false} BitsAdd(x: bv16, m: nat, n: nat)
    ensures Bits(x, m + n) == Bits(Bits(x, m), n)
    decreases m
  {
    hide Bit;
    if m > 0 { BitsAdd(Bit(x), m - 1, n); }
  }

  // ---------- every entry ----------

  // Eight steps on a single one in the lowest place of the index.
  lemma UnitEntry()
    ensures Bits(0x0100, 8) == 0x1021
  {
    assert Bit(0x0100) == 0x0200 && Bit(0x0200) == 0x0400 && Bit(0x0400) == 0x0800 && Bit(0x0800) == 0x1000;
    assert Bit(0x1000) == 0x2000 && Bit(0x2000) == 0x4000 && Bit(0x4000) == 0x8000 && Bit(0x8000) == 0x1021;
    hide Bit;
    BitsAdd(0x0100, 4, 4);
    assert Bits(0x0100, 4) == Bits(0x0200, 3) == Bits(0x0400, 2) == Bits(0x0800, 1) == Bits(0x1000, 0);
    assert Bits(0x1000, 4) == Bits(0x2000, 3) == Bits(0x4000, 2) == Bits(0x8000, 1) == Bits(0x1021, 0);
  }

  lemma {:induction false} ZeroBits(n: nat)
    ensures Bits(0, n) == 0
    decreases n
  {
    assert Bit(0) == 0;
    hide Bit;
    if n > 0 { ZeroBits(n - 1); }
  }

  // The last bit of an index, and the rest.
  lemma Halve(x: bv16)
    requires x <= 0xff
    ensures var h := x >> 1; h <= 0x7f && (x == h << 1 || x == (h << 1) + 1)
  {}

  lemma HalveHigh(h: bv16)
    requires h <= 0x7f
    ensures (h << 1) << 8 == Bit(h << 8) && ((h << 1) + 1) << 8 == Xor(Bit(h << 8), 0x0100)
  {}

  lemma HalveLess(x: bv16)
    requires 0 < x <= 0xff
    ensures (x >> 1) as int < x as int
  {}

  // Entry x of the table is eight steps of the division on x in the high byte.
  lemma {:induction false} EntryIsDivision(x: bv16)
    requires x <= 0xff
    ensures Entry(x) == Bits(x << 8, 8)
    decreases x as int
  {
    hide CRC16TAB, Entry, Bit, Bits, Xor;
    if x == 0 {
      FirstEntry();
      ZeroBits(8);
      assert x << 8 == 0;
    } else {
      Halve(x);
      HalveLess(x);
      EntryIsDivision(x >> 1);
      DoubledEntry(x >> 1);
    }
  }

  lemma DoubledEntry(h: bv16)
    requires h <= 0x7f && Entry(h) == Bits(h << 8, 8)
    ensures h << 1 <= 0xff && Entry(h << 1) == Bits((h << 1) << 8, 8)
    ensures (h << 1) + 1 <= 0xff && Entry((h << 1) + 1) == Bits(((h << 1) + 1) << 8, 8)
  {
    hide CRC16TAB, Entry, Bit, Bits, Xor;
    EntryDoubles(h);
    HalveHigh(h);
    BitsBit(h << 8, 8);
    BitsLinear(Bit(h << 8), 0x0100, 8);
    UnitEntry();
  }

  lemma FirstEntry()
    ensures Entry(0) == 0
  {
    TableShape();
    assert CRC16TAB[0][0] == 0;
  }

  lemma Halves(c: bv16, b: bv8)
    ensures Xor(c, Word(b)) == Xor(Index(c, b) << 8, c & 0xff)
  {
    var w := b as bv16;
    HighLow(c, w);
    XorLeft((c >> 8) << 8, c & 0xff, w << 8);
  }

  lemma HighLow(c: bv16, w: bv16)
    requires w <= 0xff
    ensures ((((c >> 8) ^ w) & 0x00ff) << 8) == ((c >> 8) << 8) ^ (w << 8)
    ensures c == ((c >> 8) << 8) ^ (c & 0xff)
  {}

  lemma LowByte(c: bv16)
    ensures Bits(c & 0xff, 8) == c << 8
  {
    hide Bits;
    LowShifts(c);
    FourShifts(c & 0xff);
    FourShifts((c & 0xff) << 4);
    BitsAdd(c & 0xff, 4, 4);
  }

  lemma LowShifts(c: bv16)
    ensures (c & 0xff) & 0xf000 == 0 && ((c & 0xff) << 4) & 0xf000 == 0
    ensures ((c & 0xff) << 4) << 4 == c << 8
  {}

  // With the four highest bits clear, four steps of the division are shifts.
  lemma FourShifts(x: bv16)
    requires x & 0xf000 == 0
    ensures Bits(x, 4) == x << 4
  {
    ClearShifts(x);
    hide Bit;
    assert Bits(x, 4) == Bits(Bit(x), 3) == Bits(Bit(Bit(x)), 2) == Bits(Bit(Bit(Bit(x))), 1);
    assert Bits(x, 4) == Bits(Bit(Bit(Bit(Bit(x)))), 0);
  }

  lemma ClearShifts(x: bv16)
    requires x & 0xf000 == 0
    ensures Bit(Bit(Bit(Bit(x)))) == x << 4
  {
    hide Bit;
    ClearTops(x);
    ShiftBit(x);
    ShiftBit(x << 1);
    ShiftBit(x << 2);
    ShiftBit(x << 3);
  }

  lemma ClearTops(x: bv16)
    requires x & 0xf000 == 0
    ensures x & 0x8000 == 0 && (x << 1) & 0x8000 == 0 && (x << 2) & 0x8000 == 0 && (x << 3) & 0x8000 == 0
    ensures (x << 1) << 1 == x << 2 && (x << 2) << 1 == x << 3 && (x << 3) << 1 == x << 4
  {}

  lemma ShiftBit(x: bv16)
    requires x & 0x8000 == 0
    ensures Bit(x) == x << 1
  {}

  // One table look-up does what eight steps of the division do.
  lemma UpdateIsDivision(c: bv16, b: bv8)
    ensures Update(c, b) == Bits(Xor(c, Word(b)), 8)
  {
    hide CRC16TAB, Entry, Word, Bits, Xor, Index;
    var i := Index(c, b);
    Halves(c, b);
    BitsLinear(i << 8, c & 0xff, 8);
    EntryIsDivision(i);
    LowByte(c);
    XorCommutes(Entry(i), c << 8);
  }

  lemma XorCommutes(x: bv16, y: bv16)
    ensures Xor(x, y) == Xor(y, x)
  {}

  // crc16
  method Compute(buf: seq<bv8>) returns (crc: bv16)
    ensures crc == Bitwise(buf)
  {
    hide Update, Bits, Word, Xor, CRC16TAB;
    crc := 0;
    var counter := 0;
    while counter < |buf|
      invariant counter <= |buf| && crc == Bitwise(buf[..counter])
    {
      UpdateIsDivision(crc, buf[counter]);
      assert buf[..counter + 1][..counter] == buf[..counter];
      crc := Update(crc, buf[counter]);
      counter := counter + 1;
    }
    assert buf[..|buf|] == buf;
  }

  // ---------- long division of the whole message ----------

  // The n highest bits of b, highest first.
  function BitsOf(b: bv8, n: nat): seq<bool>
    decreases n
  {
    if n == 0 then [] else [b & 0x80 != 0] + BitsOf(b << 1, n - 1)
  }

  function Message(data: seq<bv8>): seq<bool> {
    if data == [] then [] else Message(data[..|data| - 1]) + BitsOf(data[|data| - 1], 8)
  }

  function Zeros(n: nat): seq<bool> { seq(n, _ => false) }

  // Schoolbook long division: the remainder register takes in one bit of the
  // dividend, and the divisor is subtracted when its leading bit comes out.
  function Divide(r: bv16, bits: seq<bool>): bv16
    decreases bits
  {
    if bits == [] then r else Divide(Xor(Bit(r), if bits[0] then 1 else 0), bits[1..])
  }

  lemma {:induction false} DivideAppend(r: bv16, a: seq<bool>, b: seq<bool>)
    ensures Divide(r, a + b) == Divide(Divide(r, a), b)
    decreases a
  {
    hide Bit, Xor;
    if a == [] {
      assert a + b == b;
    } else {
      assert (a + b)[1..] == a[1..] + b;
      DivideAppend(Xor(Bit(r), if a[0] then 1 else 0), a[1..], b);
    }
  }

  lemma {:induction false} DivideZeros(r: bv16, n: nat)
    ensures Divide(r, Zeros(n)) == Bits(r, n)
    decreases n
  {
    hide Bit, Xor;
    if n > 0 {
      assert Zeros(n)[1..] == Zeros(n - 1);
      XorZero(Bit(r));
      DivideZeros(Bit(r), n - 1);
    }
  }

  lemma XorZero(x: bv16)
    ensures Xor(x, 0) == x
  {}

  // The step of the division in place, where the message bit meets the top bit.
  function Meet(c: bv16, bit: bool): bv16 { Bit(Xor(c, if bit then 0x8000 else 0)) }

  lemma OneBits()
    ensures Bits(1, 16) == 0x1021 == Bit(0x8000)
  {
    assert Bit(0x0001) == 0x0002 && Bit(0x0002) == 0x0004 && Bit(0x0004) == 0x0008 && Bit(0x0008) == 0x0010;
    assert Bit(0x0010) == 0x0020 && Bit(0x0020) == 0x0040 && Bit(0x0040) == 0x0080 && Bit(0x0080) == 0x0100;
    assert Bit(0x8000) == 0x1021;
    hide Bit;
    UnitEntry();
    BitsAdd(1, 4, 4);
    BitsAdd(1, 8, 8);
    assert Bits(0x0001, 4) == Bits(0x0002, 3) == Bits(0x0004, 2) == Bits(0x0008, 1) == Bits(0x0010, 0);
    assert Bits(0x0010, 4) == Bits(0x0020, 3) == Bits(0x0040, 2) == Bits(0x0080, 1) == Bits(0x0100, 0);
  }

  // Sixteen more zeros after a step of the long division are one step in place
  // after sixteen more zeros.
  lemma DivideMeets(r: bv16, bit: bool)
    ensures Bits(Xor(Bit(r), if bit then 1 else 0), 16) == Meet(Bits(r, 16), bit)
  {
    hide Bit, Bits, Xor;
    var c := Bits(r, 16);
    BitsBit(r, 16);
    BitsLinear(Bit(r), if bit then 1 else 0, 16);
    BitLinear(c, if bit then 0x8000 else 0);
    OneBits();
    ZeroBits(16);
    BitZero();
  }

  lemma BitZero()
    ensures Bit(0) == 0
  {}

  function MeetAll(c: bv16, bits: seq<bool>): bv16
    decreases bits
  {
    if bits == [] then c else MeetAll(Meet(c, bits[0]), bits[1..])
  }

  lemma {:induction false} DivideMeetsAll(r: bv16, bits: seq<bool>)
    ensures Bits(Divide(r, bits), 16) == MeetAll(Bits(r, 16), bits)
    decreases bits
  {
    hide Bit, Bits, Xor, Meet;
    if bits != [] {
      DivideMeets(r, bits[0]);
      DivideMeetsAll(Xor(Bit(r), if bits[0] then 1 else 0), bits[1..]);
    }
  }

  // Nothing is left of b after n more shifts.
  predicate Gone(b: bv8, n: nat)
    decreases n
  {
    if n == 0 then b == 0 else Gone(b << 1, n - 1)
  }

  function Top(b: bv8): bv16 { if b & 0x80 != 0 then 0x8000 else 0 }

  lemma TopMeets(c: bv16, b: bv8)
    ensures Bit(Xor(c, Word(b))) == Xor(Meet(c, b & 0x80 != 0), Word(b << 1))
  {
    hide Bit, Xor, Word;
    WordParts(b);
    XorAssociates(c, Top(b), Word(b & 0x7f));
    BitLinear(Xor(c, Top(b)), Word(b & 0x7f));
  }

  lemma XorAssociates(x: bv16, y: bv16, z: bv16)
    ensures Xor(x, Xor(y, z)) == Xor(Xor(x, y), z)
  {
    XorRight(x, y, z);
  }

  lemma WordParts(b: bv8)
    ensures Word(b) == Xor(Top(b), Word(b & 0x7f))
    ensures Bit(Word(b & 0x7f)) == Word(b << 1)
  {}

  lemma {:induction false} ByteMeets(c: bv16, b: bv8, n: nat)
    requires Gone(b, n)
    ensures Bits(Xor(c, Word(b)), n) == MeetAll(c, BitsOf(b, n))
    decreases n
  {
    hide Bit, Xor, Meet;
    if n == 0 {
      assert Word(0) == 0;
      XorZero(c);
    } else {
      hide Word;
      TopMeets(c, b);
      ByteMeets(Meet(c, b & 0x80 != 0), b << 1, n - 1);
      assert BitsOf(b, n)[1..] == BitsOf(b << 1, n - 1);
    }
  }

  lemma GoneAfterEight(b: bv8)
    ensures Gone(b, 8)
  {
    assert (((((((b << 1) << 1) << 1) << 1) << 1) << 1) << 1) << 1 == 0;
    assert Gone(((((b << 1) << 1) << 1) << 1), 4);
  }

  lemma {:induction false} MeetAppend(c: bv16, a: seq<bool>, b: seq<bool>)
    ensures MeetAll(c, a + b) == MeetAll(MeetAll(c, a), b)
    decreases a
  {
    hide Meet;
    if a == [] {
      assert a + b == b;
    } else {
      assert (a + b)[1..] == a[1..] + b;
      MeetAppend(Meet(c, a[0]), a[1..], b);
    }
  }

  lemma {:induction false} BitwiseMeets(data: seq<bv8>)
    ensures Bitwise(data) == MeetAll(0, Message(data))
  {
    hide Bit, Bits, Xor, Meet, Word, BitsOf;
    if data != [] {
      var init, b := data[..|data| - 1], data[|data| - 1];
      BitwiseMeets(init);
      GoneAfterEight(b);
      ByteMeets(Bitwise(init), b, 8);
      MeetAppend(0, Message(init), BitsOf(b, 8));
    }
  }

  // The CRC is the remainder of the long division of the message with sixteen
  // zero bits appended.
  lemma CrcIsRemainder(data: seq<bv8>)
    ensures Bitwise(data) == Divide(0, Message(data) + Zeros(16))
  {
    hide Bit, Bits, Xor, Meet, Word, BitsOf, Divide, MeetAll, Message;
    BitwiseMeets(data);
    DivideAppend(0, Message(data), Zeros(16));
    DivideZeros(Divide(0, Message(data)), 16);
    DivideMeetsAll(0, Message(data));
    ZeroBits(16);
  }

  // A message followed by its own CRC, high byte first, has CRC 0.
  lemma SelfCheck(data: seq<bv8>)
    ensures var c := Bitwise(data); Bitwise(data + [(c >> 8) as bv8, (c & 0xff) as bv8]) == 0
  {
    hide Bit, Bits, Xor, Word, Bitwise;
    var c := Bitwise(data);
    CrcBytes(c);
    var hi, lo := (c >> 8) as bv8, (c & 0xff) as bv8;
    BitwiseNext(data, hi);
    BitwiseNext(data + [hi], lo);
    assert data + [hi, lo] == (data + [hi]) + [lo];
    LowByte(c);
    ZeroBits(8);
  }

  lemma BitwiseNext(data: seq<bv8>, b: bv8)
    ensures Bitwise(data + [b]) == Bits(Xor(Bitwise(data), Word(b)), 8)
  {
    hide Bit, Bits, Xor, Word;
    assert (data + [b])[..|data|] == data;
  }

  lemma CrcBytes(c: bv16)
    ensures c & 0xff <= 0xff && c >> 8 <= 0xff
    ensures var hi, lo := (c >> 8) as bv8, (c & 0xff) as bv8;
      Xor(c, Word(hi)) == c & 0xff && Xor(c << 8, Word(lo)) == 0
  {}
}
