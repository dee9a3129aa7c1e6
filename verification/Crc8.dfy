/**
 The 8-bit CRC of the Dallas/Maxim 1-Wire bus, x^8 + x^5 + x^4 + 1, in its three forms: bit-serial
 as in Maxim Application Note 27, a table of one entry per byte, and two tables of one entry per
 half-byte.
 */
module Crc8 {
  import opened Bytes

  // ---------- bit-serial form ----------

  function Xor(a: bv8, b: bv8): bv8 {
    a ^ b
  }

  /** Shift one bit out of the register; the polynomial is added for a one bit. */
  function Bit(c: bv8): bv8 {
    if c & 1 == 1 then (c >> 1) ^ 0x8C else c >> 1
  }

  function Bits(c: bv8, n: nat): bv8
    decreases n
  {
    if n == 0 then c else Bits(Bit(c), n - 1)
  }

  // ---------- table forms ----------

  // The 256 entries used by the streams, sixteen to a row.
  const ROW_0: seq<bv8> := [0, 94, 188, 226, 97, 63, 221, 131, 194, 156, 126, 32, 163, 253, 31, 65]
  const ROW_1: seq<bv8> := [157, 195, 33, 127, 252, 162, 64, 30, 95, 1, 227, 189, 62, 96, 130, 220]
  const ROW_2: seq<bv8> := [35, 125, 159, 193, 66, 28, 254, 160, 225, 191, 93, 3, 128, 222, 60, 98]
  const ROW_3: seq<bv8> := [190, 224, 2, 92, 223, 129, 99, 61, 124, 34, 192, 158, 29, 67, 161, 255]
  const ROW_4: seq<bv8> := [70, 24, 250, 164, 39, 121, 155, 197, 132, 218, 56, 102, 229, 187, 89, 7]
  const ROW_5: seq<bv8> := [219, 133, 103, 57, 186, 228, 6, 88, 25, 71, 165, 251, 120, 38, 196, 154]
  const ROW_6: seq<bv8> := [101, 59, 217, 135, 4, 90, 184, 230, 167, 249, 27, 69, 198, 152, 122, 36]
  const ROW_7: seq<bv8> := [248, 166, 68, 26, 153, 199, 37, 123, 58, 100, 134, 216, 91, 5, 231, 185]
  const ROW_8: seq<bv8> := [140, 210, 48, 110, 237, 179, 81, 15, 78, 16, 242, 172, 47, 113, 147, 205]
  const ROW_9: seq<bv8> := [17, 79, 173, 243, 112, 46, 204, 146, 211, 141, 111, 49, 178, 236, 14, 80]
  const ROW_10: seq<bv8> := [175, 241, 19, 77, 206, 144, 114, 44, 109, 51, 209, 143, 12, 82, 176, 238]
  const ROW_11: seq<bv8> := [50, 108, 142, 208, 83, 13, 239, 177, 240, 174, 76, 18, 145, 207, 45, 115]
  const ROW_12: seq<bv8> := [202, 148, 118, 40, 171, 245, 23, 73, 8, 86, 180, 234, 105, 55, 213, 139]
  const ROW_13: seq<bv8> := [87, 9, 235, 181, 54, 104, 138, 212, 149, 203, 41, 119, 244, 170, 72, 22]
  const ROW_14: seq<bv8> := [233, 183, 85, 11, 136, 214, 52, 106, 43, 117, 151, 201, 74, 20, 246, 168]
  const ROW_15: seq<bv8> := [116, 42, 200, 150, 21, 75, 169, 247, 182, 232, 10, 84, 215, 137, 107, 53]

  const DSCRC_TABLE: seq<seq<bv8>> := [
    ROW_0, ROW_1, ROW_2, ROW_3, ROW_4, ROW_5, ROW_6, ROW_7,
    ROW_8, ROW_9, ROW_10, ROW_11, ROW_12, ROW_13, ROW_14, ROW_15
  ]

  function Lookup(c: bv8): bv8 {
    TableSizes();
    DSCRC_TABLE[(c >> 4) as nat][(c & 0x0F) as nat]
  }

  /** The 2x16 entries used by the 1-Wire library: one for the low half-byte, one for the high. */
  const DSCRC_2X16_TABLE: seq<bv8> := [
    0x00, 0x5E, 0xBC, 0xE2, 0x61, 0x3F, 0xDD, 0x83,
    0xC2, 0x9C, 0x7E, 0x20, 0xA3, 0xFD, 0x1F, 0x41,
    0x00, 0x9D, 0x23, 0xBE, 0x46, 0xDB, 0x65, 0xF8,
    0x8C, 0x11, 0xAF, 0x32, 0xCA, 0x57, 0xE9, 0x74
  ]

  function SmallLookup(c: bv8): bv8 {
    TableSizes();
    Xor(DSCRC_2X16_TABLE[(c & 0x0F) as nat], DSCRC_2X16_TABLE[16 + ((c >> 4) & 0x0F) as nat])
  }

  lemma TableSizes()
    ensures |DSCRC_TABLE| == 16 && forall i :: 0 <= i < 16 ==> |DSCRC_TABLE[i]| == 16
    ensures |DSCRC_2X16_TABLE| == 32
  {
  }

  // ---------- the forms agree ----------

  lemma BitLinear(a: bv8, b: bv8)
    ensures Bit(Xor(a, b)) == Xor(Bit(a), Bit(b))
  {
  }

  lemma {:induction false} BitsLinear(a: bv8, b: bv8, n: nat)
    ensures Bits(Xor(a, b), n) == Xor(Bits(a, n), Bits(b, n))
    decreases n
  {
    hide Bit, Xor;
    if n > 0 {
      BitLinear(a, b);
      BitsLinear(Bit(a), Bit(b), n - 1);
    }
  }

  lemma LowBitsA()
    ensures Bits(0x00, 8) == 0x00
    ensures Bits(0x01, 8) == 0x5E
    ensures Bits(0x02, 8) == 0xBC
    ensures Bits(0x03, 8) == 0xE2
    ensures Bits(0x04, 8) == 0x61
    ensures Bits(0x05, 8) == 0x3F
    ensures Bits(0x06, 8) == 0xDD
    ensures Bits(0x07, 8) == 0x83
  {
  }

  lemma LowBitsB()
    ensures Bits(0x08, 8) == 0xC2
    ensures Bits(0x09, 8) == 0x9C
    ensures Bits(0x0A, 8) == 0x7E
    ensures Bits(0x0B, 8) == 0x20
    ensures Bits(0x0C, 8) == 0xA3
    ensures Bits(0x0D, 8) == 0xFD
    ensures Bits(0x0E, 8) == 0x1F
    ensures Bits(0x0F, 8) == 0x41
  {
  }

  lemma LowNibbleA(j: bv8)
    requires j < 8
    ensures |DSCRC_2X16_TABLE| == 32 && DSCRC_2X16_TABLE[j as nat] == Bits(j, 8)
  {
    hide Bits;
    LowBitsA();
    if j == 0 {
    } else if j == 1 {
    } else if j == 2 {
    } else if j == 3 {
    } else if j == 4 {
    } else if j == 5 {
    } else if j == 6 {
    } else {
      assert j == 7;
    }
  }

  lemma LowNibbleB(j: bv8)
    requires 8 <= j < 16
    ensures |DSCRC_2X16_TABLE| == 32 && DSCRC_2X16_TABLE[j as nat] == Bits(j, 8)
  {
    hide Bits;
    LowBitsB();
    if j == 8 {
    } else if j == 9 {
    } else if j == 10 {
    } else if j == 11 {
    } else if j == 12 {
    } else if j == 13 {
    } else if j == 14 {
    } else {
      assert j == 15;
    }
  }

  lemma HighBitsA()
    ensures Bits(0x00, 8) == 0x00
    ensures Bits(0x10, 8) == 0x9D
    ensures Bits(0x20, 8) == 0x23
    ensures Bits(0x30, 8) == 0xBE
    ensures Bits(0x40, 8) == 0x46
    ensures Bits(0x50, 8) == 0xDB
    ensures Bits(0x60, 8) == 0x65
    ensures Bits(0x70, 8) == 0xF8
  {
  }

  lemma HighBitsB()
    ensures Bits(0x80, 8) == 0x8C
    ensures Bits(0x90, 8) == 0x11
    ensures Bits(0xA0, 8) == 0xAF
    ensures Bits(0xB0, 8) == 0x32
    ensures Bits(0xC0, 8) == 0xCA
    ensures Bits(0xD0, 8) == 0x57
    ensures Bits(0xE0, 8) == 0xE9
    ensures Bits(0xF0, 8) == 0x74
  {
  }

  lemma HighNibbleA(j: bv8)
    requires j < 8
    ensures |DSCRC_2X16_TABLE| == 32 && DSCRC_2X16_TABLE[16 + j as nat] == Bits(j << 4, 8)
  {
    hide Bits;
    HighBitsA();
    if j == 0 {
    } else if j == 1 {
    } else if j == 2 {
    } else if j == 3 {
    } else if j == 4 {
    } else if j == 5 {
    } else if j == 6 {
    } else {
      assert j == 7;
    }
  }

  lemma HighNibbleB(j: bv8)
    requires 8 <= j < 16
    ensures |DSCRC_2X16_TABLE| == 32 && DSCRC_2X16_TABLE[16 + j as nat] == Bits(j << 4, 8)
  {
    hide Bits;
    HighBitsB();
    if j == 8 {
    } else if j == 9 {
    } else if j == 10 {
    } else if j == 11 {
    } else if j == 12 {
    } else if j == 13 {
    } else if j == 14 {
    } else {
      assert j == 15;
    }
  }

  lemma Halves(c: bv8)
    ensures c & 0x0F < 16 && (c >> 4) & 0x0F < 16 && (c >> 4) & 0x0F == c >> 4
    ensures Xor(c & 0x0F, ((c >> 4) & 0x0F) << 4) == c
  {
  }

  /** The small table computes the bit-serial CRC of every byte. */
  lemma SmallTableIsSerial(c: bv8)
    ensures SmallLookup(c) == Bits(c, 8)
  {
    hide Bits;
    Halves(c);
    var low, high := c & 0x0F, (c >> 4) & 0x0F;
    if low < 8 {
      LowNibbleA(low);
    } else {
      LowNibbleB(low);
    }
    if high < 8 {
      HighNibbleA(high);
    } else {
      HighNibbleB(high);
    }
    BitsLinear(low, high << 4, 8);
  }

  /** A row of the large table: one high half-byte with all low ones. */
  function Row(h: bv8): seq<bv8> {
    [
      h ^ 0x00, h ^ 0x5E, h ^ 0xBC, h ^ 0xE2, h ^ 0x61, h ^ 0x3F, h ^ 0xDD, h ^ 0x83,
      h ^ 0xC2, h ^ 0x9C, h ^ 0x7E, h ^ 0x20, h ^ 0xA3, h ^ 0xFD, h ^ 0x1F, h ^ 0x41
    ]
  }

  lemma RowsA()
    ensures ROW_0 == Row(0x00)
    ensures ROW_1 == Row(0x9D)
    ensures ROW_2 == Row(0x23)
    ensures ROW_3 == Row(0xBE)
    ensures ROW_4 == Row(0x46)
    ensures ROW_5 == Row(0xDB)
    ensures ROW_6 == Row(0x65)
    ensures ROW_7 == Row(0xF8)
  {
  }

  lemma RowsB()
    ensures ROW_8 == Row(0x8C)
    ensures ROW_9 == Row(0x11)
    ensures ROW_10 == Row(0xAF)
    ensures ROW_11 == Row(0x32)
    ensures ROW_12 == Row(0xCA)
    ensures ROW_13 == Row(0x57)
    ensures ROW_14 == Row(0xE9)
    ensures ROW_15 == Row(0x74)
  {
  }

  lemma RowOf(j: bv8)
    requires j < 16
    ensures |DSCRC_TABLE| == 16 && |DSCRC_2X16_TABLE| == 32
    ensures DSCRC_TABLE[j as nat] == Row(DSCRC_2X16_TABLE[16 + j as nat])
  {
    hide Row, ROW_0, ROW_1, ROW_2, ROW_3, ROW_4, ROW_5, ROW_6, ROW_7, ROW_8, ROW_9, ROW_10, ROW_11, ROW_12, ROW_13,
      ROW_14, ROW_15;
    RowsA();
    RowsB();
    if j == 0 {
      assert DSCRC_TABLE[0] == ROW_0;
    } else if j == 1 {
      assert DSCRC_TABLE[1] == ROW_1;
    } else if j == 2 {
      assert DSCRC_TABLE[2] == ROW_2;
    } else if j == 3 {
      assert DSCRC_TABLE[3] == ROW_3;
    } else if j == 4 {
      assert DSCRC_TABLE[4] == ROW_4;
    } else if j == 5 {
      assert DSCRC_TABLE[5] == ROW_5;
    } else if j == 6 {
      assert DSCRC_TABLE[6] == ROW_6;
    } else if j == 7 {
      assert DSCRC_TABLE[7] == ROW_7;
    } else if j == 8 {
      assert DSCRC_TABLE[8] == ROW_8;
    } else if j == 9 {
      assert DSCRC_TABLE[9] == ROW_9;
    } else if j == 10 {
      assert DSCRC_TABLE[10] == ROW_10;
    } else if j == 11 {
      assert DSCRC_TABLE[11] == ROW_11;
    } else if j == 12 {
      assert DSCRC_TABLE[12] == ROW_12;
    } else if j == 13 {
      assert DSCRC_TABLE[13] == ROW_13;
    } else if j == 14 {
      assert DSCRC_TABLE[14] == ROW_14;
    } else {
      assert j == 15;
      assert DSCRC_TABLE[15] == ROW_15;
    }
  }

  lemma RowAt(h: bv8, j: bv8)
    requires j < 16
    ensures |DSCRC_2X16_TABLE| == 32 && |Row(h)| == 16 && Row(h)[j as nat] == Xor(h, DSCRC_2X16_TABLE[j as nat])
  {
    hide Row, Xor;
    if j < 8 {
      RowAtLow(h, j);
    } else {
      RowAtHigh(h, j);
    }
  }

  lemma RowAtLow(h: bv8, j: bv8)
    requires j < 8
    ensures |DSCRC_2X16_TABLE| == 32 && |Row(h)| == 16 && Row(h)[j as nat] == Xor(h, DSCRC_2X16_TABLE[j as nat])
  {
    if j == 0 {
    } else if j == 1 {
    } else if j == 2 {
    } else if j == 3 {
    } else if j == 4 {
    } else if j == 5 {
    } else if j == 6 {
    } else {
      assert j == 7;
    }
  }

  lemma RowAtHigh(h: bv8, j: bv8)
    requires 8 <= j < 16
    ensures |DSCRC_2X16_TABLE| == 32 && |Row(h)| == 16 && Row(h)[j as nat] == Xor(h, DSCRC_2X16_TABLE[j as nat])
  {
    if j == 8 {
    } else if j == 9 {
    } else if j == 10 {
    } else if j == 11 {
    } else if j == 12 {
    } else if j == 13 {
    } else if j == 14 {
    } else {
      assert j == 15;
    }
  }

  /** The large table computes the bit-serial CRC of every byte. */
  lemma TableIsSerial(c: bv8)
    ensures Lookup(c) == Bits(c, 8) == SmallLookup(c)
  {
    hide Row, Bits, DSCRC_TABLE, DSCRC_2X16_TABLE;
    Halves(c);
    SmallTableIsSerial(c);
    RowOf(c >> 4);
    RowAt(DSCRC_2X16_TABLE[16 + (c >> 4) as nat], c & 0x0F);
    XorCommutes(DSCRC_2X16_TABLE[16 + (c >> 4) as nat], DSCRC_2X16_TABLE[(c & 0x0F) as nat]);
  }

  // ---------- streams of bytes ----------

  /** The CRC register after one more byte. */
  function Step(crc: byte, data: byte): byte {
    Lookup(Xor(crc as bv8, data as bv8)) as byte
  }

  /** The CRC register after a stream of bytes. */
  function Fold(crc: byte, s: seq<byte>): byte {
    if s == [] then crc else Step(Fold(crc, s[..|s| - 1]), s[|s| - 1])
  }

  /** A CRC that is wrong on purpose. */
  function Invalidated(crc: byte): byte {
    if crc == 0xFF then 0 else crc + 1
  }

  lemma FoldNext(crc: byte, s: seq<byte>, i: nat)
    requires i < |s|
    ensures Fold(crc, s[..i + 1]) == Step(Fold(crc, s[..i]), s[i])
  {
    hide Step;
    assert s[..i + 1][..i] == s[..i];
  }

  lemma FoldNone(crc: byte, s: seq<byte>)
    ensures Fold(crc, s[..0]) == crc && Serial(crc as bv8, s[..0]) == crc as bv8
  {
  }

  /** The bit-serial CRC of a stream, as the reference for both table forms. */
  function Serial(crc: bv8, s: seq<byte>): bv8 {
    if s == [] then crc else Bits(Xor(Serial(crc, s[..|s| - 1]), s[|s| - 1] as bv8), 8)
  }

  lemma ByteAsBits(b: byte)
    ensures (b as bv8) as byte == b
  {
    var v := CountUp(b);
    BitsAsByte(v);
  }

  lemma {:induction false} CountUp(n: nat) returns (v: bv8)
    requires n < 0x100
    ensures v as int == n
  {
    if n == 0 {
      v := 0;
    } else {
      var u := CountUp(n - 1);
      CountOne(u);
      v := u + 1;
    }
  }

  lemma CountOne(u: bv8)
    ensures u as int < 0xFF ==> (u + 1) as int == u as int + 1
  {
  }

  lemma BitsAsByte(b: bv8)
    ensures (b as byte) as bv8 == b
  {
  }

  lemma StepIsSerial(crc: byte, data: byte)
    ensures Step(crc, data) as bv8 == Bits(Xor(crc as bv8, data as bv8), 8)
  {
    hide Lookup, Bits, Xor;
    var x := Xor(crc as bv8, data as bv8);
    TableIsSerial(x);
    BitsAsByte(Lookup(x));
  }

  lemma FoldLast(crc: byte, s: seq<byte>)
    requires s != []
    ensures Fold(crc, s) == Step(Fold(crc, s[..|s| - 1]), s[|s| - 1])
    ensures Serial(crc as bv8, s) == Bits(Xor(Serial(crc as bv8, s[..|s| - 1]), s[|s| - 1] as bv8), 8)
  {
    hide Step, Bits, Xor;
  }

  lemma {:induction false} FoldIsSerial(crc: byte, s: seq<byte>)
    ensures Fold(crc, s) as bv8 == Serial(crc as bv8, s)
  {
    hide Step, Bits, Xor, Fold, Serial;
    if s == [] {
      FoldNone(crc, s);
      assert s[..0] == s;
    } else {
      var rest, last := s[..|s| - 1], s[|s| - 1];
      FoldIsSerial(crc, rest);
      StepIsSerial(Fold(crc, rest), last);
      FoldLast(crc, s);
    }
  }

  /** The CRC loop of the 1-Wire library, with the small table. */
  method OneWireCrc8(addr: seq<byte>) returns (crc: byte)
    ensures crc == Fold(0, addr)
    ensures crc as bv8 == Serial(0, addr)
  {
    hide Lookup, SmallLookup, Bits, Fold, Serial, Xor;
    crc := 0;
    FoldNone(0, addr);
    for i := 0 to |addr|
      invariant crc == Fold(0, addr[..i])
    {
      var c := Xor(addr[i] as bv8, crc as bv8);
      FoldNext(0, addr, i);
      TableIsSerial(c);
      XorCommutes(addr[i] as bv8, crc as bv8);
      crc := SmallLookup(c) as byte;
    }
    assert addr[..|addr|] == addr;
    FoldIsSerial(0, addr);
  }

  lemma XorCommutes(a: bv8, b: bv8)
    ensures Xor(a, b) == Xor(b, a) && Xor(Xor(a, b), b) == a
  {
  }

  // ---------- error detection ----------

  lemma BitInjective(a: bv8, b: bv8)
    requires Bit(a) == Bit(b)
    ensures a == b
  {
  }

  lemma {:induction false} BitsInjective(a: bv8, b: bv8, n: nat)
    requires Bits(a, n) == Bits(b, n)
    ensures a == b
    decreases n
  {
    hide Bit;
    if n > 0 {
      BitsInjective(Bit(a), Bit(b), n - 1);
      BitInjective(a, b);
    }
  }

  lemma XorInjective(a: bv8, b: bv8, c: bv8, d: bv8)
    requires Xor(a, c) == Xor(b, d)
    ensures a == b <==> c == d
  {
    hide Xor;
    XorCommutes(a, c);
    XorCommutes(b, d);
    XorCommutes(c, a);
    XorCommutes(d, b);
  }

  /** One step can be undone in either argument. */
  lemma StepInjective(a: byte, b: byte, c: byte, d: byte)
    requires Step(a, c) == Step(b, d)
    ensures a == b <==> c == d
  {
    hide Lookup, Bits, Xor;
    var x, y := Xor(a as bv8, c as bv8), Xor(b as bv8, d as bv8);
    BitsAsByte(Lookup(x));
    BitsAsByte(Lookup(y));
    TableIsSerial(x);
    TableIsSerial(y);
    BitsInjective(x, y, 8);
    XorInjective(a as bv8, b as bv8, c as bv8, d as bv8);
    ByteAsBits(a);
    ByteAsBits(b);
    ByteAsBits(c);
    ByteAsBits(d);
  }

  lemma StepZero(crc: byte, data: byte)
    ensures Step(crc, data) == 0 <==> crc == data
  {
    hide Lookup, Bits;
    assert Lookup(0) == 0 by { SelfXor(0); }
    SelfXor(crc as bv8);
    assert Step(crc, crc) == 0;
    if Step(crc, data) == 0 {
      StepInjective(crc, crc, crc, data);
    }
  }

  lemma SelfXor(a: bv8)
    ensures Xor(a, a) == 0 && Lookup(0) == 0
  {
  }

  /** A receiver that folds the CRC byte in as well gets zero for the right CRC byte only. */
  lemma AppendedCrc(crc: byte, s: seq<byte>, last: byte)
    ensures Fold(crc, s + [last]) == 0 <==> last == Fold(crc, s)
  {
    hide Step;
    assert (s + [last])[..|s|] == s;
    StepZero(Fold(crc, s), last);
  }

  /** Different registers stay different under the same bytes. */
  lemma {:induction false} FoldInjective(a: byte, b: byte, s: seq<byte>)
    requires a != b
    ensures Fold(a, s) != Fold(b, s)
  {
    hide Step;
    if s != [] {
      FoldInjective(a, b, s[..|s| - 1]);
      if Fold(a, s) == Fold(b, s) {
        StepInjective(Fold(a, s[..|s| - 1]), Fold(b, s[..|s| - 1]), s[|s| - 1], s[|s| - 1]);
      }
    }
  }

  lemma {:induction false} FoldConcat(crc: byte, s: seq<byte>, t: seq<byte>)
    ensures Fold(crc, s + t) == Fold(Fold(crc, s), t)
  {
    hide Step;
    if t == [] {
      assert s + t == s;
    } else {
      assert (s + t)[..|s + t| - 1] == s + t[..|t| - 1];
      FoldConcat(crc, s, t[..|t| - 1]);
    }
  }

  /** Every error confined to one byte is detected. */
  lemma OneByteError(crc: byte, s: seq<byte>, t: seq<byte>, k: nat)
    requires |s| == |t| && k < |s| && s[k] != t[k]
    requires forall i :: 0 <= i < |s| && i != k ==> s[i] == t[i]
    ensures Fold(crc, s) != Fold(crc, t)
  {
    hide Step, Fold;
    var tail := s[k + 1..];
    assert s == s[..k + 1] + tail && t == t[..k + 1] + tail;
    assert s[..k] == t[..k];
    FoldNext(crc, s, k);
    FoldNext(crc, t, k);
    if Fold(crc, s[..k + 1]) == Fold(crc, t[..k + 1]) {
      StepInjective(Fold(crc, s[..k]), Fold(crc, s[..k]), s[k], t[k]);
    }
    FoldConcat(crc, s[..k + 1], tail);
    FoldConcat(crc, t[..k + 1], tail);
    FoldInjective(Fold(crc, s[..k + 1]), Fold(crc, t[..k + 1]), tail);
  }
}
