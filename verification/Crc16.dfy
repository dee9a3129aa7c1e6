/** The 16-bit CRC of the 1-Wire bus: the parity form against the bit-serial form with the reflected
    polynomial 0xA001 (Maxim Application Note 27). */
module Crc16 {

  // ---------- bit-serial form ----------

  function Xor(a: bv16, b: bv16): bv16 {
    a ^ b
  }

  function Bit(c: bv16): bv16 {
    if c & 1 == 1 then (c >> 1) ^ 0xA001 else c >> 1
  }

  function Bits(c: bv16, n: nat): bv16
    decreases n
  {
    if n == 0 then c else Bits(Bit(c), n - 1)
  }

  function SerialFold(crc: bv16, bytes: seq<bv8>): bv16
    decreases |bytes|
  {
    if bytes == [] then crc else SerialFold(Bits(Xor(crc, bytes[0] as bv16), 8), bytes[1..])
  }

  // ---------- parity form ----------

  const ODD_PARITY: seq<bv8> := [0, 1, 1, 0, 1, 0, 0, 1, 1, 0, 0, 1, 0, 1, 1, 0]

  /** Whether a half-byte has an odd number of ones. */
  function Odd(n: bv16): bool {
    (n ^ (n >> 1) ^ (n >> 2) ^ (n >> 3)) & 1 == 1
  }

  lemma ParityTable(n: bv16)
    requires n < 16
    ensures |ODD_PARITY| == 16 && ODD_PARITY[n as nat] == if Odd(n) then 1 else 0
  {
    hide Odd;
    if n < 8 {
      ParityLow(n);
    } else {
      ParityHigh(n);
    }
  }

  lemma ParityLow(n: bv16)
    requires n < 8
    ensures |ODD_PARITY| == 16 && ODD_PARITY[n as nat] == if Odd(n) then 1 else 0
  {
    if n == 0 {
    } else if n == 1 {
    } else if n == 2 {
    } else if n == 3 {
    } else if n == 4 {
    } else if n == 5 {
    } else if n == 6 {
    } else {
      assert n == 7;
    }
  }

  lemma ParityHigh(n: bv16)
    requires 8 <= n < 16
    ensures |ODD_PARITY| == 16 && ODD_PARITY[n as nat] == if Odd(n) then 1 else 0
  {
    if n == 8 {
    } else if n == 9 {
    } else if n == 10 {
    } else if n == 11 {
    } else if n == 12 {
    } else if n == 13 {
    } else if n == 14 {
    } else {
      assert n == 15;
    }
  }

  /** Whether a byte has an odd number of ones, by two table entries. */
  predicate OddByte(d: bv16)
    requires d < 0x100
  {
    Halves(d);
    Parity(d & 0x0F) ^ Parity(d >> 4) != 0
  }

  function Parity(n: bv16): (p: bv8)
    requires n < 16
    ensures p == if Odd(n) then 1 else 0
  {
    ParityTable(n);
    ODD_PARITY[n as nat]
  }

  lemma Halves(d: bv16)
    requires d < 0x100
    ensures d & 0x0F < 16 && d >> 4 < 16
  {
  }

  lemma OddByteIs(d: bv16)
    requires d < 0x100
    ensures OddByte(d) <==> Odd(d & 0x0F) != Odd(d >> 4)
  {
    hide Odd, Parity;
    Halves(d);
  }

  /** What the low byte of the register adds in eight steps. */
  function LowByte(d: bv16): bv16 {
    (if Odd(d & 0x0F) != Odd(d >> 4) then 0xC001 else 0) ^ (d << 6) ^ (d << 7)
  }

  predicate Low(c: bv16) {
    c & 1 == 1
  }

  function Half(c: bv16): bv16 {
    c >> 1
  }

  lemma XorParts(a: bv16, b: bv16)
    ensures Low(Xor(a, b)) <==> Low(a) != Low(b)
    ensures Half(Xor(a, b)) == Xor(Half(a), Half(b))
  {
  }

  lemma XorGroups(a: bv16, b: bv16, c: bv16)
    ensures Xor(Xor(a, b), c) == Xor(a, Xor(b, c))
  {
  }

  lemma XorCommutes(a: bv16, b: bv16)
    ensures Xor(a, b) == Xor(b, a)
  {
  }

  lemma XorNothing(a: bv16)
    ensures Xor(a, 0) == a && Xor(a, a) == 0
  {
  }

  lemma XorLaws(a: bv16, b: bv16, p: bv16)
    ensures Xor(Xor(a, p), b) == Xor(Xor(a, b), p) && Xor(a, Xor(b, p)) == Xor(Xor(a, b), p)
    ensures Xor(Xor(a, p), Xor(b, p)) == Xor(a, b)
  {
    hide *;
    XorGroups(a, p, b);
    XorCommutes(p, b);
    XorGroups(a, b, p);
    XorGroups(Xor(a, p), b, p);
    XorGroups(Xor(a, b), p, p);
    XorNothing(p);
    XorNothing(Xor(a, b));
  }

  lemma BitLinear(a: bv16, b: bv16)
    ensures Bit(Xor(a, b)) == Xor(Bit(a), Bit(b))
  {
    XorParts(a, b);
    XorLaws(Half(a), Half(b), 0xA001);
    BitParts(a);
    BitParts(b);
    BitParts(Xor(a, b));
    hide *;
  }

  lemma BitParts(c: bv16)
    ensures Bit(c) == if Low(c) then Xor(Half(c), 0xA001) else Half(c)
  {
  }

  lemma {:induction false} BitsLinear(a: bv16, b: bv16, n: nat)
    ensures Bits(Xor(a, b), n) == Xor(Bits(a, n), Bits(b, n))
    decreases n
  {
    hide Bit, Xor;
    if n > 0 {
      BitLinear(a, b);
      BitsLinear(Bit(a), Bit(b), n - 1);
    }
  }

  /** A register with an empty low byte only shifts. */
  lemma HighByteShifts(h: bv16)
    requires h & 0xFF == 0
    ensures Bits(h, 8) == h >> 8
  {
    EightBits(h);
  }

  lemma EightBits(c: bv16)
    ensures Bits(c, 8) == Bit(Bit(Bit(Bit(Bit(Bit(Bit(Bit(c))))))))
  {
    hide Bit;
    var d := Bit(Bit(Bit(Bit(c))));
    FourBits(c, 4);
    FourBits(d, 0);
  }

  lemma FourBits(c: bv16, n: nat)
    ensures Bits(c, n + 4) == Bits(Bit(Bit(Bit(Bit(c)))), n)
  {
    hide Bit;
    assert Bits(c, n + 4) == Bits(Bit(c), n + 3);
    assert Bits(Bit(c), n + 3) == Bits(Bit(Bit(c)), n + 2);
    assert Bits(Bit(Bit(c)), n + 2) == Bits(Bit(Bit(Bit(c))), n + 1);
  }

  lemma LowByteSteps(d: bv16)
    requires d < 0x100
    ensures Bits(d, 8) == LowByte(d)
  {
    EightBits(d);
  }

  /** The update for one byte computes eight steps of the bit-serial register. */
  method OneWireCrc16Update(input: bv8, crc: bv16) returns (r: bv16)
    ensures r == Bits(Xor(crc, input as bv16), 8)
  {
    hide Bits, Xor, OddByte, Left, Right;
    var cdata := input as bv16;
    cdata := (cdata ^ crc) & 0xFF;
    UpdateIsSerial(input as bv16, crc);
    r := Right(crc, 8);
    if OddByte(cdata) {
      r := Xor(r, 0xC001);
    }
    cdata := Left(cdata, 6);
    r := Xor(r, cdata);
    cdata := Left(cdata, 1);
    r := Xor(r, cdata);
  }

  function Left(c: bv16, n: nat): bv16
    requires n <= 16
  {
    c << n
  }

  function Right(c: bv16, n: nat): bv16
    requires n <= 16
  {
    c >> n
  }

  /** The register after an update, for the low byte d of the register with the input. */
  function Updated(d: bv16, crc: bv16): bv16
    requires d < 0x100
  {
    Xor(Xor(if OddByte(d) then Xor(Right(crc, 8), 0xC001) else Right(crc, 8), Left(d, 6)), Left(Left(d, 6), 1))
  }

  lemma UpdateIsSerial(input: bv16, crc: bv16)
    requires input < 0x100
    ensures (input ^ crc) & 0xFF < 0x100 && Updated((input ^ crc) & 0xFF, crc) == Bits(Xor(crc, input), 8)
  {
    hide Updated, Bits, Xor, LowByte;
    var d, h := (input ^ crc) & 0xFF, crc & 0xFF00;
    SplitRegister(crc, input);
    UpdatedParts(d, crc);
    LowByteSteps(d);
    HighByteShifts(h);
    BitsLinear(h, d, 8);
  }

  lemma UpdatedParts(d: bv16, crc: bv16)
    requires d < 0x100
    ensures Updated(d, crc) == Xor(Right(crc, 8), LowByte(d))
  {
    hide Odd, LowByte, Xor, OddByte, Left, Right;
    OddByteIs(d);
    Collect(d, Right(crc, 8), Odd(d & 0x0F) != Odd(d >> 4));
  }

  lemma Collect(d: bv16, high: bv16, odd: bool)
    requires odd == (Odd(d & 0x0F) != Odd(d >> 4))
    ensures Xor(Xor(if odd then Xor(high, 0xC001) else high, Left(d, 6)), Left(Left(d, 6), 1)) == Xor(high, LowByte(d))
  {
    LowByteParts(d, odd);
    hide *;
    var k, l, m: bv16 := if odd then 0xC001 else 0, Left(d, 6), Left(Left(d, 6), 1);
    XorNothing(high);
    XorGroups(high, k, l);
    XorGroups(high, Xor(k, l), m);
  }

  lemma LowByteParts(d: bv16, odd: bool)
    requires odd == (Odd(d & 0x0F) != Odd(d >> 4))
    ensures LowByte(d) == Xor(Xor(if odd then 0xC001 else 0, Left(d, 6)), Left(Left(d, 6), 1))
  {
    ShiftTwice(d);
    hide Odd, Left;
  }

  lemma ShiftTwice(d: bv16)
    ensures Left(d, 6) == d << 6 && Left(Left(d, 6), 1) == d << 7
  {
  }

  lemma SplitRegister(crc: bv16, input: bv16)
    requires input < 0x100
    ensures Xor(crc, input) == Xor(crc & 0xFF00, (input ^ crc) & 0xFF)
    ensures (crc & 0xFF00) & 0xFF == 0 && (crc & 0xFF00) >> 8 == Right(crc, 8)
    ensures ((input ^ crc) & 0xFF) & 0xFF == (input ^ crc) & 0xFF < 0x100
  {
  }

  method OneWireCrc16(input: seq<bv8>) returns (crc: bv16)
    ensures crc == SerialFold(0, input)
  {
    hide Bits;
    crc := 0;
    assert input[0..] == input;
    for i := 0 to |input|
      invariant SerialFold(crc, input[i..]) == SerialFold(0, input)
    {
      assert input[i..][1..] == input[i + 1..];
      crc := OneWireCrc16Update(input[i], crc);
    }
  }
}
