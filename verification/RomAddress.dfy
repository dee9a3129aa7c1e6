/** A 1-Wire address as eight bytes: the family code, a serial number and a CRC, least significant bits first. */
module RomAddress {
  import opened Bytes
  import opened RomOrder
  import opened Products
  import Crc8

  /** The value of some bits, least significant first. */
  function BitsValue(bits: seq<bool>): nat {
    if bits == [] then 0 else (if bits[0] then 1 else 0) + 2 * BitsValue(bits[1..])
  }

  lemma {:induction false} BitsBound(bits: seq<bool>, n: nat)
    requires |bits| <= n <= 8
    ensures BitsValue(bits) < [1, 2, 4, 8, 16, 32, 64, 128, 256][n]
  {
    if bits != [] {
      BitsBound(bits[1..], n - 1);
    }
  }

  function AddressByte(rom: Rom, k: nat): byte
    requires k < 8
  {
    BitsBound(rom[8 * k..8 * k + 8], 8);
    BitsValue(rom[8 * k..8 * k + 8])
  }

  function AddressBytes(rom: Rom): seq<byte> {
    seq(8, k requires 0 <= k < 8 => AddressByte(rom, k))
  }

  /** The last byte of an address is the CRC of the others. */
  predicate ValidRom(rom: Rom) {
    AddressByte(rom, 7) == Crc8.Fold(0, AddressBytes(rom)[..7])
  }

  function ZeroRom(): Rom {
    seq(64, _ => false)
  }

  /** The bits of a family code, the first byte of an address. */
  function FamilyBits(code: byte): seq<bool> {
    LowBits(code, 8)
  }

  function LowBits(x: nat, n: nat): (bits: seq<bool>)
    ensures |bits| == n
  {
    if n == 0 then [] else [x % 2 == 1] + LowBits(x / 2, n - 1)
  }

  // ---------- places ----------

  lemma HalfFirst(x: nat, n: nat)
    requires n > 0
    ensures x / (2 * n) == x / 2 / n
  {
    var q := x / 2 / n;
    DivBounds(x / 2, n);
    Associate(q, 2, n);
    Associate(q + 1, 2, n);
    Swap(q, 2, n);
    Swap(q + 1, 2, n);
    DivIs(x, 2 * n, q);
  }

  /** The bit at place i counts 2 to the power of i. */
  lemma {:induction false} PlaceValue(bits: seq<bool>, i: nat)
    requires i < |bits|
    ensures bits[i] <==> BitsValue(bits) / Power(i) % 2 == 1
  {
    var v, rest := BitsValue(bits), BitsValue(bits[1..]);
    assert v / 2 == rest && (bits[0] <==> v % 2 == 1);
    if i == 0 {
      assert v / Power(0) == v;
    } else {
      PlaceValue(bits[1..], i - 1);
      HalfFirst(v, Power(i - 1));
    }
  }

  lemma {:induction false} BitsInjective(a: seq<bool>, b: seq<bool>)
    requires |a| == |b| && BitsValue(a) == BitsValue(b)
    ensures a == b
  {
    if a != [] {
      BitsInjective(a[1..], b[1..]);
      assert a == [a[0]] + a[1..] && b == [b[0]] + b[1..];
    }
  }

  lemma {:induction false} LowBitsValue(x: nat, n: nat)
    requires x < Power(n)
    ensures BitsValue(LowBits(x, n)) == x
  {
    if n > 0 {
      LowBitsValue(x / 2, n - 1);
      assert LowBits(x, n)[1..] == LowBits(x / 2, n - 1);
    }
  }

  /** The addresses that begin with the bits of a family code are those whose first byte is the code. */
  lemma FamilyIsFirstByte(code: byte)
    ensures forall r: Rom :: FamilyBits(code) <= r <==> AddressByte(r, 0) == code
  {
    PowerEight();
    LowBitsValue(code, 8);
    hide BitsValue, LowBits;
    var bits := FamilyBits(code);
    forall r: Rom ensures bits <= r <==> AddressByte(r, 0) == code {
      assert bits <= r <==> r[0..8] == bits;
      if AddressByte(r, 0) == code {
        BitsInjective(r[0..8], bits);
      }
    }
  }

  lemma PowerEight()
    ensures Power(8) == 256
  {
    assert Power(4) == 16;
  }

  // ---------- the CRC over the bits of an address ----------

  function BitOf(b: bool): bv8 {
    if b then 1 else 0
  }

  /** The register after some bits, in the order in which they come over the bus. */
  function BitSerial(c: bv8, bits: seq<bool>): bv8 {
    if bits == [] then c
    else Crc8.Bit(Crc8.Xor(BitSerial(c, bits[..|bits| - 1]), BitOf(bits[|bits| - 1])))
  }

  function Packed(bits: seq<bool>): bv8 {
    if bits == [] then 0 else (Packed(bits[1..]) << 1) | BitOf(bits[0])
  }

  lemma ShiftIn(v: bv8, b: bool)
    requires v as int < 128
    ensures ((v << 1) | BitOf(b)) as int == 2 * (v as int) + if b then 1 else 0
  {
  }

  lemma {:induction false} PackedIsValue(bits: seq<bool>)
    requires |bits| <= 8
    ensures Packed(bits) as int == BitsValue(bits)
  {
    if bits != [] {
      PackedIsValue(bits[1..]);
      BitsBound(bits[1..], 7);
      ShiftIn(Packed(bits[1..]), bits[0]);
    }
  }

  lemma BitSerialLast(c: bv8, bits: seq<bool>, b: bool)
    ensures BitSerial(c, bits + [b]) == Crc8.Bit(Crc8.Xor(BitSerial(c, bits), BitOf(b)))
  {
    hide Crc8.Bit, Crc8.Xor;
    assert (bits + [b])[..|bits|] == bits;
  }

  /** A few bits one by one are the same as all of them at once. */
  lemma {:induction false} BitsAtOnce(c: bv8, b: seq<bool>)
    requires |b| <= 8
    ensures BitSerial(c, b) == Crc8.Bits(Crc8.Xor(c, Packed(b)), |b|)
    decreases |b|
  {
    hide Crc8.Bit, Crc8.Xor, BitSerial, BitsValue;
    if b == [] {
      SerialOfNone(c);
      NothingAdded(c);
    } else {
      var rest, first := b[1..], Crc8.Bit(Crc8.Xor(c, BitOf(b[0])));
      BitsAtOnce(first, rest);
      BitSerialConcat(c, [b[0]], rest);
      assert b == [b[0]] + rest && [] + [b[0]] == [b[0]];
      BitSerialLast(c, [], b[0]);
      SerialOfNone(c);
      PackedIsValue(rest);
      BitsBound(rest, 7);
      ShiftedOut(c, Packed(rest), b[0]);
    }
  }

  lemma SerialOfNone(c: bv8)
    ensures BitSerial(c, []) == c
  {
  }

  lemma NothingAdded(c: bv8)
    ensures Crc8.Xor(c, 0) == c
  {
  }

  lemma ShiftedOut(c: bv8, rest: bv8, b: bool)
    requires rest as int < 128
    ensures Crc8.Bit(Crc8.Xor(c, (rest << 1) | BitOf(b))) == Crc8.Xor(Crc8.Bit(Crc8.Xor(c, BitOf(b))), rest)
  {
  }

  lemma {:induction false} BytesSerial(rom: Rom, k: nat)
    requires k <= 8
    ensures Crc8.Serial(0, AddressBytes(rom)[..k]) == BitSerial(0, rom[..8 * k])
  {
    hide Crc8.Bit, Crc8.Xor, BitSerial, Crc8.Bits, Packed, BitsValue;
    var bytes := AddressBytes(rom);
    if k == 0 {
      SerialOfNone(0);
      assert rom[..0] == [];
    } else {
      BytesSerial(rom, k - 1);
      var b := rom[8 * (k - 1)..8 * k];
      assert bytes[..k][..k - 1] == bytes[..k - 1];
      assert rom[..8 * k] == rom[..8 * (k - 1)] + b;
      PackedIsValue(b);
      AsBits(Packed(b), AddressByte(rom, k - 1));
      BitsAtOnce(BitSerial(0, rom[..8 * (k - 1)]), b);
      BitSerialConcat(0, rom[..8 * (k - 1)], b);
    }
  }

  lemma AsBits(v: bv8, b: byte)
    requires v as int == b
    ensures b as bv8 == v
  {
    Crc8.BitsAsByte(v);
  }

  lemma {:induction false} BitSerialConcat(c: bv8, s: seq<bool>, t: seq<bool>)
    ensures BitSerial(c, s + t) == BitSerial(BitSerial(c, s), t)
  {
    hide Crc8.Bit, Crc8.Xor;
    if t == [] {
      assert s + t == s;
    } else {
      var n := |t| - 1;
      BitSerialConcat(c, s, t[..n]);
      assert s + t == (s + t[..n]) + [t[n]] && t == t[..n] + [t[n]];
      BitSerialLast(c, s + t[..n], t[n]);
      BitSerialLast(BitSerial(c, s), t[..n], t[n]);
    }
  }

  /** An address is valid exactly when its 64 bits, as they come over the bus, leave the CRC register empty. */
  lemma ValidIsSerial(rom: Rom)
    ensures ValidRom(rom) <==> BitSerial(0, rom) == 0
  {
    hide Crc8.Fold, Crc8.Serial, Crc8.Bit, Crc8.Xor, BitSerial, BitsValue;
    var bytes := AddressBytes(rom);
    Crc8.AppendedCrc(0, bytes[..7], bytes[7]);
    assert bytes[..7] + [bytes[7]] == bytes == bytes[..8];
    Crc8.FoldIsSerial(0, bytes);
    BytesSerial(rom, 8);
    assert rom[..64] == rom;
    ZeroAsBits(Crc8.Fold(0, bytes));
  }

  lemma ZeroAsBits(b: byte)
    ensures b as bv8 == 0 <==> b == 0
  {
    Crc8.ByteAsBits(b);
  }
}
