/** The EEPROM and the two streams that read and write a region of it. */
module EepromStreams {
  import opened Bytes

  /** A byte-addressed EEPROM. `log` holds the image after every completed field write: these are
      the states in which a power cut can leave the memory. */
  class Eeprom {
    const data: array<byte>
    ghost var log: seq<seq<byte>>

    constructor (contents: array<byte>)
      ensures data == contents && log == []
    {
      data := contents;
      log := [];
    }

    ghost function Image(): seq<byte>
      reads data
    {
      data[..]
    }

    method ReadByte(offset: nat) returns (value: byte)
      ensures value == if offset < data.Length then Image()[offset] else 0
    {
      value := 0;
      if offset < data.Length {
        value := data[offset];
      }
    }

    method WriteByte(offset: nat, value: byte)
      modifies data
      ensures Image() == if offset < data.Length then old(Image())[offset := value] else old(Image())
    {
      if offset < data.Length {
        data[offset] := value;
      }
    }

    method Clear()
      modifies data
      ensures forall i :: 0 <= i < data.Length ==> Image()[i] == 0
    {
      for i := 0 to data.Length
        invariant forall j :: 0 <= j < i ==> data[j] == 0
      {
        data[i] := 0;
      }
    }

    /** The current image is a state in which the power can fail. */
    ghost method Mark()
      modifies this
      ensures log == old(log) + [Image()]
    {
      log := log + [Image()];
    }

    ghost method Forget()
      modifies this
      ensures log == []
    {
      log := [];
    }
  }

  /** An input stream over a region. Reading past its end yields nothing. */
  class EepromDataIn {
    const rom: Eeprom
    var offset: nat
    var length: nat

    constructor (rom: Eeprom)
      ensures this.rom == rom
    {
      this.rom := rom;
      offset, length := 0, 0;
    }

    ghost predicate Inside()
      reads this
    {
      offset + length <= rom.data.Length
    }

    method Reset(o: nat, l: nat)
      modifies this
      ensures offset == o && length == l
    {
      offset, length := o, l;
    }

    method Peek() returns (value: byte)
      requires Inside()
      ensures length > 0 ==> value == rom.Image()[offset]
    {
      value := rom.ReadByte(offset);
    }

    method Next() returns (value: byte)
      requires Inside()
      modifies this
      ensures Inside()
      ensures if old(length) > 0
              then offset == old(offset) + 1 && length == old(length) - 1 && value == rom.Image()[old(offset)]
              else offset == old(offset) && length == 0 && value == 0
    {
      value := 0;
      if length > 0 {
        length := length - 1;
        value := rom.ReadByte(offset);
        offset := offset + 1;
      }
    }

    method Skip(n: nat) returns (ok: bool)
      requires Inside()
      modifies this
      ensures Inside()
      ensures var k := Min(n, old(length)); offset == old(offset) + k && length == old(length) - k
      ensures ok == (n <= old(length))
    {
      var skip := Min(n, length);
      offset := offset + skip;
      length := length - skip;
      ok := skip == n;
    }

    /** Reads a 16-bit field through a region of at most `room` bytes. Bytes that cannot be read
        leave their part of the field at zero. */
    method Get16(room: nat) returns (ok: bool, value: u16, left: nat)
      requires Inside()
      modifies this
      ensures Inside()
      ensures ok == (room >= 2 && old(length) >= 2)
      ensures ok ==> offset == old(offset) + 2 && length == old(length) - 2 && left == room - 2
      ensures ok ==> value == FromU16(rom.Image()[old(offset)], rom.Image()[old(offset) + 1])
      ensures !ok && (room == 0 || old(length) == 0)
              ==> value == 0 && left == room && offset == old(offset) && length == old(length)
    {
      ok, value, left := false, 0, room;
      if left == 0 || length == 0 {
        return;
      }
      var lo := Next();
      value, left := lo, left - 1;
      if left == 0 || length == 0 {
        return;
      }
      var hi := Next();
      ok, value, left := true, FromU16(lo, hi), left - 1;
    }
  }

  /** An output stream over a region. Bytes beyond its end are refused. */
  class EepromDataOut {
    const rom: Eeprom
    var offset: nat
    var length: nat

    constructor (rom: Eeprom)
      ensures this.rom == rom
    {
      this.rom := rom;
      offset, length := 0, 0;
    }

    ghost predicate Inside()
      reads this
    {
      offset + length <= rom.data.Length
    }

    method Reset(o: nat, l: nat)
      modifies this
      ensures offset == o && length == l
    {
      offset, length := o, l;
    }

    method Write(value: byte) returns (ok: bool)
      requires Inside()
      modifies this, rom.data
      ensures Inside()
      ensures ok == (old(length) > 0)
      ensures ok ==> offset == old(offset) + 1 && length == old(length) - 1
      ensures ok ==> rom.Image() == old(rom.Image())[old(offset) := value]
      ensures !ok ==> offset == old(offset) && length == 0 && rom.Image() == old(rom.Image())
    {
      ok := false;
      if length > 0 {
        rom.WriteByte(offset, value);
        offset := offset + 1;
        length := length - 1;
        ok := true;
      }
    }

    /** Writes one field. The image is a possible power-cut state when the field is complete. */
    method Put(field: seq<byte>) returns (ok: bool)
      requires Inside()
      modifies this, rom, rom.data
      ensures Inside()
      ensures ok == (|field| <= old(length))
      ensures var k := Min(|field|, old(length));
        && offset == old(offset) + k && length == old(length) - k
        && rom.Image() == Splice(old(rom.Image()), old(offset), field[..k])
      ensures rom.log == old(rom.log) + [rom.Image()]
    {
      var i := 0;
      ok := true;
      while i < |field| && ok
        invariant 0 <= i <= Min(|field|, old(length))
        invariant offset == old(offset) + i && length == old(length) - i && Inside()
        invariant !ok ==> length == 0 && i < |field|
        invariant rom.Image() == Splice(old(rom.Image()), old(offset), field[..i])
        invariant rom.log == old(rom.log)
        decreases |field| - i, ok
      {
        ok := Write(field[i]);
        if ok {
          i := i + 1;
        }
      }
      rom.Mark();
    }
  }
}
