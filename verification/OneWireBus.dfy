/** The simulated 1-Wire bus: devices that step through a ROM search, and the driver that wires
    them together. */
module OneWireBus {
  import opened Bytes
  import opened RomOrder

  const SEARCH_ROM: byte := 0xF0

  class OneWireMockDevice {
    const address: Rom
    var dropped: bool
    var selected: bool
    var searchBitNr: nat
    var masterToSlave: seq<byte>

    constructor (address: Rom)
      ensures this.address == address
    {
      this.address := address;
      dropped, selected, searchBitNr, masterToSlave := true, false, 0, [];
    }

    /** In step with a search that has walked this path. The search command may still be waiting in
        the queue before the first bit. */
    ghost predicate Following(path: seq<bool>)
      reads this
    {
      && dropped == !(path <= address) && !selected
      && ((path == [] && masterToSlave == [SEARCH_ROM])
          || (masterToSlave == [] && searchBitNr == Min(|path|, 63)))
    }

    /** Handles one received byte. Commands other than the ROM search belong to the device types. */
    method Process()
      requires masterToSlave != []
      modifies this
      ensures |masterToSlave| < |old(masterToSlave)|
      ensures dropped == old(dropped) && selected == old(selected)
      ensures !dropped ==> masterToSlave == old(masterToSlave)[1..]
      ensures !dropped && !selected && old(masterToSlave)[0] == SEARCH_ROM ==> searchBitNr == 0
    {
      if dropped {
        masterToSlave := [];
        return;
      }
      var cmd := masterToSlave[0];
      masterToSlave := masterToSlave[1..];
      if !selected && cmd == SEARCH_ROM {
        searchBitNr := 0;
      }
    }

    ghost predicate Received(before: seq<byte>, b: byte)
      reads this
    {
      masterToSlave == if dropped then before else before + [b]
    }

    method Write(b: byte)
      modifies this
      ensures dropped == old(dropped) && selected == old(selected) && searchBitNr == old(searchBitNr)
      ensures Received(old(masterToSlave), b)
    {
      if !dropped {
        masterToSlave := masterToSlave + [b];
      }
    }

    method Reset() returns (present: bool)
      modifies this
      ensures !dropped && !selected && masterToSlave == [] && present
    {
      while masterToSlave != []
        decreases |masterToSlave|
      {
        Process();
      }
      dropped := false;
      selected := false;
      present := true;
    }

    /** Pulls the line of its own address bit down. */
    method SearchTripletRead(idBit: bool, cmpIdBit: bool, ghost path: seq<bool>) returns (idBit': bool, cmpIdBit': bool)
      requires Following(path) && |path| < 64
      modifies this
      ensures dropped == old(dropped) && Following(path) && masterToSlave == []
      ensures idBit' == (idBit && !(path + [true] <= address))
      ensures cmpIdBit' == (cmpIdBit && !(path + [false] <= address))
    {
      while masterToSlave != []
        invariant Following(path) && dropped == old(dropped)
      {
        Process();
      }
      idBit', cmpIdBit' := idBit, cmpIdBit;
      NextBit(path);
      var myBit := address[searchBitNr];
      if !dropped && myBit {
        idBit' := false;
      }
      if !dropped && !myBit {
        cmpIdBit' := false;
      }
    }

    lemma NextBit(path: seq<bool>)
      requires |path| < 64
      ensures forall b :: path + [b] <= address <==> path <= address && address[|path|] == b
    {
    }

    /** Leaves the search when the chosen bit is not its own. */
    method SearchTripletWrite(bit: bool, ghost path: seq<bool>) returns (stays: bool)
      requires Following(path) && |path| < 64 && masterToSlave == []
      modifies this
      ensures Following(path + [bit]) && stays == !dropped
    {
      NextBit(path);
      var myBit := address[searchBitNr];
      if myBit != bit {
        dropped := true;
      }
      if searchBitNr < 63 {
        searchBitNr := searchBitNr + 1;
      }
      stays := !dropped;
    }
  }

  /** The reply to a triplet: bit 5 the address bit, bit 6 its complement, bit 7 the direction. */
  function Status(idBit: bool, cmpIdBit: bool, direction: bool): bv8 {
    (if idBit then 0x20 else 0) | (if cmpIdBit then 0x40 else 0) | (if direction then 0x80 else 0)
  }

  lemma StatusBits(idBit: bool, cmpIdBit: bool, direction: bool)
    ensures var s := Status(idBit, cmpIdBit, direction);
      && (s & 0x20 > 0) == idBit && (s & 0x40 > 0) == cmpIdBit && (s & 0x80 > 0) == direction
  {
  }

  class OneWireMockDriver {
    const devices: seq<OneWireMockDevice>

    constructor (devices: seq<OneWireMockDevice>)
      requires Distinct(devices)
      ensures this.devices == devices && Valid()
    {
      this.devices := devices;
    }

    static ghost predicate Distinct(devices: seq<OneWireMockDevice>) {
      forall i, j :: 0 <= i < j < |devices| ==> devices[i] != devices[j]
    }

    ghost predicate Valid() {
      Distinct(devices)
    }

    ghost function Roms(): (roms: seq<Rom>)
      ensures |roms| == |devices| && forall i :: 0 <= i < |devices| ==> roms[i] == devices[i].address
    {
      seq(|devices|, i requires 0 <= i < |devices| => devices[i].address)
    }

    ghost predicate Following(path: seq<bool>)
      reads devices
    {
      forall i :: 0 <= i < |devices| ==> devices[i].Following(path)
    }

    method Reset() returns (present: bool)
      requires Valid()
      modifies devices
      ensures present == (devices != [])
      ensures forall i :: 0 <= i < |devices| ==>
        !devices[i].dropped && !devices[i].selected && devices[i].masterToSlave == []
    {
      present := false;
      for k := 0 to |devices|
        invariant present == (k > 0)
        invariant forall i :: 0 <= i < k ==>
          !devices[i].dropped && !devices[i].selected && devices[i].masterToSlave == []
      {
        var here := devices[k].Reset();
        present := present || here;
      }
    }

    method Write(b: byte)
      requires Valid()
      modifies devices
      ensures forall i :: 0 <= i < |devices| ==> devices[i].Received(old(devices[i].masterToSlave), b)
      ensures forall i :: 0 <= i < |devices| ==>
        devices[i].dropped == old(devices[i].dropped) && devices[i].selected == old(devices[i].selected)
    {
      for k := 0 to |devices|
        invariant forall i :: 0 <= i < k ==> devices[i].Received(old(devices[i].masterToSlave), b)
        invariant forall i :: k <= i < |devices| ==> devices[i].masterToSlave == old(devices[i].masterToSlave)
        invariant forall i :: 0 <= i < |devices| ==>
          devices[i].dropped == old(devices[i].dropped) && devices[i].selected == old(devices[i].selected)
      {
        devices[k].Write(b);
      }
    }

    /** One bit of the search: all devices answer with their bit and its complement, the direction is
        forced when they agree, and devices with the other bit leave. */
    method SearchTriplet(searchDirection: bool, ghost path: seq<bool>) returns (status: bv8, ghost direction: bool)
      requires Valid() && Following(path) && |path| < 64
      modifies devices
      ensures Following(path + [direction])
      ensures status == Status(!Live(Roms(), path + [true]), !Live(Roms(), path + [false]), direction)
      ensures direction == if Live(Roms(), path + [true]) && Live(Roms(), path + [false]) then searchDirection
                           else Live(Roms(), path + [true]) || !Live(Roms(), path + [false])
    {
      hide Status;
      var idBit, cmpIdBit := ReadBits(path);
      var chosen := searchDirection;
      if idBit != cmpIdBit {
        chosen := !idBit;
      }
      if idBit && cmpIdBit {
        chosen := true;
      }
      WriteBit(chosen, path);
      direction := chosen;
      status := Status(idBit, cmpIdBit, chosen);
    }

    method ReadBits(ghost path: seq<bool>) returns (idBit: bool, cmpIdBit: bool)
      requires Valid() && Following(path) && |path| < 64
      modifies devices
      ensures Following(path) && forall i :: 0 <= i < |devices| ==> devices[i].masterToSlave == []
      ensures idBit == !Live(Roms(), path + [true]) && cmpIdBit == !Live(Roms(), path + [false])
    {
      idBit, cmpIdBit := true, true;
      for k := 0 to |devices|
        invariant forall i :: 0 <= i < |devices| ==> devices[i].Following(path)
        invariant forall i :: 0 <= i < k ==> devices[i].masterToSlave == []
        invariant idBit == !Live(Roms()[..k], path + [true]) && cmpIdBit == !Live(Roms()[..k], path + [false])
      {
        idBit, cmpIdBit := devices[k].SearchTripletRead(idBit, cmpIdBit, path);
        LiveNext(Roms(), k, path + [true]);
        LiveNext(Roms(), k, path + [false]);
      }
      assert Roms()[..|devices|] == Roms();
    }

    method WriteBit(bit: bool, ghost path: seq<bool>)
      requires Valid() && Following(path) && |path| < 64
      requires forall i :: 0 <= i < |devices| ==> devices[i].masterToSlave == []
      modifies devices
      ensures Following(path + [bit])
    {
      for k := 0 to |devices|
        invariant forall i :: 0 <= i < k ==> devices[i].Following(path + [bit])
        invariant forall i :: k <= i < |devices| ==> devices[i].Following(path) && devices[i].masterToSlave == []
      {
        var _ := devices[k].SearchTripletWrite(bit, path);
      }
    }
  }

  lemma LiveNext(roms: seq<Rom>, k: nat, path: seq<bool>)
    requires k < |roms|
    ensures Live(roms[..k + 1], path) <==> Live(roms[..k], path) || path <= roms[k]
  {
    assert forall i :: 0 <= i < k ==> roms[..k + 1][i] == roms[..k][i];
    assert roms[..k + 1][k] == roms[k];
  }
}
