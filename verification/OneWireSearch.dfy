/** The 1-Wire master: enumeration of the addresses on a bus, one per search. */
module OneWireSearch {
  import opened Bytes
  import opened RomOrder
  import opened RomAddress
  import opened OneWireBus
  import Crc8

  class OneWire {
    const driver: OneWireMockDriver
    var romNo: Rom
    var lastDiscrepancy: nat
    var lastDeviceFlag: bool
    var lockedSearchBits: nat

    constructor (driver: OneWireMockDriver)
      requires driver.Valid()
      ensures this.driver == driver && Started([])
    {
      this.driver := driver;
      romNo := ZeroRom();
      lastDiscrepancy, lastDeviceFlag, lockedSearchBits := 64, false, 0;
    }

    /** A new enumeration of the addresses that start with `family`. */
    ghost predicate Started(family: seq<bool>)
      reads this
    {
      && driver.Valid() && |family| <= 64 && lockedSearchBits == |family|
      && lastDiscrepancy == 64 && !lastDeviceFlag
      && family <= romNo && forall i :: |family| <= i < 64 ==> !romNo[i]
    }

    method ResetSearch()
      requires driver.Valid()
      modifies this
      ensures Started([])
    {
      romNo := ZeroRom();
      lastDiscrepancy := 64;
      lastDeviceFlag := false;
      lockedSearchBits := 0;
    }

    /** The next searches look for addresses that begin with this byte. */
    method TargetSearch(familyCode: byte)
      requires driver.Valid()
      modifies this
      ensures Started(FamilyBits(familyCode))
      ensures forall r: Rom :: FamilyBits(familyCode) <= r <==> AddressByte(r, 0) == familyCode
    {
      FamilyIsFirstByte(familyCode);
      romNo := FamilyBits(familyCode) + seq(56, _ => false);
      lastDiscrepancy := 64;
      lockedSearchBits := 8;
      lastDeviceFlag := false;
    }

    /** The walk of the next search over the first n bits. */
    ghost predicate Walks(r: seq<bool>, n: nat)
      reads this
    {
      Walked(driver.Roms(), romNo, lastDiscrepancy, lockedSearchBits, r, n)
    }

    /** Finds the next address. It is where the walk ends that follows the previous address up to its
        last branch, and the state then describes the new address in the same way. */
    method Search() returns (found: bool, newAddr: Rom)
      requires driver.Valid() && forall r: Rom :: r in driver.Roms() ==> ValidRom(r)
      modifies this, driver.devices
      ensures driver.Valid() && lockedSearchBits == old(lockedSearchBits)
      ensures found == (!old(lastDeviceFlag) && driver.devices != [])
      ensures !found ==>
        lastDeviceFlag == old(lastDeviceFlag) && romNo == old(romNo) && lastDiscrepancy == old(lastDiscrepancy)
      ensures found ==>
        && newAddr == romNo && old(Walks(newAddr, 64))
        && LastTurn(driver.Roms(), romNo, 64, lastDiscrepancy)
        && lastDeviceFlag == (lastDiscrepancy == 64 || lastDiscrepancy < lockedSearchBits)
    {
      hide Walked, LastTurn, ValidRom, Status;
      found, newAddr := false, romNo;
      if !lastDeviceFlag {
        var present := driver.Reset();
        if !present {
          return;
        }
        driver.Write(SEARCH_ROM);
        var idBitNr, lastZero := WalkBus();
        WalkEnds(driver.Roms(), old(romNo), lastDiscrepancy, lockedSearchBits, romNo);
        var valid := IsValid(romNo);
        if idBitNr >= 64 && valid {
          lastDiscrepancy := lastZero;
          if lastZero == 64 || lastZero < lockedSearchBits {
            lastDeviceFlag := true;
          }
          found := true;
        }
      }
      if found {
        newAddr := romNo;
      }
    }

    /** The first n bits of romNo are where this search has walked, the others are those of the
        previous address. */
    ghost predicate Walking(previous: Rom, n: nat, lastZero: nat)
      reads this, driver.devices
    {
      && driver.Valid() && n <= 64 && romNo[n..] == previous[n..]
      && driver.Following(romNo[..n]) && Live(driver.Roms(), romNo[..n])
      && Walked(driver.Roms(), previous, lastDiscrepancy, lockedSearchBits, romNo, n)
      && LastTurn(driver.Roms(), romNo, n, lastZero)
    }

    /** One bit of a search. `none` when no device answers. */
    method WalkBit(idBitNr: nat, lastZero: nat, ghost previous: Rom) returns (none: bool, lastZero': nat)
      requires idBitNr < 64 && Walking(previous, idBitNr, lastZero)
      modifies this`romNo, driver.devices
      ensures !none && Walking(previous, idBitNr + 1, lastZero')
    {
      hide Walked, LastTurn, Status, Live;
      ghost var roms, path := driver.Roms(), romNo[..idBitNr];
      lastZero' := lastZero;
      var searchDirection;
      if idBitNr < lastDiscrepancy || idBitNr < lockedSearchBits {
        searchDirection := romNo[idBitNr];
      } else {
        // the other way than before at the last branch, and to zero behind it
        searchDirection := idBitNr == lastDiscrepancy;
      }
      SliceAfter(romNo, previous, idBitNr);
      LiveBranches(roms, path);
      var status, direction := driver.SearchTriplet(searchDirection, path);
      StatusBits(!Live(roms, path + [true]), !Live(roms, path + [false]), direction);
      var idBit, cmpIdBit := status & 0x20 > 0, status & 0x40 > 0;
      searchDirection := status & 0x80 > 0;
      WalkStep(roms, previous, lastDiscrepancy, lockedSearchBits, romNo, idBitNr, searchDirection, lastZero);
      none := idBit && cmpIdBit;
      if !none {
        if !idBit && !cmpIdBit && !searchDirection {
          lastZero' := idBitNr;
        }
        romNo := romNo[idBitNr := searchDirection];
      }
    }

    /** The bit loop of one search. */
    method WalkBus() returns (idBitNr: nat, lastZero: nat)
      requires driver.Valid() && driver.Following([]) && driver.devices != []
      modifies this`romNo, driver.devices
      ensures idBitNr == 64 && LastTurn(driver.Roms(), romNo, 64, lastZero)
      ensures Walked(driver.Roms(), old(romNo), lastDiscrepancy, lockedSearchBits, romNo, 64)
    {
      hide Walked, LastTurn, Live;
      idBitNr, lastZero := 0, 64;
      WalkStart(driver.Roms(), romNo, lastDiscrepancy, lockedSearchBits);
      while idBitNr < 64
        invariant Walking(old(romNo), idBitNr, lastZero)
      {
        var none;
        none, lastZero := WalkBit(idBitNr, lastZero, old(romNo));
        if none {
          break;
        }
        idBitNr := idBitNr + 1;
      }
    }

    /** `k` addresses of `order` have been found; they and the others share the locked bits `group`. */
    ghost predicate Enumerating(order: seq<Rom>, group: seq<bool>, k: nat)
      reads this
    {
      && driver.Valid() && lockedSearchBits == |group| <= 64 && 0 < k <= |order|
      && Lists(order, driver.Roms(), group) && romNo == order[k - 1]
      && LastTurn(driver.Roms(), romNo, 64, lastDiscrepancy)
      && lastDeviceFlag == (k == |order|)
    }

    /** Streams every address that the searches find, until a search fails. On a bus with devices this
        lists, in ascending order, each address of one group that shares the locked bits exactly once.
        The group is the requested family exactly when some device belongs to it. */
    method StreamAddresses(ghost family: seq<bool>) returns (addresses: seq<Rom>, ghost group: seq<bool>)
      requires Started(family) && forall r: Rom :: r in driver.Roms() ==> ValidRom(r)
      modifies this, driver.devices
      ensures |group| == |family| && Lists(addresses, driver.Roms(), group)
      ensures driver.devices == [] ==> addresses == []
      ensures driver.devices != [] ==>
        (group == family <==> exists r: Rom :: r in driver.Roms() && family <= r)
      ensures Lists(addresses, driver.Roms(), family) <==>
        driver.devices == [] || exists r: Rom :: r in driver.Roms() && family <= r
    {
      hide Walked, LastTurn, ValidRom, Lists, Live;
      ghost var roms, start, locked := driver.Roms(), romNo, lockedSearchBits;
      addresses, group := [], family;
      var found, address := Search();
      if !found {
        NoDevices(roms, family);
        return;
      }
      group := address[..locked];
      ghost var order := ListOf(roms, group);
      FirstWalk(roms, start, locked, address, order);
      LastOfFamily(roms, address, lastDiscrepancy, locked, order, 0);
      FamilyOrNot(roms, start, locked, address, family);
      while found
        invariant found ==> |addresses| < |order|
        invariant Enumerating(order, group, |addresses| + (if found then 1 else 0))
        invariant addresses == order[..|addresses|] && (found ==> address == order[|addresses|])
        invariant !found ==> |addresses| == |order|
        decreases |order| - |addresses|, found
      {
        addresses := addresses + [address];
        ghost var previous, turn := romNo, lastDiscrepancy;
        GroupOf(order, roms, group, |addresses| - 1);
        if !lastDeviceFlag {
          LastOfFamily(roms, previous, turn, locked, order, |addresses| - 1);
        }
        found, address := Search();
        if found {
          NextWalk(roms, previous, turn, locked, address, order, |addresses| - 1);
          GroupOf(order, roms, group, |addresses|);
          LastOfFamily(roms, address, lastDiscrepancy, locked, order, |addresses|);
        }
      }
      assert addresses == order;
      if group != family {
        OtherGroup(order, roms, group, family);
      }
    }

    /** The CRC check on an address. */
    method IsValid(rom: Rom) returns (valid: bool)
      ensures valid == ValidRom(rom)
    {
      hide Crc8.Fold;
      var crc := Crc8.OneWireCrc8(AddressBytes(rom)[..7]);
      valid := crc == AddressByte(rom, 7);
    }
  }

  /** The bus as a block that answers commands. */
  class OneWireBusBlock {
    const bus: OneWire

    constructor (bus: OneWire)
      ensures this.bus == bus
    {
      this.bus := bus;
    }

    /** The search command: lists the bus, or the devices of one family when the data is not 0. Every address that is
        asked for is listed exactly once, in ascending order, and no other unless the family has no device. */
    method StreamSearch(data: byte) returns (addresses: seq<Rom>)
      requires bus.driver.Valid() && forall r: Rom :: r in bus.driver.Roms() ==> ValidRom(r)
      modifies bus, bus.driver.devices
      ensures Ascending(addresses)
      ensures data == 0 ==> forall r: Rom :: r in addresses <==> r in bus.driver.Roms()
      ensures data != 0 && (exists r: Rom :: r in bus.driver.Roms() && AddressByte(r, 0) == data) ==>
        forall r: Rom :: r in addresses <==> r in bus.driver.Roms() && AddressByte(r, 0) == data
    {
      hide ValidRom, BitsValue, FamilyBits;
      ghost var family, group, roms := [], [], bus.driver.Roms();
      bus.ResetSearch();
      if data != 0 {
        bus.TargetSearch(data);
        family := FamilyBits(data);
      }
      addresses, group := bus.StreamAddresses(family);
      if r: Rom :| data != 0 && r in roms && AddressByte(r, 0) == data {
        assert family <= r;
      }
    }
  }

  lemma NoDevices(roms: seq<Rom>, family: seq<bool>)
    ensures roms == [] ==> Lists([], roms, family)
  {
  }

  lemma GroupOf(order: seq<Rom>, roms: seq<Rom>, group: seq<bool>, k: nat)
    requires Lists(order, roms, group) && k < |order| && |group| <= 64
    ensures order[k][..|group|] == group
  {
    assert order[k] in order;
  }

  /** A walk that misses its family has gone to another group, because the family is empty. */
  lemma FamilyOrNot(roms: seq<Rom>, start: Rom, locked: nat, r: Rom, family: seq<bool>)
    requires Walked(roms, start, 64, locked, r, 64) && |family| == locked <= 64 && family <= start
    ensures r in roms
    ensures r[..locked] == family <==> exists a: Rom :: a in roms && family <= a
  {
    WalkEnds(roms, start, 64, locked, r);
    if a: Rom :| a in roms && family <= a {
      assert forall i :: 0 <= i < locked ==> family[i] == a[i] == start[i];
      WalkFollows(roms, start, 64, locked, r, a, locked);
      assert a[..locked] == family;
    }
    if r[..locked] == family {
      assert family <= r;
    }
  }

  lemma OtherGroup(order: seq<Rom>, roms: seq<Rom>, group: seq<bool>, family: seq<bool>)
    requires Lists(order, roms, group) && order != [] && |group| == |family| <= 64 && group != family
    ensures !Lists(order, roms, family)
  {
    assert order[0] in order;
    SamePath(order[0], group, family);
  }

  lemma SamePath(r: Rom, a: seq<bool>, b: seq<bool>)
    requires |a| == |b|
    ensures a <= r && b <= r ==> a == b
  {
  }

  lemma SliceAfter(r: Rom, previous: Rom, i: nat)
    requires i < 64 && r[i..] == previous[i..]
    ensures r[i] == previous[i]
    ensures r[i := true][i + 1..] == previous[i + 1..] == r[i := false][i + 1..]
  {
    assert r[i..][0] == previous[i..][0];
    assert r[i..][1..] == previous[i..][1..];
  }

  lemma WalkStart(roms: seq<Rom>, previous: Rom, lastTurn: nat, locked: nat)
    requires roms != []
    ensures previous[..0] == [] && Live(roms, [])
    ensures Walked(roms, previous, lastTurn, locked, previous, 0) && LastTurn(roms, previous, 0, 64)
  {
    assert [] <= roms[0];
  }
}
