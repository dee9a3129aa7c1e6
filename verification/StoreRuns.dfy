/**
 The object store over whole runs. A caller keeps a simple map from ids to bytes, updated only from
 the answers it gets, and a set of the ids for which it once got a write error. Whatever it calls in
 whatever order, the chain stays in order, and every other id reads as the map says. As long as the
 caller does not store again under a damaged id, the map is also right for those.
 */
module StoreRuns {
  import opened Bytes
  import opened Blocks
  import opened StoreSpec
  import opened StoreLaws
  import opened DisposedRuns
  import Crc8

  datatype Op = Put(id: u16, h: Handler) | Delete(id: u16)

  /** What the caller is told: the result of a store, or whether a block was found to dispose of. */
  datatype Answer = Result(error: CboxError) | Found(found: bool)

  function Exec(bs: seq<Block>, op: Op): (seq<Block>, Answer) {
    match op
    case Put(id, h) => var r := Store(bs, id, h); (r.blocks, Result(r.error))
    case Delete(id) => (Dispose(bs, id), Found(Get(bs, id) != []))
  }

  /** The caller's knowledge: what is stored, and the ids that once had a write error. */
  datatype Ledger = Ledger(stored: map<u16, seq<byte>>, damaged: set<u16>)

  /** Ok means that the data is stored, unless the handler says that this is not needed. After any other answer the
      caller goes by what its handler has reported: a handler that failed in its test run has stored nothing, one
      that failed later has stored data with a spoiled CRC.
      A handler that itself reports that there is not enough room leaves the caller in doubt about what
      has been stored, like a write error. */
  function Noted(ledger: Ledger, op: Op, answer: Answer): Ledger {
    match op
    case Delete(id) => ledger.(stored := ledger.stored - {id})
    case Put(id, h) =>
      if answer == Result(CboxError.Ok) then
        if h.dryRun == PersistingNotNeeded then ledger
        else Ledger(ledger.stored[id := Record(id, h)], ledger.damaged)
      else if id == 0 || h.dryRun != Ok then ledger
      else if answer == Result(InsufficientPersistentStorage) && h.final != InsufficientPersistentStorage then ledger
      else if answer == Result(InsufficientPersistentStorage) || answer == Result(PersistedStorageWriteError) then
        Ledger(ledger.stored - {id}, ledger.damaged + {id})
      else Ledger(ledger.stored[id := Record(id, h)], ledger.damaged)
  }

  /** The caller does not write to damaged ids, and its handlers do not themselves report the two storage
      errors. */
  predicate Allowed(ledger: Ledger, op: Op) {
    op.Put? ==>
      && op.id !in ledger.damaged
      && op.h.final != InsufficientPersistentStorage && op.h.final != PersistedStorageWriteError
  }

  function Run(bs: seq<Block>, ops: seq<Op>): seq<Block>
    decreases |ops|
  {
    if ops == [] then bs else Run(Exec(bs, ops[0]).0, ops[1..])
  }

  function Follow(bs: seq<Block>, ledger: Ledger, ops: seq<Op>): Ledger
    decreases |ops|
  {
    if ops == [] then ledger
    else var (next, answer) := Exec(bs, ops[0]); Follow(next, Noted(ledger, ops[0], answer), ops[1..])
  }

  predicate AllAllowed(bs: seq<Block>, ledger: Ledger, ops: seq<Op>)
    decreases |ops|
  {
    ops == [] ||
    (var (next, answer) := Exec(bs, ops[0]);
     Allowed(ledger, ops[0]) && AllAllowed(next, Noted(ledger, ops[0], answer), ops[1..]))
  }

  /** The chain stores what the ledger says, and only damaged ids are hollow. */
  ghost predicate Agrees(bs: seq<Block>, ledger: Ledger) {
    forall id: u16 :: AgreesOn(bs, ledger, id)
  }

  ghost predicate AgreesOn(bs: seq<Block>, ledger: Ledger, id: u16) {
    && Get(bs, id) == (if id in ledger.stored then ledger.stored[id] else [])
    && (id in ledger.stored ==> ledger.stored[id] != [])
    && (Hollow(bs, id) ==> id in ledger.damaged)
  }

  /** The chain stores what the ledger says for every id that never had a write error. */
  ghost predicate Trusts(bs: seq<Block>, ledger: Ledger) {
    forall id: u16 :: id !in ledger.damaged ==> AgreesOn(bs, ledger, id) && Count(bs, id) <= 1
  }

  // ---------- any run at all ----------

  lemma DisposeKeepsOrder(bs: seq<Block>, id: u16)
    requires Orderly(bs)
    ensures Orderly(Dispose(bs, id)) && |Encode(Dispose(bs, id))| == |Encode(bs)|
  {
    hide Encode, Sized, Count, Adjacent, Get, Kill, MergePass, Has;
    DisposeKeepsSize(bs, id);
    SomeBytes(bs);
    SomeBytes(Dispose(bs, id));
    SizedKill(bs, id);
    SizedMerge(Kill(bs, id));
    DisposeAdjacent(bs, id);
    DisposeLaw(bs, id, 0);
  }

  lemma DeleteTrusts(bs: seq<Block>, ledger: Ledger, id: u16)
    requires Trusts(bs, ledger)
    ensures Trusts(Dispose(bs, id), ledger.(stored := ledger.stored - {id}))
  {
    hide Encode, Count, Get, Has, Dispose;
    var d, after := Dispose(bs, id), ledger.(stored := ledger.stored - {id});
    forall other: u16 | other !in after.damaged ensures AgreesOn(d, after, other) && Count(d, other) <= 1 {
      assert AgreesOn(bs, ledger, other) && Count(bs, other) <= 1;
      DisposeLaw(bs, id, other);
      HasCount(bs, other);
      HasCount(d, other);
    }
  }

  lemma PutTrusts(bs: seq<Block>, ledger: Ledger, id: u16, h: Handler)
    requires Orderly(bs) && Trusts(bs, ledger)
    ensures var r := Store(bs, id, h); Trusts(r.blocks, Noted(ledger, Put(id, h), Result(r.error)))
  {
    hide Encode, Sized, Count, Adjacent, Get, Has, Store, Record, Noted;
    var r := Store(bs, id, h);
    var after := Noted(ledger, Put(id, h), Result(r.error));
    forall other: u16 | other !in after.damaged
      ensures AgreesOn(r.blocks, after, other) && Count(r.blocks, other) <= 1
    {
      NotedElsewhere(ledger, id, h, r.error, other);
      assert AgreesOn(bs, ledger, other) && Count(bs, other) <= 1;
      if other == id {
        PutTrustsOwn(bs, ledger, id, h);
      } else {
        StoreFrame(bs, id, h, other);
        HasCount(bs, other);
        HasCount(r.blocks, other);
      }
    }
  }

  lemma NotedElsewhere(ledger: Ledger, id: u16, h: Handler, e: CboxError, other: u16)
    ensures var after := Noted(ledger, Put(id, h), Result(e));
      && ledger.damaged <= after.damaged
      && (other != id ==> (other in after.stored <==> other in ledger.stored))
      && (other != id && other in ledger.stored ==> after.stored[other] == ledger.stored[other])
  {
  }

  /** The id that is written, unless the answer says that it may be damaged. */
  lemma PutTrustsOwn(bs: seq<Block>, ledger: Ledger, id: u16, h: Handler)
    requires Orderly(bs) && AgreesOn(bs, ledger, id) && Count(bs, id) <= 1 && id !in ledger.damaged
    requires id !in Noted(ledger, Put(id, h), Result(Store(bs, id, h).error)).damaged
    ensures var r := Store(bs, id, h);
      AgreesOn(r.blocks, Noted(ledger, Put(id, h), Result(r.error)), id) && Count(r.blocks, id) <= 1
  {
    hide Encode, Sized, Count, Adjacent, Get, Has, Store, Record, Unique, HasRoomBehind, Target, Alloc,
      Defrag, FreeSpace, Capacity;
    var r := Store(bs, id, h);
    StoreByPath(bs, id, h);
    StoreResult(bs, id, h);
    StoreCount(bs, id, h);
    RecordSize(id, h);
    HasCount(bs, id);
    HasCount(r.blocks, id);
    if id != 0 && h.dryRun == Ok {
      Answers(bs, id, h);
    }
    HollowAfter(bs, id, h);
  }

  lemma OneOp(bs: seq<Block>, ledger: Ledger, op: Op)
    requires Orderly(bs) && Trusts(bs, ledger)
    ensures var (next, answer) := Exec(bs, op);
      Orderly(next) && |Encode(next)| == |Encode(bs)| && Trusts(next, Noted(ledger, op, answer))
  {
    hide Orderly, Trusts, Store, Dispose, Get, Noted;
    match op {
      case Put(id, h) =>
        StoreKeepsOrder(bs, id, h);
        StoreSpares(bs, id, h);
        PutTrusts(bs, ledger, id, h);
      case Delete(id) =>
        DisposeKeepsOrder(bs, id);
        DeleteTrusts(bs, ledger, id);
        DeleteNoted(ledger, id, Get(bs, id) != []);
    }
  }

  /** Over every run whatsoever the area stays tiled by blocks of sound sizes, without a block of id zero
      and with at most one pair of touching disposed blocks, and every id that never had a write error
      reads as the caller's map says. */
  lemma {:induction false} AnyRun(bs: seq<Block>, ledger: Ledger, ops: seq<Op>)
    requires Orderly(bs) && Trusts(bs, ledger)
    ensures Orderly(Run(bs, ops)) && |Encode(Run(bs, ops))| == |Encode(bs)|
    ensures Trusts(Run(bs, ops), Follow(bs, ledger, ops))
    decreases |ops|
  {
    hide Orderly, Trusts, Encode, Exec, Noted;
    if ops != [] {
      OneOp(bs, ledger, ops[0]);
      AnyRun(Exec(bs, ops[0]).0, Noted(ledger, ops[0], Exec(bs, ops[0]).1), ops[1..]);
    }
  }

  // ---------- runs that spare damaged ids ----------

  lemma DisposeKeepsInv(bs: seq<Block>, id: u16)
    requires Inv(bs)
    ensures Inv(Dispose(bs, id))
  {
    hide Orderly, Encode, Count, Get, Has, Dispose;
    DisposeKeepsOrder(bs, id);
    forall other: u16 ensures Count(Dispose(bs, id), other) <= Count(bs, other) {
      DisposeLaw(bs, id, other);
    }
  }

  lemma DeleteAgrees(bs: seq<Block>, ledger: Ledger, id: u16)
    requires Inv(bs) && Agrees(bs, ledger)
    ensures Agrees(Dispose(bs, id), ledger.(stored := ledger.stored - {id}))
    ensures Get(bs, id) != [] <==> id in ledger.stored
  {
    hide Encode, Sized, Count, Adjacent, Get, Kill, MergePass, Has, Dispose;
    var d, after := Dispose(bs, id), ledger.(stored := ledger.stored - {id});
    forall other: u16 ensures AgreesOn(d, after, other) {
      assert AgreesOn(bs, ledger, other) && AgreesOn(bs, ledger, id);
      DisposeLaw(bs, id, other);
      HasCount(bs, other);
      HasCount(d, other);
      if other == id {
        HasCount(bs, id);
      }
    }
    assert AgreesOn(bs, ledger, id);
  }

  lemma PutAgrees(bs: seq<Block>, ledger: Ledger, id: u16, h: Handler)
    requires Inv(bs) && Agrees(bs, ledger) && Allowed(ledger, Put(id, h))
    ensures var r := Store(bs, id, h);
      Inv(r.blocks) && Agrees(r.blocks, Noted(ledger, Put(id, h), Result(r.error)))
  {
    hide Encode, Sized, Count, Adjacent, Get, Has, Store, Record, HasRoomBehind, Target, Alloc, Defrag,
      FreeSpace, Capacity;
    var r, path := Store(bs, id, h), PathOf(bs, id, h);
    assert AgreesOn(bs, ledger, id);
    assert !Hollow(bs, id);
    StoreKeepsInv(bs, id, h);
    StoreByPath(bs, id, h);
    StoreResult(bs, id, h);
    RecordSize(id, h);
    if id != 0 && h.dryRun == Ok {
      Answers(bs, id, h);
    }
    var after := Noted(ledger, Put(id, h), Result(r.error));
    HollowAfter(bs, id, h);
    forall other: u16 ensures AgreesOn(r.blocks, after, other) {
      assert AgreesOn(bs, ledger, other);
      if other != id {
        StoreFrame(bs, id, h, other);
        HasCount(bs, other);
        HasCount(r.blocks, other);
      }
    }
  }

  /** What the caller can conclude from the answer to a store. */
  lemma Answers(bs: seq<Block>, id: u16, h: Handler)
    requires |Encode(bs)| < 0x10000 && id != 0 && h.dryRun == Ok
    ensures var e, path := Store(bs, id, h).error, PathOf(bs, id, h);
      && (h.final != PersistedStorageWriteError ==> (e == PersistedStorageWriteError <==> path.Lost?))
      && (h.final != InsufficientPersistentStorage ==>
          (e == InsufficientPersistentStorage <==> path.Full? || path.FullAfterDefrag?))
      && (path.Lost? ==> e == PersistedStorageWriteError)
      && (path.Full? || path.FullAfterDefrag? ==> e == InsufficientPersistentStorage)
      && !path.Refused?
  {
    hide Encode, Store, Target, Alloc, Defrag, FreeSpace, Capacity;
    StoreByPath(bs, id, h);
  }

  /** A store that does not write leaves a hollow id hollow; a completed store fills it. */
  lemma HollowAfter(bs: seq<Block>, id: u16, h: Handler)
    requires Orderly(bs) && Count(bs, id) <= 1 && !Hollow(bs, id)
    ensures Hollow(Store(bs, id, h).blocks, id) ==> PathOf(bs, id, h).Lost?
  {
    hide Encode, Sized, Count, Adjacent, Get, Has, Store, Record, Target, Alloc, Defrag;
    StoreByPath(bs, id, h);
    StoreResult(bs, id, h);
    RecordSize(id, h);
    HasCount(bs, id);
    HasCount(Store(bs, id, h).blocks, id);
    DefragLaw(bs, id);
  }

  /** Over every allowed run the invariant holds and the store agrees with the caller's map. */
  lemma {:induction false} RunLaw(bs: seq<Block>, ledger: Ledger, ops: seq<Op>)
    requires Inv(bs) && Agrees(bs, ledger) && AllAllowed(bs, ledger, ops)
    ensures Inv(Run(bs, ops)) && Agrees(Run(bs, ops), Follow(bs, ledger, ops))
    decreases |ops|
  {
    hide Inv, Agrees, Store, Dispose, Get, Noted, Allowed;
    if ops != [] {
      match ops[0] {
        case Put(id, h) => PutAgrees(bs, ledger, id, h);
        case Delete(id) =>
          DisposeKeepsInv(bs, id);
          DeleteAgrees(bs, ledger, id);
          DeleteNoted(ledger, id, Get(bs, id) != []);
      }
      RunLaw(Exec(bs, ops[0]).0, Noted(ledger, ops[0], Exec(bs, ops[0]).1), ops[1..]);
    }
  }

  lemma DeleteNoted(ledger: Ledger, id: u16, found: bool)
    ensures Noted(ledger, Delete(id), Found(found)) == ledger.(stored := ledger.stored - {id})
  {
  }

  /** A freshly formatted area stores nothing. */
  lemma FormattedLaw(bs: seq<Block>, size: nat)
    requires 5 <= size < 0xFFFD && bs == [Free(seq(size, _ => 0))]
    ensures Inv(bs) && |Encode(bs)| == 3 + size && Agrees(bs, Ledger(map[], {})) && Trusts(bs, Ledger(map[], {}))
  {
    assert bs[1..] == [];
    assert |Encode(bs)| == 3 + size + |Encode([])|;
    assert Sized(bs[1..]);
    forall id: u16 ensures Count(bs, id) == 0 && Find(bs, id) == 1 {
      assert Count(bs[1..], id) == 0 && Find(bs[1..], id) == 0;
    }
    assert Count(bs[1..], 0) == 0;
  }

  /** From formatting on, for every run: the area stays tiled and in order, and what a caller reads back
      for an id that never had a write error is what its own map says; so is whether there is something to delete. */
  lemma RunsFromFormat(size: nat, ops: seq<Op>, id: u16)
    requires 5 <= size < 0xFFFD
    ensures var bs := [Free(seq(size, _ => 0))];
      && Orderly(Run(bs, ops)) && |Encode(Run(bs, ops))| == 3 + size
      && var ledger := Follow(bs, Ledger(map[], {}), ops);
         id !in ledger.damaged ==>
           && Get(Run(bs, ops), id) == (if id in ledger.stored then ledger.stored[id] else [])
           && Exec(Run(bs, ops), Delete(id)).1 == Found(id in ledger.stored)
  {
    hide Orderly, Run, Follow, Encode;
    var bs, ledger := [Free(seq(size, _ => 0))], Ledger(map[], {});
    FormattedLaw(bs, size);
    AnyRun(bs, ledger, ops);
    var after := Follow(bs, ledger, ops);
    assert id !in after.damaged ==> AgreesOn(Run(bs, ops), after, id);
  }

  // ---------- what a loader and a power cut see ----------

  /** A loader folds the CRC over id, data and CRC byte and accepts zero. It accepts what a
      completed store left exactly when the handler succeeded. */
  lemma LoaderAccepts(id: u16, h: Handler)
    ensures Crc8.Fold(Crc8.Fold(0, U16(id)), Record(id, h)) == 0 <==> h.final == Ok
  {
    Crc8.AppendedCrc(Crc8.Fold(0, U16(id)), h.payload, CrcByte(id, h));
  }

  /** After a power cut in any operation of the store, every id but three reads as before: the id
      that was written, the id zero of a half-made block, and at most one more. */
  lemma PowerCut(c: seq<Block>, own: u16, bs: seq<Block>) returns (victim: u16)
    requires Harmless(c, own, bs)
    ensures forall id: u16 :: id != 0 && id != own && id != victim ==> Get(c, id) == Get(bs, id)
  {
    hide Others, Get;
    victim :| Others(c, {0, own, victim}) == Others(bs, {0, own, victim});
    forall id: u16 | id != 0 && id != own && id != victim
      ensures Get(c, id) == Get(bs, id)
    {
      SameOthersSameGet(c, bs, {0, own, victim}, id);
    }
  }
}
