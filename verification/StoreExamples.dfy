/**
 Concrete chains on which the store does less than its documentation promises. The exact conditions
 are in StoreLaws.dfy.
 */
module StoreExamples {
  import opened Bytes
  import opened Blocks
  import opened StoreSpec
  import opened StoreLaws
  import opened DisposedRuns
  import opened StoreRuns
  import opened PowerCuts
  import opened AllocationCuts

  function Zeros(n: nat): seq<byte> {
    seq(n, _ => 0)
  }

  const SIX_BYTES := Handler(Zeros(5), Ok, Ok)

  lemma Chain3(a: Block, b: Block, c: Block)
    ensures var bs := [a, b, c];
      && Encode(bs) == EncodeBlock(a) + (EncodeBlock(b) + (EncodeBlock(c) + []))
      && (Sized(bs) <==> SizedBlock(a) && SizedBlock(b) && SizedBlock(c))
      && FreeBytes(bs) == FreeBytes([a]) + FreeBytes([b]) + FreeBytes([c])
  {
    assert [a, b, c][1..] == [b, c] && [b, c][1..] == [c] && [c][1..] == [] && [a][1..] == [] && [b][1..] == [];
    hide EncodeBlock, SizedBlock;
    assert Encode([c]) == EncodeBlock(c) + Encode([]);
    assert Encode([b, c]) == EncodeBlock(b) + Encode([c]);
    assert Sized([c]) == (SizedBlock(c) && Sized([]));
    assert Sized([b, c]) == (SizedBlock(b) && Sized([c]));
    FreeBytesConcat([a], [b, c]);
    FreeBytesConcat([b], [c]);
    assert [a] + [b, c] == [a, b, c] && [b] + [c] == [b, c];
  }

  /** One object between two disposed blocks that are too small for it to grow into. */
  const SQUEEZED: seq<Block> := [Free(Zeros(10)), Object(1, 7, Zeros(5)), Free(Zeros(10))]

  lemma SqueezedFacts()
    ensures Inv(SQUEEZED) && FreeBytes(SQUEEZED) == 26 && Get(SQUEEZED, 7) == [0]
    ensures Capacity(SQUEEZED, 7) == 5 && Alloc(SQUEEZED, 0, 10).NoRoom?
  {
    var a, b, c := SQUEEZED[0], SQUEEZED[1], SQUEEZED[2];
    Chain3(a, b, c);
    assert [a][1..] == [] && [b][1..] == [] && [c][1..] == [];
    assert SQUEEZED[1..] == [b, c] && [b, c][1..] == [c];
    assert FreeBytes([a]) == 13 && FreeBytes([b]) == 0 && FreeBytes([c]) == 13;
    assert Adjacent([c]) == 0 && Adjacent([b, c]) == 0;
    assert forall id: int :: Count([c], id) == 0;
    assert forall id: int :: Count([b, c], id) == (if id == 7 then 1 else 0) + Count([c], id);
    assert forall id: int :: Count(SQUEEZED, id) == Count([b, c], id);
    assert Find([b, c], 7) == 0 && Find(SQUEEZED, 7) == 1;
    assert Alloc([c], 0, 10) == NoRoom && Alloc([b, c], 0, 10) == NoRoom;
  }

  /** Growing this object loses it: the answer is a write error, and nothing is stored any more. */
  lemma GrowingLosesObject()
    ensures Inv(SQUEEZED) && Get(SQUEEZED, 7) == [0]
    ensures var r := Store(SQUEEZED, 7, SIX_BYTES);
      r.error == PersistedStorageWriteError && Get(r.blocks, 7) == []
  {
    SqueezedFacts();
    assert PathOf(SQUEEZED, 7, SIX_BYTES).Lost? by {
      hide Alloc, Get, Inv, Capacity, FreeBytes, Blocks.FreeSpace, Defrag;
      FreeSpaceCounts(SQUEEZED);
      RoomAfterDefrag(SQUEEZED, 7, 10);
    }
    hide Inv, Get, Store, PathOf, Encode;
    StoreByPath(SQUEEZED, 7, SIX_BYTES);
    StoreResult(SQUEEZED, 7, SIX_BYTES);
  }

  // ---------- a run that ends with lost data and the answer Ok ----------

  const ONE_BYTE := Handler([], Ok, Ok)
  const ELEVEN_BYTES := Handler(Zeros(10), Ok, Ok)

  /** Four small objects, two of which are deleted again. The fourth then grows twice. */
  const FILL: seq<Op> := [Put(1, ONE_BYTE), Put(2, ONE_BYTE), Put(3, ONE_BYTE), Put(7, ONE_BYTE)]
  const THIN_OUT: seq<Op> := [Delete(1), Delete(3)]
  const GROW_TWICE: seq<Op> := [Put(7, SIX_BYTES), Put(7, ELEVEN_BYTES)]

  const AREA: seq<Block> := [Free(Zeros(61))]

  predicate Small(b: Block, id: u16) {
    b.Object? && b.used == 1 && b.id == id && |b.data| == 5
  }

  lemma {:induction false} RunConcat(bs: seq<Block>, a: seq<Op>, b: seq<Op>)
    ensures Run(bs, a + b) == Run(Run(bs, a), b)
    decreases |a|
  {
    hide Exec;
    if a == [] {
      assert a + b == b;
    } else {
      assert (a + b)[0] == a[0] && (a + b)[1..] == a[1..] + b;
      RunConcat(Exec(bs, a[0]).0, a[1..], b);
    }
  }

  lemma RunOne(bs: seq<Block>, op: Op)
    ensures Run(bs, [op]) == Exec(bs, op).0
  {
    hide Exec;
    assert [op][1..] == [];
    assert Run(Exec(bs, op).0, []) == Exec(bs, op).0;
  }

  lemma RunTwo(bs: seq<Block>, a: Op, b: Op)
    ensures Run(bs, [a, b]) == Exec(Exec(bs, a).0, b).0
  {
    hide Exec, Run;
    assert [a, b] == [a] + [b];
    RunConcat(bs, [a], [b]);
    RunOne(bs, a);
    RunOne(Exec(bs, a).0, b);
  }

  /** The functions on a chain, seen from its first block. */
  lemma FirstBlock(bs: seq<Block>, b: Block, rest: seq<Block>)
    requires bs == [b] + rest
    ensures Objects(bs) == (if b.Object? then [b] else []) + Objects(rest)
    ensures FreeBytes(bs) == (if b.Free? then 3 + |b.junk| else 0) + FreeBytes(rest)
  {
    assert bs[1..] == rest;
  }

  lemma FirstOfId(bs: seq<Block>, b: Block, rest: seq<Block>, id: u16)
    requires bs == [b] + rest
    ensures Count(bs, id) == (if b.Object? && b.id == id then 1 else 0) + Count(rest, id)
    ensures Find(bs, id) == if b.Object? && b.id == id then 0 else 1 + Find(rest, id)
  {
    assert bs[1..] == rest;
  }

  lemma NoBlock(id: u16)
    ensures Objects([]) == [] && FreeBytes([]) == 0 && Count([], id) == 0 && Find([], id) == 0
  {
  }

  /** Room is found in the one disposed block behind a row of objects. */
  lemma RoomBehind(pre: seq<Block>, junk: seq<byte>, id: u16, want: nat)
    requires (forall j :: 0 <= j < |pre| ==> pre[j].Object?) && |junk| >= want + 12 && want < 0x10000
    ensures Alloc(pre + [Free(junk)], id, want)
      == Placed(pre, Object(want, id, junk[4..want + 4]), [Free(junk[want + 7..])])
  {
    var f := Free(junk);
    var bs := pre + [f];
    assert bs[..|pre|] == pre && bs[|pre|..] == [f] && [f][1..] == [];
    AllocSkips(bs, |pre|, id, want);
    AllocOne(junk, id, want);
    assert pre + [] == pre;
  }

  lemma AllocOne(junk: seq<byte>, id: u16, want: nat)
    requires |junk| >= want + 12 && want < 0x10000
    ensures Alloc([Free(junk)], id, want)
      == Placed([], Object(want, id, junk[4..want + 4]), [Free(junk[want + 7..])])
  {
    assert [Free(junk)][1..] == [];
    assert Alloc([Free(junk)], id, want) == Carve(junk, id, want, []);
    assert [Free(junk[want + 7..])] + [] == [Free(junk[want + 7..])];
  }

  lemma NewId(pre: seq<Block>, junk: seq<byte>, id: u16)
    requires !Has(pre, id)
    ensures Capacity(pre + [Free(junk)], id) == 0
  {
    hide Has;
    GetFirst(pre, Free(junk), [], id);
    GetStep([], id);
    assert pre + [Free(junk)] + [] == pre + [Free(junk)];
    CapacityHas(pre + [Free(junk)], id);
  }

  /** An object block of `room` bytes that holds what the handler has streamed. */
  predicate Holds(o: Block, id: u16, h: Handler) {
    o.Object? && o.id == id && |o.data| == Provision(|h.payload| + 1) && o.used == |h.payload| + 1
    && Record(id, h) <= o.data
  }

  lemma HoldsSmall(o: Block, id: u16)
    requires Holds(o, id, ONE_BYTE)
    ensures Small(o, id)
  {
  }

  /** A new object behind a row of objects. */
  lemma Appended(bs: seq<Block>, ops: seq<Op>, pre: seq<Block>, junk: seq<byte>, id: u16, h: Handler)
    returns (o: Block, rest: seq<byte>)
    requires Run(bs, ops) == pre + [Free(junk)] && (forall j :: 0 <= j < |pre| ==> pre[j].Object?)
    requires !Has(pre, id) && id != 0 && h.dryRun == Ok && Provision(|h.payload| + 1) + 12 <= |junk| < 0x10000
    ensures Run(bs, ops + [Put(id, h)]) == pre + [o] + [Free(rest)]
    ensures Holds(o, id, h) && |rest| == |junk| - Provision(|h.payload| + 1) - 7
  {
    hide Alloc, Find, Capacity, Has, Record, Run;
    var want := Provision(|h.payload| + 1);
    RoomBehind(pre, junk, 0, want);
    NewId(pre, junk, id);
    RecordSize(id, h);
    var raw := Object(want, 0, junk[4..want + 4]);
    o, rest := Filled(raw, id, Record(id, h)), junk[want + 7..];
    RunConcat(bs, ops, [Put(id, h)]);
    RunOne(pre + [Free(junk)], Put(id, h));
  }

  /** Disposed blocks that do not touch stay as they are in a merge pass. */
  lemma {:induction false} NothingToMerge(bs: seq<Block>)
    requires forall j :: 0 <= j < |bs| - 1 ==> !(bs[j].Free? && bs[j + 1].Free?)
    ensures MergePass(bs) == bs
  {
    if |bs| >= 2 {
      NothingToMerge(bs[1..]);
      assert bs == [bs[0]] + bs[1..];
    }
  }

  lemma NotThere(pre: seq<Block>, id: u16)
    requires forall j :: 0 <= j < |pre| ==> pre[j].Object? && pre[j].id != id
    ensures !Has(pre, id)
  {
    if pre != [] {
      NotThere(pre[1..], id);
    }
  }

  lemma Filling() returns (o1: Block, o2: Block, o3: Block, o7: Block, rest: seq<byte>)
    ensures Run(AREA, FILL) == [o1, o2, o3, o7, Free(rest)] && |rest| == 13
    ensures Small(o1, 1) && Small(o2, 2) && Small(o3, 3) && Small(o7, 7)
  {
    o1, o2, o3, o7, rest := FourSmall(AREA, Zeros(61));
  }

  lemma FourSmall(area: seq<Block>, junk: seq<byte>)
    returns (o1: Block, o2: Block, o3: Block, o7: Block, rest: seq<byte>)
    requires area == [Free(junk)] && 61 <= |junk| < 0x10000
    ensures Run(area, FILL) == [o1, o2, o3, o7, Free(rest)] && |rest| == |junk| - 48
    ensures Small(o1, 1) && Small(o2, 2) && Small(o3, 3) && Small(o7, 7)
  {
    hide Run, Has, Holds;
    var r1, r2, r3;
    assert [] + area == area && Run(area, []) == area by { RunNone(area); }
    NotThere([], 1);
    o1, r1 := Appended(area, [], [], junk, 1, ONE_BYTE);
    HoldsSmall(o1, 1);
    assert [] + [o1] == [o1] && [] + [FILL[0]] == FILL[..1];
    NotThere([o1], 2);
    o2, r2 := Appended(area, FILL[..1], [o1], r1, 2, ONE_BYTE);
    HoldsSmall(o2, 2);
    assert [o1] + [o2] == [o1, o2] && FILL[..1] + [FILL[1]] == FILL[..2];
    NotThere([o1, o2], 3);
    o3, r3 := Appended(area, FILL[..2], [o1, o2], r2, 3, ONE_BYTE);
    HoldsSmall(o3, 3);
    assert [o1, o2] + [o3] == [o1, o2, o3] && FILL[..2] + [FILL[2]] == FILL[..3];
    NotThere([o1, o2, o3], 7);
    o7, rest := Appended(area, FILL[..3], [o1, o2, o3], r3, 7, ONE_BYTE);
    HoldsSmall(o7, 7);
    assert FILL[..3] + [FILL[3]] == FILL;
    assert [o1, o2, o3] + [o7] + [Free(rest)] == [o1, o2, o3, o7, Free(rest)];
  }

  lemma RunNone(bs: seq<Block>)
    ensures Run(bs, []) == bs
  {
  }

  lemma ThinningOut(o1: Block, o2: Block, o3: Block, o7: Block, f: Block)
    requires Small(o1, 1) && Small(o2, 2) && Small(o3, 3) && Small(o7, 7) && f.Free?
    ensures Run([o1, o2, o3, o7, f], THIN_OUT) == [Free(Body(o1)), o2, Free(Body(o3)), o7, f]
  {
    SmallStores(o1, 1);
    SmallStores(o3, 3);
    hide Run, Body, Stored;
    ThinFirst(o1, o2, o3, o7, f);
    ThinThird(Free(Body(o1)), o2, o3, o7, f);
    assert THIN_OUT == [Delete(1)] + [Delete(3)];
    RunConcat([o1, o2, o3, o7, f], [Delete(1)], [Delete(3)]);
  }

  lemma ThinFirst(o1: Block, o2: Block, o3: Block, o7: Block, f: Block)
    requires o1.Object? && o1.id == 1 && Stored(o1) != []
    requires o2.Object? && o3.Object? && o7.Object? && f.Free?
    ensures Run([o1, o2, o3, o7, f], [Delete(1)]) == [Free(Body(o1)), o2, o3, o7, f]
  {
    hide Run, Body, Stored, MergePass;
    var b0, b1 := [o1, o2, o3, o7, f], [Free(Body(o1)), o2, o3, o7, f];
    NothingToMerge(b1);
    assert b0[..0] + [b1[0]] + b0[1..] == b1;
    Deleted(b0, 0, 1, b1);
  }

  lemma ThinThird(g1: Block, o2: Block, o3: Block, o7: Block, f: Block)
    requires o3.Object? && o3.id == 3 && Stored(o3) != []
    requires g1.Free? && o2.Object? && o2.id == 2 && o7.Object? && f.Free?
    ensures Run([g1, o2, o3, o7, f], [Delete(3)]) == [g1, o2, Free(Body(o3)), o7, f]
  {
    hide Run, Body, Stored, MergePass;
    var b1, b2 := [g1, o2, o3, o7, f], [g1, o2, Free(Body(o3)), o7, f];
    NothingToMerge(b2);
    assert b1[..2] + [b2[2]] + b1[3..] == b2;
    Deleted(b1, 2, 3, b2);
  }

  /** Growing once after a defragmentation leaves a block without stored bytes. */
  lemma GrowingOnce(g: Block, o2: Block, h: Block, o7: Block, f: Block) returns (hollow: Block, tail: seq<byte>)
    requires g.Free? && |g.junk| == 9 && h.Free? && |h.junk| == 9 && f.Free? && |f.junk| == 13
    requires Small(o2, 2) && Small(o7, 7) && Orderly([g, o2, h, o7, f])
    ensures Exec([g, o2, h, o7, f], Put(7, SIX_BYTES)).0 == [o2, Free(Body(o7)), hollow, Free(tail)]
    ensures hollow.Object? && hollow.id == 7 && hollow.used == 0 && |hollow.data| == 10 && |tail| == 20
  {
    var bs := [g, o2, h, o7, f];
    hide Alloc, Defrag, Find, FreeBytes, Objects, Orderly, Encode, FreeSpace, Capacity, Dispose, MergePass, Body;
    GrowFacts(g, o2, h, o7, f);
    FreeSpaceLaw(bs);
    var d := Defrag(bs);
    var junk := d[|d| - 1].junk;
    assert d == [o2, o7] + [Free(junk)];
    RoomBehind([o2, o7], junk, 7, 10);
    hollow, tail := Object(0, 7, junk[4..14]), junk[17..];
    assert Provision(6) == 10;
    assert Store(bs, 7, SIX_BYTES).blocks == LoseData([o2, o7], Object(10, 7, junk[4..14]), [Free(tail)], 7);
    DisposeSecond(o2, o7);
    NothingToMerge([Free(tail)]);
    assert [o2, Free(Body(o7))] + [hollow] + [Free(tail)] == [o2, Free(Body(o7)), hollow, Free(tail)];
  }

  lemma DisposeSecond(o2: Block, o7: Block)
    requires Small(o2, 2) && Small(o7, 7)
    ensures Dispose([o2, o7], 7) == [o2, Free(Body(o7))]
  {
    hide MergePass, Kill, Body;
    assert [o2, o7][1..] == [o7];
    KillStep([o2, o7], 7);
    KillStep([o7], 7);
    assert o7.data[..1] != [];
    assert [Free(Body(o7))] + [o7][1..] == [Free(Body(o7))] && [o2] + [Free(Body(o7))] == [o2, Free(Body(o7))];
    NothingToMerge([o2, Free(Body(o7))]);
  }

  lemma GrowFacts(g: Block, o2: Block, h: Block, o7: Block, f: Block)
    requires g.Free? && |g.junk| == 9 && h.Free? && |h.junk| == 9 && f.Free? && |f.junk| == 13
    requires Small(o2, 2) && Small(o7, 7)
    ensures var bs := [g, o2, h, o7, f];
      && Objects(bs) == [o2, o7] && FreeBytes(bs) == 40 && Blocks.FreeSpace(bs) == 37
      && Capacity(bs, 7) == 5 && Alloc(bs, 0, 10).NoRoom?
  {
    hide Alloc, Find, FreeBytes, Objects;
    var bs := [g, o2, h, o7, f];
    GrowContents(g, o2, h, o7, f);
    FirstOfId([o7, f], o7, [f], 7);
    FirstOfId([h, o7, f], h, [o7, f], 7);
    FirstOfId([o2, h, o7, f], o2, [h, o7, f], 7);
    FirstOfId(bs, g, [o2, h, o7, f], 7);
    NoRoomAt(bs, 10);
  }

  lemma GrowContents(g: Block, o2: Block, h: Block, o7: Block, f: Block)
    requires g.Free? && |g.junk| == 9 && h.Free? && |h.junk| == 9 && f.Free? && |f.junk| == 13
    requires o2.Object? && o7.Object?
    ensures Objects([g, o2, h, o7, f]) == [o2, o7] && FreeBytes([g, o2, h, o7, f]) == 40
  {
    hide FreeBytes, Objects;
    NoBlock(7);
    FirstBlock([f], f, []);
    FirstBlock([o7, f], o7, [f]);
    FirstBlock([h, o7, f], h, [o7, f]);
    FirstBlock([o2, h, o7, f], o2, [h, o7, f]);
    FirstBlock([g, o2, h, o7, f], g, [o2, h, o7, f]);
  }

  lemma NoRoomAt(bs: seq<Block>, want: nat)
    requires forall j :: 0 <= j < |bs| ==> !(bs[j].Free? && |bs[j].junk| >= want + 4)
    ensures Alloc(bs, 0, want).NoRoom?
  {
    assert bs[|bs|..] == [];
    AllocSkips(bs, |bs|, 0, want);
  }

  /** Growing again finds room behind the hollow block, which stays and hides the new one. */
  lemma GrowingAgain(o2: Block, g: Block, hollow: Block, tail: seq<byte>)
    requires Small(o2, 2) && g.Free? && |g.junk| == 9 && |tail| == 20 && Orderly([o2, g, hollow, Free(tail)])
    requires hollow.Object? && hollow.id == 7 && hollow.used == 0 && |hollow.data| == 10
    ensures var (bs, answer) := Exec([o2, g, hollow, Free(tail)], Put(7, ELEVEN_BYTES));
      answer == Result(CboxError.Ok) && Get(bs, 7) != Record(7, ELEVEN_BYTES) && Count(bs, 7) > 1
  {
    var bs := [o2, g, hollow, Free(tail)];
    hide Orderly, Get, Store, Encode, Record, Alloc, Count, Find, Carve, Defrag, FreeSpace, Target;
    AgainFacts(o2, g, hollow, tail);
    assert Provision(11) == 15;
    assert PathOf(bs, 7, ELEVEN_BYTES).Moved?;
    assert StaleInFront(bs, 7, ELEVEN_BYTES);
    assert |Encode(bs)| < 0x10000 by { SmallArea(bs); }
    StoreByPath(bs, 7, ELEVEN_BYTES);
    StoreResult(bs, 7, ELEVEN_BYTES);
    StoreCount(bs, 7, ELEVEN_BYTES);
  }

  lemma SmallArea(bs: seq<Block>)
    requires Orderly(bs)
    ensures |Encode(bs)| < 0x10000
  {
  }

  lemma AgainFacts(o2: Block, g: Block, hollow: Block, tail: seq<byte>)
    requires Small(o2, 2) && g.Free? && |g.junk| == 9 && |tail| == 20
    requires hollow.Object? && hollow.id == 7 && hollow.used == 0 && |hollow.data| == 10
    ensures var bs := [o2, g, hollow, Free(tail)];
      && Capacity(bs, 7) == 10 && Count(bs, 7) == 1 && Hollow(bs, 7)
      && var p := Alloc(bs, 0, 15); p.Placed? && Has(p.pre, 7)
  {
    hide Alloc, Find, Count, Carve;
    var f := Free(tail);
    var bs, pre := [o2, g, hollow, f], [o2, g, hollow];
    NoBlock(7);
    FirstOfId([f], f, [], 7);
    FirstOfId([hollow, f], hollow, [f], 7);
    FirstOfId([g, hollow, f], g, [hollow, f], 7);
    FirstOfId(bs, o2, [g, hollow, f], 7);
    HollowLast(o2, g, hollow);
    assert bs[..3] == pre && bs[3..] == [f];
    AllocSkips(bs, 3, 0, 15);
    WholeBlock(tail);
    assert pre + [] == pre;
  }

  lemma HollowLast(o2: Block, g: Block, hollow: Block)
    requires Small(o2, 2) && g.Free? && hollow.Object? && hollow.id == 7
    ensures Has([o2, g, hollow], 7)
  {
    hide Find;
    FirstOfId([hollow], hollow, [], 7);
    FirstOfId([g, hollow], g, [hollow], 7);
    FirstOfId([o2, g, hollow], o2, [g, hollow], 7);
  }

  lemma WholeBlock(tail: seq<byte>)
    requires |tail| == 20
    ensures var p := Alloc([Free(tail)], 0, 15); p.Placed? && p.pre == []
  {
    assert Alloc([Free(tail)], 0, 15) == Carve(tail, 0, 15, [Free(tail)][1..]);
  }

  /** A run from a formatted area that ends with the answer Ok to a store, although what was stored cannot
      be read back and the id has two blocks. */
  lemma StoringUnderHollowId()
    ensures var before := Run(AREA, FILL + THIN_OUT + [GROW_TWICE[0]]);
      && Exec(before, GROW_TWICE[1]).1 == Result(CboxError.Ok)
      && var after := Run(AREA, FILL + THIN_OUT + GROW_TWICE);
         Get(after, 7) != Record(7, ELEVEN_BYTES) && Count(after, 7) > 1
  {
    hide Run, Orderly, Exec, Get, Count;
    var o1, o2, o3, o7, rest := Filling();
    var f := Free(rest);
    ThinningOut(o1, o2, o3, o7, f);
    var thin := [Free(Body(o1)), o2, Free(Body(o3)), o7, f];
    RunConcat(AREA, FILL, THIN_OUT);
    assert Run(AREA, FILL + THIN_OUT) == thin;
    FormattedLaw(AREA, 61);
    AnyRun(AREA, Ledger(map[], {}), FILL + THIN_OUT);
    var hollow, tail := GrowingOnce(Free(Body(o1)), o2, Free(Body(o3)), o7, f);
    RunConcat(AREA, FILL + THIN_OUT, [GROW_TWICE[0]]);
    RunOne(thin, GROW_TWICE[0]);
    AnyRun(AREA, Ledger(map[], {}), FILL + THIN_OUT + [GROW_TWICE[0]]);
    GrowingAgain(o2, Free(Body(o7)), hollow, tail);
    RunConcat(AREA, FILL + THIN_OUT, GROW_TWICE);
    assert GROW_TWICE == [GROW_TWICE[0], GROW_TWICE[1]];
    RunTwo(thin, GROW_TWICE[0], GROW_TWICE[1]);
  }

  // ---------- a power cut that brings old bytes back ----------

  const PLOT: seq<Block> := [Free(Zeros(50))]

  /** An object grows and moves behind another one. Its first block stays in front, disposed of. */
  const MOVE_AWAY: seq<Op> := [Put(7, ONE_BYTE), Put(2, ONE_BYTE), Put(7, SIX_BYTES)]

  lemma TwoSmall() returns (o7: Block, o2: Block, rest: seq<byte>)
    ensures Run(PLOT, MOVE_AWAY[..2]) == [o7, o2, Free(rest)] && |rest| == 26
    ensures Holds(o7, 7, ONE_BYTE) && Small(o2, 2)
  {
    hide Run, Has, Holds;
    var r7;
    assert [] + PLOT == PLOT && Run(PLOT, []) == PLOT by { RunNone(PLOT); }
    NotThere([], 7);
    o7, r7 := Appended(PLOT, [], [], Zeros(50), 7, ONE_BYTE);
    HoldsSmall(o7, 7);
    assert [] + [o7] == [o7] && [] + [MOVE_AWAY[0]] == MOVE_AWAY[..1];
    NotThere([o7], 2);
    o2, rest := Appended(PLOT, MOVE_AWAY[..1], [o7], r7, 2, ONE_BYTE);
    HoldsSmall(o2, 2);
    assert [o7] + [o2] + [Free(rest)] == [o7, o2, Free(rest)] && MOVE_AWAY[..1] + [MOVE_AWAY[1]] == MOVE_AWAY[..2];
  }

  lemma MovingAway(o7: Block, o2: Block, rest: seq<byte>) returns (n7: Block, tail: Block)
    requires Small(o7, 7) && Small(o2, 2) && |rest| == 26
    ensures Exec([o7, o2, Free(rest)], Put(7, SIX_BYTES)).0 == [Free(Body(o7)), o2, n7, tail]
    ensures n7.Object? && n7.id == 7 && Stored(n7) == Record(7, SIX_BYTES) && tail.Free?
  {
    hide Alloc, Find, Has, Dispose, MergePass, Body, Record, Filled, Stored;
    var bs, pre := [o7, o2, Free(rest)], [o7, o2];
    assert Provision(6) == 10 && bs == pre + [Free(rest)];
    RoomBehind(pre, rest, 0, 10);
    FirstOfId(bs, o7, [o2, Free(rest)], 7);
    FirstOfId(pre, o7, [o2], 7);
    assert Capacity(bs, 7) == 5 && Has(pre, 7) by { FirstHas(pre, 7); }
    RecordSize(7, SIX_BYTES);
    var raw := Object(10, 0, rest[4..14]);
    FilledLaw(raw, 7, Record(7, SIX_BYTES));
    n7, tail := Filled(raw, 7, Record(7, SIX_BYTES)), Free(rest[17..]);
    DisposeFirst(o7, o2);
    NothingToMerge([tail]);
    assert [Free(Body(o7)), o2] + [n7] + [tail] == [Free(Body(o7)), o2, n7, tail];
  }

  lemma FirstHas(bs: seq<Block>, id: u16)
    requires bs != [] && bs[0].Object? && bs[0].id == id
    ensures Has(bs, id)
  {
  }

  lemma DisposeFirst(o7: Block, o2: Block)
    requires Small(o7, 7) && Small(o2, 2)
    ensures Dispose([o7, o2], 7) == [Free(Body(o7)), o2]
  {
    hide MergePass, Kill, Body;
    KillStep([o7, o2], 7);
    assert [o7, o2][1..] == [o2] && o7.data[..1] != [];
    assert [Free(Body(o7))] + [o2] == [Free(Body(o7)), o2];
    NothingToMerge([Free(Body(o7)), o2]);
  }

  /** The bytes of an object that has been disposed of are that object again when its type byte is rewritten. */
  lemma SameObjectAgain(o: Block)
    requires o.Object?
    ensures |Body(o)| == 4 + |o.data| && AsObject(Body(o)) == o
  {
    assert |Body(o)| == 4 + |o.data|;
    AsObjectBody(Body(o));
    BodyInjective(AsObject(Body(o)), o);
  }

  lemma HeldBytes(o: Block, id: u16, h: Handler)
    requires Holds(o, id, h)
    ensures Stored(o) == Record(id, h)
  {
    hide Record;
    RecordSize(id, h);
  }

  /** From a formatted area on: an object has grown and moved, and a small object is stored under a new id. A power
      cut right behind the type byte of the new block brings the old bytes of the other object back, with the right
      CRC. All that time the store should not have touched it. */
  lemma PowerCutRevivesOldBytes() returns (cut: seq<Block>)
    ensures var bs := Run(PLOT, MOVE_AWAY);
      && Orderly(bs) && InOneGo(bs, 3, ONE_BYTE)
      && AllocCuts(bs, 0, Provision(1)) != [] && cut == AllocCuts(bs, 0, Provision(1))[0]
      && Get(bs, 7) == Record(7, SIX_BYTES) && Get(cut, 7) == Record(7, ONE_BYTE) != Record(7, SIX_BYTES)
  {
    hide Run, Orderly, Exec, Get, Has, Find, Holds, Body, Stored, Record, AsObject, Alloc, Carve;
    FormattedLaw(PLOT, 50);
    AnyRun(PLOT, Ledger(map[], {}), MOVE_AWAY);
    var o7, o2, rest := TwoSmall();
    HoldsSmall(o7, 7);
    var n7, tail := MovingAway(o7, o2, rest);
    assert MOVE_AWAY == MOVE_AWAY[..2] + [MOVE_AWAY[2]];
    RunConcat(PLOT, MOVE_AWAY[..2], [MOVE_AWAY[2]]);
    RunOne([o7, o2, Free(rest)], MOVE_AWAY[2]);
    var f, post := Free(Body(o7)), [o2, n7, tail];
    var bs := [f] + post;
    assert bs == [f, o2, n7, tail];
    SameObjectAgain(o7);
    assert [] + [f] + post == bs && [] + [o7] + post == [o7] + post;
    CutsHere([], Body(o7), post, 0, 5);
    cut := [o7] + post;
    NewIdThree(f, o2, n7, tail);
    AllocHere(Body(o7), post, 0, 5);
    NotThere([], 7);
    GetFirst([], o7, post, 7);
    SecondBlock(f, o2, n7, tail);
    HeldBytes(o7, 7, ONE_BYTE);
    RecordSize(7, ONE_BYTE);
    RecordSize(7, SIX_BYTES);
  }

  lemma NewIdThree(f: Block, o2: Block, n7: Block, tail: Block)
    requires f.Free? && o2.Object? && o2.id == 2 && n7.Object? && n7.id == 7 && tail.Free?
    ensures Capacity([f, o2, n7, tail], 3) == 0
  {
    hide Has;
    NoneOfId([f, o2, n7, tail], 3);
    CapacityHas([f, o2, n7, tail], 3);
  }

  lemma SecondBlock(f: Block, o2: Block, n7: Block, tail: Block)
    requires f.Free? && o2.Object? && o2.id == 2 && n7.Object? && n7.id == 7 && tail.Free?
    ensures Get([f, o2, n7, tail], 7) == Stored(n7)
  {
    hide Get, Has, Stored;
    NoneOfId([f, o2], 7);
    GetFirst([f, o2], n7, [tail], 7);
    assert [f, o2] + [n7] + [tail] == [f, o2, n7, tail];
  }

  // ---------- a power cut after which defragmentation breaks the area ----------

  const WIDE := Handler(Zeros(30), Ok, Ok)
  const TWENTY := Handler(Zeros(20), Ok, Ok)
  const FIFTEEN := Handler(Zeros(15), Ok, Ok)

  /** Six objects; three of the first four and the fifth are deleted, the last so that two disposed blocks stay
      side by side. */
  const CROWD: seq<Op> := FILL + [Put(9, WIDE)] + [Put(8, TWENTY)]
  const GAPS: seq<Op> := [Delete(1), Delete(3), Delete(9), Delete(2)]

  lemma Crowded(area: seq<Block>, junk: seq<byte>)
    returns (o1: Block, o2: Block, o3: Block, o7: Block, o9: Block, o8: Block, rest: seq<byte>)
    requires area == [Free(junk)] && |junk| == 132
    ensures Run(area, CROWD) == [o1, o2, o3, o7, o9, o8, Free(rest)] && |rest| == 10
    ensures Small(o1, 1) && Small(o2, 2) && Small(o3, 3) && Small(o7, 7) && Holds(o9, 9, WIDE) && Holds(o8, 8, TWENTY)
  {
    hide Run, Has, Holds;
    var r7, r9;
    o1, o2, o3, o7, r7 := FourSmall(area, junk);
    var four := [o1, o2, o3, o7];
    assert four + [Free(r7)] == [o1, o2, o3, o7, Free(r7)];
    NotThere(four, 9);
    o9, r9 := Appended(area, FILL, four, r7, 9, WIDE);
    HoldsBlock(o9, 9, WIDE);
    var five := four + [o9];
    NotThere(five, 8);
    o8, rest := Appended(area, FILL + [Put(9, WIDE)], five, r9, 8, TWENTY);
    assert five + [o8] + [Free(rest)] == [o1, o2, o3, o7, o9, o8, Free(rest)];
  }

  lemma HoldsBlock(o: Block, id: u16, h: Handler)
    requires Holds(o, id, h)
    ensures o.Object? && o.id == id && o.used > 0 && |o.data| == Provision(|h.payload| + 1)
    ensures Stored(o) != []
  {
  }

  /** Disposing of a block behind blocks of other ids, before merging. */
  lemma Killed(pre: seq<Block>, o: Block, post: seq<Block>, id: u16)
    requires !Has(pre, id) && o.Object? && o.id == id && Stored(o) != []
    ensures Kill(pre + [o] + post, id) == pre + [Free(Body(o))] + post
  {
    hide Kill, Has, Body, Stored;
    assert pre + [o] + post == pre + ([o] + post);
    KillConcat(pre, [o] + post, id);
    KillStep([o] + post, id);
    assert ([o] + post)[1..] == post;
    assert pre + ([Free(Body(o))] + post) == pre + [Free(Body(o))] + post;
  }

  lemma NoneOfId(pre: seq<Block>, id: u16)
    requires forall j :: 0 <= j < |pre| ==> pre[j].Object? ==> pre[j].id != id
    ensures !Has(pre, id)
  {
    if pre != [] {
      NoneOfId(pre[1..], id);
    }
  }

  lemma Deleted(bs: seq<Block>, k: nat, id: u16, after: seq<Block>)
    requires k < |bs| && bs[k].Object? && bs[k].id == id && Stored(bs[k]) != []
    requires forall j :: 0 <= j < k ==> bs[j].Object? ==> bs[j].id != id
    requires after == MergePass(bs[..k] + [Free(Body(bs[k]))] + bs[k + 1..])
    ensures Run(bs, [Delete(id)]) == after
  {
    hide Kill, Has, Body, Stored, MergePass, Run;
    NoneOfId(bs[..k], id);
    assert bs == bs[..k] + [bs[k]] + bs[k + 1..];
    Killed(bs[..k], bs[k], bs[k + 1..], id);
    RunOne(bs, Delete(id));
  }

  lemma Gaps(o1: Block, o2: Block, o3: Block, o7: Block, o9: Block, o8: Block, f: Block)
    requires Small(o1, 1) && Small(o2, 2) && Small(o3, 3) && Small(o7, 7) && f.Free?
    requires o9.Object? && o9.id == 9 && Stored(o9) != [] && o8.Object? && o8.id == 8
    ensures Run([o1, o2, o3, o7, o9, o8, f], GAPS)
      == [Merged(Free(Body(o1)), Free(Body(o2))), Free(Body(o3)), o7, Free(Body(o9)), o8, f]
  {
    SmallStores(o1, 1);
    SmallStores(o2, 2);
    SmallStores(o3, 3);
    hide Body, Stored, MergePass, Run, Merged;
    var g1, g2, g3, g9 := Free(Body(o1)), Free(Body(o2)), Free(Body(o3)), Free(Body(o9));
    FirstGap(o1, o2, o3, o7, o9, o8, f);
    SecondGap(g1, o2, o3, o7, o9, o8, f);
    ThirdGap(g1, o2, g3, o7, o9, o8, f);
    FourthGap(g1, o2, g3, o7, g9, o8, f);
    FourSteps([o1, o2, o3, o7, o9, o8, f], [g1, o2, o3, o7, o9, o8, f], [g1, o2, g3, o7, o9, o8, f],
      [g1, o2, g3, o7, g9, o8, f], [Merged(g1, g2), g3, o7, g9, o8, f]);
  }

  lemma FirstGap(o1: Block, o2: Block, o3: Block, o7: Block, o9: Block, o8: Block, f: Block)
    requires o1.Object? && o1.id == 1 && Stored(o1) != []
    requires o2.Object? && o3.Object? && o7.Object? && o9.Object? && o8.Object? && f.Free?
    ensures Run([o1, o2, o3, o7, o9, o8, f], [Delete(1)]) == [Free(Body(o1)), o2, o3, o7, o9, o8, f]
  {
    hide Body, Stored, MergePass, Run;
    var b0, g1 := [o1, o2, o3, o7, o9, o8, f], Free(Body(o1));
    NothingToMerge([g1, o2, o3, o7, o9, o8, f]);
    assert b0[..0] + [g1] + b0[1..] == [g1, o2, o3, o7, o9, o8, f];
    Deleted(b0, 0, 1, [g1, o2, o3, o7, o9, o8, f]);
  }

  lemma SecondGap(g1: Block, o2: Block, o3: Block, o7: Block, o9: Block, o8: Block, f: Block)
    requires o3.Object? && o3.id == 3 && Stored(o3) != []
    requires g1.Free? && o2.Object? && o2.id == 2 && o7.Object? && o9.Object? && o8.Object? && f.Free?
    ensures Run([g1, o2, o3, o7, o9, o8, f], [Delete(3)]) == [g1, o2, Free(Body(o3)), o7, o9, o8, f]
  {
    hide Body, Stored, MergePass, Run;
    var b1, g3 := [g1, o2, o3, o7, o9, o8, f], Free(Body(o3));
    NothingToMerge([g1, o2, g3, o7, o9, o8, f]);
    assert b1[..2] + [g3] + b1[3..] == [g1, o2, g3, o7, o9, o8, f];
    Deleted(b1, 2, 3, [g1, o2, g3, o7, o9, o8, f]);
  }

  lemma ThirdGap(g1: Block, o2: Block, g3: Block, o7: Block, o9: Block, o8: Block, f: Block)
    requires o9.Object? && o9.id == 9 && Stored(o9) != []
    requires g1.Free? && o2.Object? && o2.id == 2 && g3.Free? && o7.Object? && o7.id == 7 && o8.Object? && f.Free?
    ensures Run([g1, o2, g3, o7, o9, o8, f], [Delete(9)]) == [g1, o2, g3, o7, Free(Body(o9)), o8, f]
  {
    hide Body, Stored, MergePass, Run;
    var b2, g9 := [g1, o2, g3, o7, o9, o8, f], Free(Body(o9));
    NothingToMerge([g1, o2, g3, o7, g9, o8, f]);
    assert b2[..4] + [g9] + b2[5..] == [g1, o2, g3, o7, g9, o8, f];
    Deleted(b2, 4, 9, [g1, o2, g3, o7, g9, o8, f]);
  }

  lemma FourthGap(g1: Block, o2: Block, g3: Block, o7: Block, g9: Block, o8: Block, f: Block)
    requires o2.Object? && o2.id == 2 && Stored(o2) != []
    requires g1.Free? && g3.Free? && o7.Object? && g9.Free? && o8.Object? && f.Free?
    ensures Run([g1, o2, g3, o7, g9, o8, f], [Delete(2)]) == [Merged(g1, Free(Body(o2))), g3, o7, g9, o8, f]
  {
    hide Body, Stored, MergePass, Run, Merged;
    var b3, g2, rest := [g1, o2, g3, o7, g9, o8, f], Free(Body(o2)), [g3, o7, g9, o8, f];
    MergedPair(g1, g2, rest);
    assert b3[..1] + [g2] + b3[2..] == [g1, g2] + rest;
    assert [Merged(g1, g2)] + rest == [Merged(g1, g2), g3, o7, g9, o8, f];
    Deleted(b3, 1, 2, [Merged(g1, g2)] + rest);
  }

  lemma MergedPair(a: Block, b: Block, rest: seq<Block>)
    requires a.Free? && b.Free? && forall j :: 0 <= j < |rest| - 1 ==> !(rest[j].Free? && rest[j + 1].Free?)
    ensures MergePass([a, b] + rest) == [Merged(a, b)] + rest
  {
    hide Merged;
    NothingToMerge(rest);
    assert ([a, b] + rest)[2..] == rest;
  }

  lemma SmallStores(o: Block, id: u16)
    requires Small(o, id)
    ensures Stored(o) != [] && |Body(o)| == 9
  {
  }

  lemma FourSteps(b0: seq<Block>, b1: seq<Block>, b2: seq<Block>, b3: seq<Block>, m: seq<Block>)
    requires Run(b0, [GAPS[0]]) == b1 && Run(b1, [GAPS[1]]) == b2 && Run(b2, [GAPS[2]]) == b3
    requires Run(b3, [GAPS[3]]) == m
    ensures Run(b0, GAPS) == m
  {
    hide Run;
    assert GAPS == [GAPS[0]] + ([GAPS[1]] + ([GAPS[2]] + [GAPS[3]]));
    RunConcat(b2, [GAPS[2]], [GAPS[3]]);
    RunConcat(b1, [GAPS[1]], [GAPS[2]] + [GAPS[3]]);
    RunConcat(b0, [GAPS[0]], [GAPS[1]] + ([GAPS[2]] + [GAPS[3]]));
  }

  /** The chain after the type byte of the old block has been written, when the object of id 7 is relocated
      behind two disposed blocks that touch. */
  lemma CutAt(a: Block, g: Block, o7: Block, g9: Block, o8: Block, f: Block) returns (z: Block, t: Block)
    requires a.Free? && |a.junk| == 21 && g.Free? && |g.junk| == 9 && Small(o7, 7) && g9.Free? && |g9.junk| == 39
    requires o8.Object? && f.Free?
    ensures Midway([a, g, o7, g9, o8, f], 7, FIFTEEN) == [a, g, Free(Body(o7)), z, t, o8, f]
    ensures z.Object? && z.id == 0 && Stored(z) != [] && |z.data| == 20 && t.Free? && |t.junk| == 12
  {
    var bs := [a, g, o7, g9, o8, f];
    z, t := Object(20, 0, g9.junk[4..24]), Free(g9.junk[27..]);
    SmallStores(o7, 7);
    hide Kill, Body, Has, Carve;
    assert Provision(16) == 20;
    assert bs[..3] == [a, g, o7] && bs[3..] == [g9] + [o8, f];
    AllocSkips(bs, 3, 0, 20);
    CarvedFirst(g9.junk, [o8, f]);
    assert [a, g, o7] + [] == [a, g, o7];
    assert Alloc(bs, 0, 20) == Placed([a, g, o7], z, [t] + [o8, f]);
    NoneOfId([a, g], 7);
    Killed([a, g], o7, [z, t, o8, f], 7);
    assert [a, g, o7] + [z] + ([t] + [o8, f]) == [a, g] + [o7] + [z, t, o8, f];
    assert [a, g] + [Free(Body(o7))] + [z, t, o8, f] == [a, g, Free(Body(o7)), z, t, o8, f];
  }

  lemma CarvedFirst(junk: seq<byte>, rest: seq<Block>)
    requires |junk| == 39
    ensures Alloc([Free(junk)] + rest, 0, 20)
      == Placed([], Object(20, 0, junk[4..24]), [Free(junk[27..])] + rest)
  {
    assert ([Free(junk)] + rest)[1..] == rest;
    assert Alloc([Free(junk)] + rest, 0, 20) == Carve(junk, 0, 20, rest);
  }

  /** Five disposed blocks in a row in front of an object: after two merge passes there are still two. */
  lemma FiveInARow(a: Block, b: Block, c: Block, d: Block, t: Block, o: Block, f: Block)
    requires a.Free? && b.Free? && c.Free? && d.Free? && t.Free? && o.Object? && f.Free?
    ensures MergePass(MergePass([a, b, c, d, t, o, f])) == [Merged(Merged(a, b), Merged(c, d))] + [t] + [o] + [f]
  {
    hide Merged;
    var x, y := Merged(a, b), Merged(c, d);
    MergedPair(c, d, [t, o, f]);
    PassPair(a, b, [c, d] + [t, o, f]);
    assert [a, b] + ([c, d] + [t, o, f]) == [a, b, c, d, t, o, f];
    MergedPair(x, y, [t, o, f]);
    assert [x] + ([y] + [t, o, f]) == [x, y] + [t, o, f];
    assert [Merged(x, y)] + [t, o, f] == [Merged(x, y)] + [t] + [o] + [f];
  }

  lemma PassPair(a: Block, b: Block, rest: seq<Block>)
    requires a.Free? && b.Free?
    ensures MergePass([a, b] + rest) == [Merged(a, b)] + MergePass(rest)
  {
    hide Merged;
    assert ([a, b] + rest)[2..] == rest;
  }

  lemma FiveAreTooMany(a: Block, b: Block, c: Block, d: Block, t: Block, o: Block, f: Block)
    requires a.Free? && b.Free? && c.Free? && d.Free? && t.Free? && o.Object? && f.Free?
    ensures !TameFrom([a, b, c, d, t, o, f], 4, 4)
  {
    hide Objects;
    var bs := [a, b, c, d, t, o, f];
    FirstRun([o, f], o, [f]);
    FirstRun([t, o, f], t, [o, f]);
    FirstRun([d, t, o, f], d, [t, o, f]);
    FirstRun([c, d, t, o, f], c, [d, t, o, f]);
    FirstRun([b, c, d, t, o, f], b, [c, d, t, o, f]);
    FirstRun(bs, a, [b, c, d, t, o, f]);
  }

  lemma FirstRun(bs: seq<Block>, b: Block, rest: seq<Block>)
    requires bs == [b] + rest
    ensures LeadRun(bs) == if b.Free? then 1 + LeadRun(rest) else 0
    ensures b.Object? || Objects(rest) != [] ==> Objects(bs) != []
  {
    assert bs[1..] == rest;
  }

  /** Disposed blocks of 21 and 9 bytes side by side, the small object, a larger disposed block and an object. */
  predicate Scene(a: Block, g: Block, o7: Block, g9: Block, o8: Block, last: Block) {
    && a.Free? && |a.junk| == 21 && g.Free? && |g.junk| == 9 && Small(o7, 7) && g9.Free? && |g9.junk| == 39
    && Holds(o8, 8, TWENTY) && last.Free? && |last.junk| == 10
  }

  lemma SceneRun() returns (a: Block, g: Block, o7: Block, g9: Block, o8: Block, last: Block)
    ensures Run([Free(Zeros(132))], CROWD + GAPS) == [a, g, o7, g9, o8, last]
    ensures Scene(a, g, o7, g9, o8, last)
  {
    hide Run, Merged, Body, Holds, Stored;
    var area := [Free(Zeros(132))];
    RunConcat(area, CROWD, GAPS);
    var o1, o2, o3, o9, rest;
    o1, o2, o3, o7, o9, o8, rest := Crowded(area, Zeros(132));
    HoldsBlock(o9, 9, WIDE);
    HoldsBlock(o8, 8, TWENTY);
    Gaps(o1, o2, o3, o7, o9, o8, Free(rest));
    GapSizes(o1, o2, o3, o9);
    a, g, g9, last := Merged(Free(Body(o1)), Free(Body(o2))), Free(Body(o3)), Free(Body(o9)), Free(rest);
  }

  /** The chain of the scene after the cut, and without the half-made block. */
  lemma SceneCut(a: Block, g: Block, o7: Block, g9: Block, o8: Block, last: Block) returns (gz: Block, t: Block)
    requires Scene(a, g, o7, g9, o8, last)
    ensures Kill(Midway([a, g, o7, g9, o8, last], 7, FIFTEEN), 0) == [a, g, Free(Body(o7)), gz, t, o8, last]
    ensures gz.Free? && |gz.junk| == 24 && t.Free? && |t.junk| == 12
  {
    hide Midway, Kill, Holds, Stored, Body;
    HoldsBlock(o8, 8, TWENTY);
    var z;
    z, t := CutAt(a, g, o7, g9, o8, last);
    BodySize(z);
    gz := Free(Body(z));
    var pre, post := [a, g, Free(Body(o7))], [t, o8, last];
    NoneOfId(pre, 0);
    Killed(pre, z, post, 0);
    assert pre + [z] + post == [a, g, Free(Body(o7)), z, t, o8, last];
    assert pre + [gz] + post == [a, g, Free(Body(o7)), gz, t, o8, last];
  }

  lemma BodySize(o: Block)
    requires o.Object?
    ensures |Body(o)| == 4 + |o.data|
  {
  }

  /** From a formatted area on: an orderly chain, and a power cut in a store after which defragmentation finds
      two disposed blocks in front of an object. The move then leaves bytes that are no chain of blocks. */
  lemma PowerCutBlocksDefrag()
    returns (bs: seq<Block>, f: Block, t: Block, o: Block, last: Block)
    ensures bs == Run([Free(Zeros(132))], CROWD + GAPS) && Orderly(bs)
    ensures var c := Midway(bs, 7, FIFTEEN);
      && !Defragmentable(c) && !CanMove(MergePass(MergePass(Kill(c, 0))))
      && MergePass(MergePass(Kill(c, 0))) == [f] + [t] + [o] + [last]
    ensures f.Free? && t.Free? && o.Object? && Behind([f] + [t] + [o] + [last]) > 0
    ensures forall chain :: Encode(chain) != MisplacedMove(f, [t], o) + Encode([last])
  {
    var area := [Free(Zeros(132))];
    hide Run, Orderly, Trusts, Midway, MergePass, Kill, TameFrom, MisplacedMove, Encode, Body, Merged, Holds, Stored,
      CanMove, Follow, Behind;
    FormattedLaw(area, 132);
    AnyRun(area, Ledger(map[], {}), CROWD + GAPS);
    var a, g, o7, g9, o8;
    a, g, o7, g9, o8, last := SceneRun();
    bs := [a, g, o7, g9, o8, last];
    SmallStores(o7, 7);
    HoldsBlock(o8, 8, TWENTY);
    var g7 := Free(Body(o7));
    var gz;
    gz, t := SceneCut(a, g, o7, g9, o8, last);
    FiveInARow(a, g, g7, gz, t, o8, last);
    FiveAreTooMany(a, g, g7, gz, t, o8, last);
    f, o := Merged(Merged(a, g), Merged(g7, gz)), o8;
    NotMovable(f, t, o, last);
    Broken(a, g, g7, gz, t, o8, last);
  }

  lemma Broken(a: Block, g: Block, g7: Block, gz: Block, t: Block, o: Block, last: Block)
    requires a.Free? && |a.junk| == 21 && g.Free? && |g.junk| == 9 && g7.Free? && |g7.junk| == 9
    requires gz.Free? && |gz.junk| == 24 && t.Free? && |t.junk| == 12 && last.Free? && |last.junk| == 10
    requires Holds(o, 8, TWENTY)
    ensures forall chain ::
      Encode(chain) != MisplacedMove(Merged(Merged(a, g), Merged(g7, gz)), [t], o) + Encode([last])
  {
    hide Encode, MisplacedMove, Body, Merged, Holds;
    HoldsBlock(o, 8, TWENTY);
    ZerosAtTheEnd(o, t);
    var f := Merged(Merged(a, g), Merged(g7, gz));
    SmallImage(a, g, g7, gz, f, t, o, last);
    forall chain ensures Encode(chain) != MisplacedMove(f, [t], o) + Encode([last]) {
      MisplacedMoveBreaks(chain, f, [t], o, Encode([last]));
    }
  }

  lemma NotMovable(f: Block, t: Block, o: Block, last: Block)
    requires f.Free? && t.Free?
    ensures !CanMove([f] + [t] + [o] + [last])
    ensures o.Object? ==> Behind([f] + [t] + [o] + [last]) > 0
  {
    assert ([f] + [t] + [o] + [last])[1..] == [t, o, last] && [t, o, last][1..] == [o, last];
    assert Objects([t, o, last]) == Objects([o, last]);
  }

  lemma GapSizes(o1: Block, o2: Block, o3: Block, o9: Block)
    requires Small(o1, 1) && Small(o2, 2) && Small(o3, 3) && Holds(o9, 9, WIDE)
    ensures |Merged(Free(Body(o1)), Free(Body(o2))).junk| == 21 && |Body(o3)| == 9 && |Body(o9)| == 39
  {
    assert Provision(31) == 35;
  }

  /** The object ends in stale or reserved zeros and streamed zeros. */
  lemma ZerosAtTheEnd(o8: Block, t: Block)
    requires Holds(o8, 8, TWENTY) && t.Free? && |t.junk| == 12
    ensures |Encode([t])| == 15 && |Body(o8)| == 29 && Body(o8)[14] == 0
  {
    assert Provision(21) == 25;
    assert Encode([t]) == EncodeBlock(t) + Encode([]);
    var r := Record(8, TWENTY);
    assert r[10] == Zeros(20)[10];
    assert o8.data[10] == r[10];
    assert Body(o8)[14] == o8.data[10];
  }

  lemma SmallImage(a: Block, g: Block, g7: Block, gz: Block, f: Block, t: Block, o: Block, last: Block)
    requires a.Free? && |a.junk| == 21 && g.Free? && |g.junk| == 9 && g7.Free? && |g7.junk| == 9
    requires gz.Free? && |gz.junk| == 24 && t.Free? && |t.junk| == 12 && last.Free? && |last.junk| == 10
    requires o.Object? && |Body(o)| == 29 && f == Merged(Merged(a, g), Merged(g7, gz))
    ensures |MisplacedMove(f, [t], o) + Encode([last])| < 0x10000
  {
    assert Encode([t]) == EncodeBlock(t) + Encode([]) && Encode([last]) == EncodeBlock(last) + Encode([]);
    assert |f.junk| < 100;
  }
}
