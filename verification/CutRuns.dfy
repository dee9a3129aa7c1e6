/**
 Whole runs after a power cut. What a cut leaves may hold a half-made block of id zero, stale objects and more
 disposed blocks that touch than a store ever leaves. It is calm, and every operation keeps it calm: so the next
 defragmentation is right, however many operations later it comes.
 */
module CutRuns {
  import opened Bytes
  import opened Blocks
  import opened StoreSpec
  import opened DisposedRuns
  import opened PowerCuts
  import opened StoreLaws
  import opened StoreRuns

  /** A chain that the store can go on with. */
  predicate Going(c: seq<Block>) {
    c != [] && |Encode(c)| < 0x10000 && Calm(c, 3)
  }

  /** The places where disposed blocks touch, once defragmentation has disposed of a half-made block. */
  function Breaks(c: seq<Block>): nat {
    Adjacent(Kill(c, 0))
  }

  // ---------- merging around a half-made block ----------

  lemma {:induction false} AdjacentSplit(x: seq<Block>, f: Block, y: seq<Block>)
    ensures Adjacent(x + [f] + y) == Adjacent(x + [f]) + Adjacent([f] + y)
  {
    if x == [] {
      assert [] + [f] + y == [f] + y && [] + [f] == [f];
    } else {
      AdjacentSplit(x[1..], f, y);
      var a, b := x + [f] + y, x + [f];
      assert a[1..] == x[1..] + [f] + y && b[1..] == x[1..] + [f] && a[0] == b[0] && a[1] == b[1];
      hide Adjacent;
      AdjacentStep(a);
      AdjacentStep(b);
    }
  }

  /** Merging what lies in front of a block that counts as disposed. */
  lemma {:induction false} MergeInFront(p: seq<Block>, f: Block)
    requires f.Free?
    ensures 2 * Adjacent(MergePass(p) + [f]) <= Adjacent(p + [f]) + 1
  {
    hide Adjacent, Merged, MergePass;
    if |p| < 2 {
      MergeFew(p);
      AdjacentFew(p + [f]);
    } else if p[0].Free? && p[1].Free? {
      MergeInFront(p[2..], f);
      MergePair(p);
      MergeHead(p[2..]);
      PrependedStep(Merged(p[0], p[1]), MergePass(p[2..]), f);
      PrependedStep(p[1], p[2..], f);
      PrependedStep(p[0], p[1..], f);
      assert p[1..] == [p[1]] + p[2..] && p == [p[0]] + p[1..];
    } else {
      MergeInFront(p[1..], f);
      MergeSingle(p);
      MergeHead(p[1..]);
      PrependedStep(p[0], MergePass(p[1..]), f);
      PrependedStep(p[0], p[1..], f);
      assert p == [p[0]] + p[1..];
    }
  }

  lemma MergeFew(p: seq<Block>)
    requires |p| < 2
    ensures MergePass(p) == p
  {
  }

  lemma PrependedStep(b: Block, rest: seq<Block>, f: Block)
    requires f.Free?
    ensures Adjacent([b] + rest + [f])
      == (if b.Free? && (rest == [] || rest[0].Free?) then 1 else 0) + Adjacent(rest + [f])
  {
    hide Adjacent;
    var d := rest + [f];
    var c := [b] + d;
    assert [b] + rest + [f] == c;
    assert c[1..] == d && c[1] == d[0];
    AdjacentStep(c);
  }

  lemma MergeBehind(f: Block, q: seq<Block>)
    requires f.Free?
    ensures 2 * Adjacent([f] + MergePass(q)) <= Adjacent([f] + q) + 1
  {
    hide MergePass;
    MergeHead(q);
    MergeHalvesAdjacent(q);
    assert ([f] + q)[1..] == q && ([f] + MergePass(q))[1..] == MergePass(q);
  }

  /** The number of such places is halved, up to one at either side of the half-made block. */
  lemma BreaksHalve(c: seq<Block>)
    ensures Breaks(MergePass(c)) <= (Breaks(c) + 2) / 2
  {
    hide Adjacent, MergePass, Kill, Get, Body, Stored, Has;
    CountMerge(c, 0);
    MergeHalvesAdjacent(c);
    KillOnlyOne(c, 0);
    KillOnlyOne(MergePass(c), 0);
    if Get(c, 0) != [] {
      var p, z, q := FirstOf(c, 0);
      var f := Free(Body(z));
      MergeSeparates(p, z, q);
      MergeKeepsObjects(p);
      SameObjectsSameHas(MergePass(p), p, 0);
      KilledFirstOf(p, z, q, 0);
      KilledFirstOf(MergePass(p), z, MergePass(q), 0);
      MergeInFront(p, f);
      MergeBehind(f, q);
      AdjacentSplit(p, f, q);
      AdjacentSplit(MergePass(p), f, MergePass(q));
    }
  }

  lemma FirstOf(c: seq<Block>, id: u16) returns (p: seq<Block>, z: Block, q: seq<Block>)
    requires Get(c, id) != []
    ensures c == p + [z] + q && z.Object? && z.id == id && Stored(z) != [] && !Has(p, id)
  {
    var k := Find(c, id);
    p, z, q := c[..k], c[k], c[k + 1..];
    hide Get, Stored, Has;
    GetFirst(p, z, q, id);
    NotBefore(c, id);
    assert Get(c, id) == Stored(c[k]) by { GetFound(c, id); }
  }

  lemma GetFound(c: seq<Block>, id: u16)
    requires Find(c, id) < |c|
    ensures Get(c, id) == Stored(c[Find(c, id)])
  {
  }

  lemma {:induction false} NotBefore(c: seq<Block>, id: u16)
    ensures !Has(c[..Find(c, id)], id)
  {
    if c != [] && !(c[0].Object? && c[0].id == id) {
      NotBefore(c[1..], id);
      var k := Find(c, id);
      assert c[..k][1..] == c[1..][..k - 1];
    }
  }

  lemma KilledFirstOf(p: seq<Block>, z: Block, q: seq<Block>, id: u16)
    requires z.Object? && z.id == id && Stored(z) != [] && !Has(p, id)
    ensures Kill(p + [z] + q, id) == p + [Free(Body(z))] + q
  {
    hide Kill, Has, Body, Stored;
    assert p + [z] + q == p + ([z] + q) && ([z] + q)[1..] == q;
    KillConcat(p, [z] + q, id);
    KillStep([z] + q, id);
    assert p + ([Free(Body(z))] + q) == p + [Free(Body(z))] + q;
  }

  // ---------- disposing ----------

  lemma {:induction false} KillsCommute(c: seq<Block>, a: u16, b: u16)
    requires a != b
    ensures Kill(Kill(c, a), b) == Kill(Kill(c, b), a)
  {
    hide Kill, Body, Stored;
    if c == [] {
      NothingThere(a, 0);
      NothingThere(b, 0);
    } else {
      KillsCommute(c[1..], a, b);
      KillStep(c, a);
      KillStep(c, b);
      var x, y := Kill(c, a), Kill(c, b);
      KillKeepsCount(c, a);
      KillKeepsCount(c, b);
      KillStep(x, b);
      KillStep(y, a);
      assert c[0].Object? && c[0].id == a && Stored(c[0]) == [] ==> x == c && y[0] == c[0];
      assert c[0].Object? && c[0].id == b && Stored(c[0]) == [] ==> y == c && x[0] == c[0];
    }
  }

  lemma BreaksKill(c: seq<Block>, id: u16)
    ensures Breaks(Kill(c, id)) <= Breaks(c) + 2
  {
    hide Kill, Adjacent;
    if id != 0 {
      KillsCommute(c, id, 0);
    }
    KillAdjacent(Kill(c, 0), id);
  }

  lemma DisposeGoes(c: seq<Block>, id: u16)
    requires Calm(c, 3)
    ensures Calm(Dispose(c, id), 3)
  {
    hide Kill, Adjacent, MergePass, NoEmptyFree;
    BreaksKill(c, id);
    BreaksHalve(Kill(c, id));
    KillNoEmptyFree(c, id);
    MergeNoEmptyFree(Kill(c, id));
  }

  // ---------- storing ----------

  /** An object separates, whatever is disposed of on either side. */
  lemma BreaksAround(pre: seq<Block>, o: Block, post: seq<Block>)
    requires o.Object? && o.id != 0
    ensures Breaks(pre + [o] + post)
      == if Has(pre, 0) then Adjacent(Kill(pre, 0)) + Adjacent(post) else Adjacent(pre) + Adjacent(Kill(post, 0))
  {
    hide Kill, Adjacent, Has;
    KillSeparates(pre, o, post, 0);
    AdjacentAround(Kill(pre, 0), o, post);
    AdjacentAround(pre, o, Kill(post, 0));
  }

  /** One object can stand for another. */
  lemma CalmExchange(pre: seq<Block>, a: Block, b: Block, post: seq<Block>)
    requires a.Object? && b.Object? && a.id != 0 && b.id != 0 && Calm(pre + [a] + post, 3)
    ensures Calm(pre + [b] + post, 3)
  {
    hide Kill, Adjacent, Has, NoEmptyFree;
    BreaksAround(pre, a, post);
    BreaksAround(pre, b, post);
    NoEmptyFreeParts(pre, [a], post);
    NoEmptyFreeParts(pre, [b], post);
    ObjectIsNotEmpty(b);
  }

  /** An object in the place of a disposed block. */
  lemma CalmPut(pre: seq<Block>, f: Block, x: Block, post: seq<Block>)
    requires f.Free? && x.Object? && x.id != 0 && Calm(pre + [f] + post, 3)
    ensures Calm(pre + [x] + post, 3)
  {
    hide Kill, Adjacent, Has, NoEmptyFree;
    KillSeparates(pre, f, post, 0);
    BreaksAround(pre, x, post);
    AdjacentPut(Kill(pre, 0), f, post);
    AdjacentPut(pre, f, Kill(post, 0));
    NoEmptyFreeParts(pre, [f], post);
    NoEmptyFreeParts(pre, [x], post);
    ObjectIsNotEmpty(x);
  }

  /** An object and a disposed rest in the place of a disposed block. */
  lemma CalmSplit(pre: seq<Block>, f: Block, x: Block, t: Block, post: seq<Block>)
    requires f.Free? && x.Object? && x.id != 0 && t.Free? && t.junk != [] && Calm(pre + [f] + post, 3)
    ensures Calm(pre + [x] + ([t] + post), 3)
  {
    hide Kill, Adjacent, Has, NoEmptyFree;
    KillSeparates(pre, f, post, 0);
    BreaksAround(pre, x, [t] + post);
    FreeFirst(t, post);
    TailIsSound(f, t, post);
    TailIsSound(f, t, Kill(post, 0));
    AdjacentPut(Kill(pre, 0), f, post);
    AdjacentPut(pre, f, Kill(post, 0));
    NoEmptyFreeParts(pre, [f], post);
    NoEmptyFreeParts(pre, [x], [t] + post);
    ObjectIsNotEmpty(x);
  }

  lemma FreeFirst(t: Block, post: seq<Block>)
    requires t.Free?
    ensures Kill([t] + post, 0) == [t] + Kill(post, 0)
  {
    hide Kill;
    assert ([t] + post)[1..] == post;
    KillStep([t] + post, 0);
  }

  /** An allocated block with an id. */
  lemma AllocGoes(c: seq<Block>, id: u16, want: nat, x: Block)
    requires Going(c) && Alloc(c, id, want).Placed? && x.Object? && x.id != 0
    ensures var p := Alloc(c, id, want); Calm(p.pre + [x] + p.post, 3)
  {
    hide Kill, Adjacent, Has, NoEmptyFree, Alloc, Encode, Calm;
    var p := Alloc(c, id, want);
    var f, rest := AllocShape(c, id, want);
    if p.post == rest {
      CalmPut(p.pre, f, x, rest);
    } else {
      CalmSplit(p.pre, f, x, p.post[0], rest);
    }
  }

  /** After disposing of the old block of the id. */
  lemma DisposedGoes(p: Place, id: u16, x: Block)
    requires p.Placed? && p.obj.Object? && x.Object? && x.id != 0 && id != 0
    requires forall o: Block :: o.Object? && o.id != 0 ==> Calm(p.pre + [o] + p.post, 3)
    ensures var q := Disposed(p, id); Calm(q.pre + [x] + q.post, 3)
  {
    hide Has, Calm, Dispose, MergePass;
    var other := Object(0, if id == 1 then 2 else 1, []);
    DisposeAround(p.pre, other, p.post, id);
    DisposeGoes(p.pre + [other] + p.post, id);
    var q := Disposed(p, id);
    CalmExchange(q.pre, other, x, q.post);
  }

  lemma {:induction false} CompactNoEmptyFree(bs: seq<Block>)
    requires NoEmptyFree(bs)
    ensures NoEmptyFree(Compact(bs))
    decreases Behind(bs)
  {
    hide MergePass, Move, CanMove, NoEmptyFree, Behind;
    var m := MergePass(bs);
    MergeKeepsObjects(bs);
    MergeNoEmptyFree(bs);
    CompactStep(bs);
    if CanMove(m) {
      MoveProgress(m);
      MoveNoEmptyFree(m);
      CompactNoEmptyFree(Move(m));
    }
  }

  lemma DefragGoes(c: seq<Block>)
    requires Going(c)
    ensures Going(Defrag(c)) && |Encode(Defrag(c))| == |Encode(c)|
  {
    hide Kill, Adjacent, NoEmptyFree, Compact, MergePass, Compacted, MaxRun, Encode;
    AdjacentRuns(Kill(c, 0));
    DefragResult(c);
    CompactedAdjacent(Defrag(c));
    KillAdjacent(Defrag(c), 0);
    KillNoEmptyFree(c, 0);
    MergeNoEmptyFree(Kill(c, 0));
    CompactNoEmptyFree(Dispose(c, 0));
    DefragKeepsSize(c);
    SomeBytes(c);
    SomeBytes(Defrag(c));
  }

  /** The block of the id and what is around it after a store. */
  lemma TargetGoes(c: seq<Block>, id: u16, h: Handler)
    requires Going(c) && Writes(PathOf(c, id, h)) && Target(c, id, h).Placed?
    ensures Calm(Target(c, id, h).Chain(), 3)
  {
    hide Going, Calm, Encode, Defrag, Alloc, FreeSpace, Filled, Record, Dispose, MergePass, Has, Defragmentable;
    var want, record := Provision(|h.payload| + 1), Record(id, h);
    GoingIsCalm(c);
    RecordSize(id, h);
    match PathOf(c, id, h)
    case InPlace => InPlaceGoes(c, id, record);
    case Fresh =>
      WrittenObject(Alloc(c, 0, want), id, record);
      AllocGoes(c, 0, want, Target(c, id, h).obj);
    case Moved =>
      var p := Alloc(c, 0, want);
      forall o: Block | o.Object? && o.id != 0 ensures Calm(p.pre + [o] + p.post, 3) {
        AllocGoes(c, 0, want, o);
      }
      WrittenObject(Disposed(p, id), id, record);
      DisposedGoes(p, id, Target(c, id, h).obj);
    case FreshAfterDefrag =>
      DefragGoes(c);
      WrittenObject(Alloc(Defrag(c), id, want), id, record);
      AllocGoes(Defrag(c), id, want, Target(c, id, h).obj);
    case Lost =>
      DefragGoes(c);
      var p := Alloc(Defrag(c), id, want);
      forall o: Block | o.Object? && o.id != 0 ensures Calm(p.pre + [o] + p.post, 3) {
        AllocGoes(Defrag(c), id, want, o);
      }
      CapacityHas(c, id);
      CalmIsDefragmentable(c);
      DefragIff(c);
      OldIsInFront(c, id, want);
      DisposedGoes(p, id, Object(0, id, p.obj.data));
    case _ =>
  }

  lemma GoingIsCalm(c: seq<Block>)
    requires Going(c)
    ensures Calm(c, 3)
  {
  }

  lemma WrittenObject(p: Place, id: u16, record: seq<byte>)
    requires Write(p, id, record).Placed?
    ensures var t := Write(p, id, record);
      p.Placed? && p.obj.Object? && t.obj.Object? && t.obj.id == id && t.pre == p.pre && t.post == p.post
  {
  }

  lemma InPlaceGoes(c: seq<Block>, id: u16, record: seq<byte>)
    requires Calm(c, 3) && id != 0 && |record| <= Capacity(c, id) && Capacity(c, id) > 0
    ensures Calm(Overwrite(c, id, record), 3)
  {
    hide Calm;
    var k := Find(c, id);
    FindFacts(c, id);
    CalmExchange(c[..k], c[k], Filled(c[k], id, record), c[k + 1..]);
  }

  /** Every store keeps a calm chain calm and the area tiled, whatever it answers. */
  lemma StoreGoes(c: seq<Block>, id: u16, h: Handler)
    requires Going(c)
    ensures Going(Store(c, id, h).blocks) && |Encode(Store(c, id, h).blocks)| == |Encode(c)|
    ensures Others(Store(c, id, h).blocks, {0, id}) == Others(c, {0, id})
  {
    hide Calm, Encode, Store, Target, Others, Defrag, Defragmentable, PathOf;
    CalmIsDefragmentable(c);
    StoreGoesOn(c, id, h);
    StoreByPath(c, id, h);
    DefragGoes(c);
    if Writes(PathOf(c, id, h)) {
      TargetGoes(c, id, h);
    } else {
      NotWritten(c, id, h);
    }
    SomeBytes(c);
    SomeBytes(Store(c, id, h).blocks);
  }

  lemma NotWritten(c: seq<Block>, id: u16, h: Handler)
    requires |Encode(c)| < 0x10000 && !Writes(PathOf(c, id, h))
    ensures Store(c, id, h).blocks == c || Store(c, id, h).blocks == Defrag(c)
  {
    hide Encode, Store, Defrag, Alloc, FreeSpace, Capacity;
    StoreByPath(c, id, h);
  }

  // ---------- what the written id reads ----------

  /** Allocation moves no object to the other side of the new block. */
  lemma AllocCounts(c: seq<Block>, id: u16, want: nat, other: int)
    requires |Encode(c)| < 0x10000 && Alloc(c, id, want).Placed?
    ensures var p := Alloc(c, id, want); Count(p.pre, other) + Count(p.post, other) == Count(c, other)
  {
    hide Alloc, Count, Encode, Adjacent, Sized;
    var p := Alloc(c, id, want);
    var f, rest := AllocShape(c, id, want);
    CountAround(p.pre, f, rest, other);
    if p.post != rest {
      TailLaw(f, p.post[0], rest, other);
    }
  }

  /** The new content of the id, and no other block of it around. */
  ghost predicate Alone(t: Place, id: u16, record: seq<byte>) {
    && t.Placed? && t.obj.Object? && t.obj.id == id && Stored(t.obj) == record
    && Count(t.pre, id) + Count(t.post, id) == 0
  }

  lemma AloneReads(t: Place, id: u16, record: seq<byte>)
    requires Alone(t, id, record)
    ensures Get(t.Chain(), id) == record && Count(t.Chain(), id) == 1
  {
    hide Count, Get, Stored, Has;
    HasCount(t.pre, id);
    GetFirst(t.pre, t.obj, t.post, id);
    CountAround(t.pre, t.obj, t.post, id);
  }

  lemma FilledStores(pre: seq<Block>, o: Block, post: seq<Block>, id: u16, record: seq<byte>)
    requires o.Object? && |record| <= |o.data| && |Encode(pre + [o] + post)| < 0x10000
    ensures var x := Filled(o, id, record); x.Object? && x.id == id && Stored(x) == record
  {
    BlockIsSmall(pre, o, post);
  }

  lemma NoBlockYet(c: seq<Block>, id: u16)
    requires Capacity(c, id) == 0 && !Hollow(c, id)
    ensures Count(c, id) == 0
  {
    hide Count;
    HasCount(c, id);
  }

  lemma InPlaceAlone(c: seq<Block>, id: u16, record: seq<byte>)
    requires |Encode(c)| < 0x10000 && Count(c, id) <= 1 && 0 < |record| <= Capacity(c, id)
    ensures var k := Find(c, id); k < |c| && Alone(Placed(c[..k], Filled(c[k], id, record), c[k + 1..]), id, record)
  {
    hide Count, Encode, Filled, Stored;
    var k := Find(c, id);
    FindFacts(c, id);
    FilledStores(c[..k], c[k], c[k + 1..], id, record);
    CountAround(c[..k], c[k], c[k + 1..], id);
  }

  lemma FreshAlone(c: seq<Block>, owner: u16, id: u16, want: nat, record: seq<byte>)
    requires |Encode(c)| < 0x10000 && Count(c, id) == 0 && Alloc(c, owner, want).Placed? && |record| <= want
    ensures Alone(Write(Alloc(c, owner, want), id, record), id, record)
  {
    hide Count, Encode, Filled, Stored, Alloc, Others;
    var p := Alloc(c, owner, want);
    AllocFits(c, owner, want);
    AllocCounts(c, owner, want, id);
    FilledStores(p.pre, p.obj, p.post, id, record);
  }

  lemma MovedAlone(c: seq<Block>, id: u16, want: nat, record: seq<byte>)
    requires |Encode(c)| < 0x10000 && Count(c, id) <= 1 && id != 0 && Has(c, id) && !Hollow(c, id)
    requires Alloc(c, 0, want).Placed? && |record| <= want
    ensures Alone(Write(Disposed(Alloc(c, 0, want), id), id, record), id, record)
  {
    hide Count, Encode, Filled, Stored, Alloc, Others, Has, Get, Dispose, MergePass;
    var p := Alloc(c, 0, want);
    AllocFits(c, 0, want);
    AllocCounts(c, 0, want, id);
    HasCount(c, id);
    HollowParts(p, c, id);
    DisposedCounts(p, id);
    FilledStores(p.pre, p.obj, p.post, id, record);
  }

  /** After a completed store the id reads as the handler's bytes and their CRC. */
  lemma TargetAlone(c: seq<Block>, id: u16, h: Handler)
    requires |Encode(c)| < 0x10000 && Count(c, id) <= 1 && !Hollow(c, id)
    requires Writes(PathOf(c, id, h)) && !PathOf(c, id, h).Lost?
    ensures Alone(Target(c, id, h), id, Record(id, h))
  {
    hide Encode, Alloc, Defrag, FreeSpace, Filled, Record, Dispose, MergePass, Has, Count, Alone, Find, Hollow, Others;
    var want, record := Provision(|h.payload| + 1), Record(id, h);
    RecordSize(id, h);
    match PathOf(c, id, h)
    case InPlace => InPlaceAlone(c, id, record);
    case Fresh =>
      NoBlockYet(c, id);
      FreshAlone(c, 0, id, want, record);
    case Moved =>
      CapacityHas(c, id);
      MovedAlone(c, id, want, record);
    case FreshAfterDefrag =>
      NoBlockYet(c, id);
      DefragSpares(c, 0);
      SameOthersSameGet(Defrag(c), c, {0, 0}, id);
      DefragKeepsSize(c);
      FreshAlone(Defrag(c), id, id, want, record);
    case _ =>
  }

  /** A store under an id with at most one block, which is not hollow. */
  lemma OwnAfter(c: seq<Block>, id: u16, h: Handler)
    requires |Encode(c)| < 0x10000 && id != 0 && Count(c, id) <= 1 && !Hollow(c, id)
    ensures var r, path := Store(c, id, h).blocks, PathOf(c, id, h);
      if !Writes(path) then Get(r, id) == Get(c, id) && Count(r, id) == Count(c, id)
      else !path.Lost? ==> Get(r, id) == Record(id, h) && Count(r, id) == 1
  {
    hide Encode, Store, Target, Others, Defrag, PathOf, Get, Count, Record, Hollow;
    StoreByPath(c, id, h);
    if !Writes(PathOf(c, id, h)) {
      NotWritten(c, id, h);
      DefragSpares(c, 0);
      SameOthersSameGet(Defrag(c), c, {0, 0}, id);
    } else if !PathOf(c, id, h).Lost? {
      TargetAlone(c, id, h);
      AloneReads(Target(c, id, h), id, Record(id, h));
    }
  }

  // ---------- runs ----------

  /** The id that is written, unless the answer says that it may be damaged. */
  lemma OwnTrusts(c: seq<Block>, ledger: Ledger, id: u16, h: Handler)
    requires |Encode(c)| < 0x10000 && id != 0 && AgreesOn(c, ledger, id) && Count(c, id) <= 1 && id !in ledger.damaged
    requires id !in Noted(ledger, Put(id, h), Result(Store(c, id, h).error)).damaged
    ensures var r := Store(c, id, h);
      AgreesOn(r.blocks, Noted(ledger, Put(id, h), Result(r.error)), id) && Count(r.blocks, id) <= 1
  {
    hide Encode, Count, Get, Has, Store, Record, Target, Alloc, Defrag, FreeSpace, Capacity;
    var r := Store(c, id, h);
    StoreByPath(c, id, h);
    OwnAfter(c, id, h);
    RecordSize(id, h);
    HasCount(c, id);
    HasCount(r.blocks, id);
    if h.dryRun == Ok {
      Answers(c, id, h);
    }
  }

  lemma PutGoes(c: seq<Block>, ledger: Ledger, id: u16, h: Handler)
    requires Going(c) && Trusts(c, ledger) && 0 in ledger.damaged
    ensures var r := Store(c, id, h); Trusts(r.blocks, Noted(ledger, Put(id, h), Result(r.error)))
  {
    hide Encode, Count, Get, Has, Store, Record, Noted, Calm, Others;
    var r := Store(c, id, h);
    var after := Noted(ledger, Put(id, h), Result(r.error));
    StoreGoes(c, id, h);
    forall other: u16 | other !in after.damaged
      ensures AgreesOn(r.blocks, after, other) && Count(r.blocks, other) <= 1
    {
      NotedElsewhere(ledger, id, h, r.error, other);
      assert AgreesOn(c, ledger, other) && Count(c, other) <= 1;
      if other == id {
        OwnTrusts(c, ledger, id, h);
      } else {
        SameOthersSameGet(r.blocks, c, {0, id}, other);
        HasCount(c, other);
        HasCount(r.blocks, other);
      }
    }
  }

  lemma OneOpGoes(c: seq<Block>, ledger: Ledger, op: Op)
    requires Going(c) && Trusts(c, ledger) && 0 in ledger.damaged
    ensures var (next, answer) := Exec(c, op);
      && Going(next) && |Encode(next)| == |Encode(c)| && Trusts(next, Noted(ledger, op, answer))
      && 0 in Noted(ledger, op, answer).damaged
  {
    hide Trusts, Store, Dispose, Get, Calm, Others, Encode;
    match op {
      case Put(id, h) =>
        StoreGoes(c, id, h);
        PutGoes(c, ledger, id, h);
      case Delete(id) =>
        DisposeGoes(c, id);
        DisposeKeepsSize(c, id);
        SomeBytes(c);
        SomeBytes(Dispose(c, id));
        DeleteTrusts(c, ledger, id);
        DeleteNoted(ledger, id, Get(c, id) != []);
    }
  }

  /** From any calm chain, over every run: the chain stays calm, so every defragmentation on the way is right, the
      area stays tiled, and every id that is not damaged reads as the caller's map says. */
  lemma {:induction false} CalmRun(c: seq<Block>, ledger: Ledger, ops: seq<Op>)
    requires Going(c) && Trusts(c, ledger) && 0 in ledger.damaged
    ensures Going(Run(c, ops)) && |Encode(Run(c, ops))| == |Encode(c)|
    ensures Trusts(Run(c, ops), Follow(c, ledger, ops))
    decreases |ops|
  {
    hide Going, Trusts, Encode, Exec, Noted;
    if ops != [] {
      OneOpGoes(c, ledger, ops[0]);
      CalmRun(Exec(c, ops[0]).0, Noted(ledger, ops[0], Exec(c, ops[0]).1), ops[1..]);
    }
  }

  /** A caller that comes back after a cut trusts all ids but three. */
  lemma TrustsAfterCut(c: seq<Block>, bs: seq<Block>, ledger: Ledger, own: u16) returns (victim: u16)
    requires Trusts(bs, ledger) && Harmless(c, own, bs)
    ensures Trusts(c, Ledger(ledger.stored, ledger.damaged + {0, own, victim}))
  {
    hide Others, Get, Count, Has;
    victim :| Others(c, {0, own, victim}) == Others(bs, {0, own, victim});
    var after := Ledger(ledger.stored, ledger.damaged + {0, own, victim});
    forall id: u16 | id !in after.damaged ensures AgreesOn(c, after, id) && Count(c, id) <= 1 {
      assert AgreesOn(bs, ledger, id) && Count(bs, id) <= 1;
      SameOthersSameGet(c, bs, {0, own, victim}, id);
      HasCount(c, id);
      HasCount(bs, id);
    }
  }

  /** Every cut in a store leaves a calm chain, except the one right behind the type byte of the old block when
      disposed blocks touched before. */
  lemma StoreCutIsCalm(c: seq<Block>, bs: seq<Block>, own: u16, h: Handler)
    requires Orderly(bs) && own != 0 && StoreCut(c, bs, own, h) && (Adjacent(bs) == 0 || c != Midway(bs, own, h))
    ensures Calm(c, 3)
  {
    hide Sized, Adjacent, Encode, NoEmptyFree, Calm, Midway, Defragmentable;
    SizedNoEmptyFree(bs);
    HasCount(bs, 0);
    StoreCutLaw(c, bs, own, h);
  }

  /** After a power cut in a store or a disposal that leaves a calm chain, over every run that follows: defragmentation
      is right at any time, the area stays tiled, and every id but the one that was written, zero, at most one more
      and those with a write error reads as the map of a caller that goes on from what it knew before the cut. */
  lemma GoingOn(c: seq<Block>, bs: seq<Block>, ledger: Ledger, own: u16, ops: seq<Op>) returns (victim: u16)
    requires Orderly(bs) && Trusts(bs, ledger)
    requires |Encode(c)| == |Encode(bs)| && Harmless(c, own, bs) && Calm(c, 3)
    ensures var after := Run(c, ops);
      && NoEmptyFree(after) && Defragmentable(after) && |Encode(after)| == |Encode(bs)|
      && var now := Follow(c, Ledger(ledger.stored, ledger.damaged + {0, own, victim}), ops);
         forall id: u16 :: id !in now.damaged ==>
           Get(after, id) == if id in now.stored then now.stored[id] else []
  {
    hide Calm, Encode, Trusts, Run, Follow, Defragmentable, NoEmptyFree, Get, Harmless;
    SomeBytes(bs);
    SomeBytes(c);
    SmallAndSome(bs);
    victim := TrustsAfterCut(c, bs, ledger, own);
    var start := Ledger(ledger.stored, ledger.damaged + {0, own, victim});
    CalmRun(c, start, ops);
    CalmIsDefragmentable(Run(c, ops));
    TrustedReads(Run(c, ops), Follow(c, start, ops));
  }

  lemma SmallAndSome(bs: seq<Block>)
    requires Orderly(bs)
    ensures bs != [] && |Encode(bs)| < 0x10000
  {
  }

  lemma TrustedReads(c: seq<Block>, ledger: Ledger)
    requires Trusts(c, ledger)
    ensures forall id: u16 :: id !in ledger.damaged ==>
      Get(c, id) == if id in ledger.stored then ledger.stored[id] else []
  {
    hide Get, Count, Has;
    forall id: u16 | id !in ledger.damaged
      ensures Get(c, id) == if id in ledger.stored then ledger.stored[id] else []
    {
      assert AgreesOn(c, ledger, id);
    }
  }
}
