/**
 Laws of the object store. An id is hollow when its block holds no stored bytes; a relocation that
 had to defragment leaves it so and answers with a write error.
 */
module StoreLaws {
  import opened Bytes
  import opened Blocks
  import opened StoreSpec
  import opened DisposedRuns

  // ---------- the invariant ----------

  function Count(bs: seq<Block>, id: int): nat {
    if bs == [] then 0 else (if bs[0].Object? && bs[0].id == id then 1 else 0) + Count(bs[1..], id)
  }

  ghost predicate Unique(bs: seq<Block>) {
    forall id: u16 :: Count(bs, id) <= 1
  }

  /** Disposed blocks are not tiny, objects have room and their used size fits. */
  predicate Sized(bs: seq<Block>) {
    bs == [] || (SizedBlock(bs[0]) && Sized(bs[1..]))
  }

  predicate SizedBlock(b: Block) {
    match b
    case Free(junk) => |junk| >= 5
    case Object(used, id, data) => |data| >= 5 && used <= |data|
  }

  /** What every operation keeps, whatever it answers and whatever came before. */
  predicate Orderly(bs: seq<Block>) {
    bs != [] && |Encode(bs)| < 0x10000 && Sized(bs) && Count(bs, 0) == 0 && Adjacent(bs) <= 1
  }

  ghost predicate Inv(bs: seq<Block>) {
    Orderly(bs) && Unique(bs)
  }

  // ---------- counting ----------

  lemma {:induction false} CountConcat(a: seq<Block>, b: seq<Block>, id: int)
    ensures Count(a + b, id) == Count(a, id) + Count(b, id)
  {
    if a == [] {
      assert a + b == b;
    } else {
      assert (a + b)[1..] == a[1..] + b && (a + b)[0] == a[0];
      CountConcat(a[1..], b, id);
    }
  }

  lemma CountAround(pre: seq<Block>, b: Block, post: seq<Block>, id: int)
    ensures Count(pre + [b] + post, id)
      == Count(pre, id) + (if b.Object? && b.id == id then 1 else 0) + Count(post, id)
  {
    assert Count([b], id) == (if b.Object? && b.id == id then 1 else 0) + Count([], id);
    hide Count;
    CountConcat(pre, [b], id);
    CountConcat(pre + [b], post, id);
    assert Count([], id) == 0 by { NothingThere(0, id); }
  }

  lemma NothingThere(id: u16, other: int)
    ensures Count([], other) == 0 && Kill([], id) == [] && Sized([])
  {
  }

  lemma {:induction false} CountOthers(bs: seq<Block>, ids: set<int>, id: int)
    requires id !in ids
    ensures Count(Others(bs, ids), id) == Count(bs, id)
  {
    if bs != [] {
      CountOthers(bs[1..], ids, id);
    }
  }

  lemma {:induction false} GetOthers(bs: seq<Block>, ids: set<int>, id: u16)
    requires id !in ids
    ensures Get(Others(bs, ids), id) == Get(bs, id)
  {
    hide Stored;
    if bs != [] {
      GetOthers(bs[1..], ids, id);
      GetStep(bs, id);
      if bs[0].Object? && bs[0].id !in ids {
        var rest := Others(bs[1..], ids);
        assert ([bs[0]] + rest)[1..] == rest;
        GetStep([bs[0]] + rest, id);
      }
    }
  }

  lemma GetStep(bs: seq<Block>, id: u16)
    ensures Has(bs, id) <==> bs != [] && ((bs[0].Object? && bs[0].id == id) || Has(bs[1..], id))
    ensures bs != [] ==> Get(bs, id) == if bs[0].Object? && bs[0].id == id then Stored(bs[0]) else Get(bs[1..], id)
  {
    hide Stored;
  }

  /** Chains that agree on all objects but some agree on what is stored for every other id. */
  lemma SameOthersSameGet(c: seq<Block>, bs: seq<Block>, ids: set<int>, id: u16)
    requires Others(c, ids) == Others(bs, ids) && id !in ids
    ensures Get(c, id) == Get(bs, id) && Count(c, id) == Count(bs, id)
  {
    hide Others, Get, Count;
    GetOthers(c, ids, id);
    GetOthers(bs, ids, id);
    CountOthers(c, ids, id);
    CountOthers(bs, ids, id);
  }

  lemma {:induction false} HasCount(bs: seq<Block>, id: u16)
    ensures Has(bs, id) <==> Count(bs, id) > 0
    ensures !Has(bs, id) ==> Get(bs, id) == []
  {
    hide Stored;
    if bs != [] {
      HasCount(bs[1..], id);
    }
  }

  /** The first object of an id decides what is stored for it. */
  lemma {:induction false} GetFirst(pre: seq<Block>, b: Block, post: seq<Block>, id: u16)
    ensures Get(pre + [b] + post, id)
      == if Has(pre, id) then Get(pre, id)
         else if b.Object? && b.id == id then Stored(b) else Get(post, id)
    ensures Has(pre + [b] + post, id) <==> Has(pre, id) || (b.Object? && b.id == id) || Has(post, id)
  {
    hide Stored, Get, Has;
    var bs := pre + [b] + post;
    GetStep(bs, id);
    if pre == [] {
      assert bs == [b] + post && bs[1..] == post;
      GetStep([], id);
    } else {
      assert bs[1..] == pre[1..] + [b] + post && bs[0] == pre[0];
      GetStep(pre, id);
      GetFirst(pre[1..], b, post, id);
    }
  }

  /** Killing takes one object of the id away, if the id has stored bytes. */
  lemma {:induction false} CountKill(bs: seq<Block>, id: u16)
    ensures Count(Kill(bs, id), id) == Count(bs, id) - (if Get(bs, id) == [] then 0 else 1)
  {
    hide Body, Stored, Get, Kill;
    if bs != [] {
      GetStep(bs, id);
      KillStep(bs, id);
      if bs[0].Object? && bs[0].id == id {
        if Stored(bs[0]) != [] {
          assert Kill(bs, id)[1..] == bs[1..];
        }
      } else {
        CountKill(bs[1..], id);
        assert Kill(bs, id)[1..] == Kill(bs[1..], id);
      }
    } else {
      assert Kill(bs, id) == [] by { NothingThere(id, 0); }
      assert Get(bs, id) == [] by { HasCount(bs, id); }
    }
  }

  lemma CountMerge(bs: seq<Block>, id: u16)
    ensures Count(MergePass(bs), id) == Count(bs, id) && Get(MergePass(bs), id) == Get(bs, id)
  {
    hide Count, MergePass, Get, Others, Objects;
    MergeKeepsObjects(bs);
    SameObjectsSameOthers(MergePass(bs), bs, {-1});
    SameOthersSameGet(MergePass(bs), bs, {-1}, id);
  }

  // ---------- disposing ----------

  /** Disposing changes no other id. An id with one block has nothing stored afterwards, and its block
      remains only when it had nothing stored before. */
  lemma DisposeLaw(bs: seq<Block>, id: u16, other: u16)
    ensures Count(bs, id) <= 1 ==> Get(Dispose(bs, id), id) == []
    ensures Count(bs, id) <= 1 ==> (Has(Dispose(bs, id), id) <==> Has(bs, id) && Get(bs, id) == [])
    ensures other != id ==> Get(Dispose(bs, id), other) == Get(bs, other)
    ensures other != id ==> Count(Dispose(bs, id), other) == Count(bs, other)
    ensures Count(Dispose(bs, id), id) <= Count(bs, id)
  {
    hide Count, MergePass, Get, Kill, Others, Has;
    var k := Kill(bs, id);
    CountMerge(k, id);
    CountMerge(k, other);
    CountKill(bs, id);
    HasCount(bs, id);
    HasCount(k, id);
    HasCount(MergePass(k), id);
    KillOnlyOne(bs, id);
    if other != id {
      KillSpares(bs, id);
      SameOthersSameGet(k, bs, {id}, other);
    }
  }

  lemma KillOnlyOne(bs: seq<Block>, id: u16)
    ensures Get(bs, id) == [] ==> Kill(bs, id) == bs
  {
    hide Body, Stored, Get, Kill;
    if bs != [] {
      GetStep(bs, id);
      KillStep(bs, id);
      if !(bs[0].Object? && bs[0].id == id) {
        KillOnlyOne(bs[1..], id);
      }
    } else {
      NothingThere(id, 0);
    }
  }

  // ---------- sizes and runs ----------

  lemma {:induction false} SizedConcat(a: seq<Block>, b: seq<Block>)
    ensures Sized(a + b) <==> Sized(a) && Sized(b)
  {
    hide SizedBlock;
    if a == [] {
      assert a + b == b;
    } else {
      assert (a + b)[1..] == a[1..] + b;
      SizedConcat(a[1..], b);
    }
  }

  lemma SizedAround(pre: seq<Block>, b: Block, post: seq<Block>)
    ensures Sized(pre + [b] + post) <==> Sized(pre) && SizedBlock(b) && Sized(post)
  {
    assert Sized([b]) <==> SizedBlock(b) && Sized([]);
    hide Sized, SizedBlock;
    SizedConcat(pre, [b]);
    SizedConcat(pre + [b], post);
    assert Sized([]) by { NothingThere(0, 0); }
  }

  lemma {:induction false} SizedMerge(bs: seq<Block>)
    requires Sized(bs)
    ensures Sized(MergePass(bs))
  {
    if |bs| >= 2 {
      if bs[0].Free? && bs[1].Free? {
        assert bs[1..][1..] == bs[2..];
        SizedMerge(bs[2..]);
        assert MergePass(bs)[1..] == MergePass(bs[2..]);
      } else {
        SizedMerge(bs[1..]);
        assert MergePass(bs)[1..] == MergePass(bs[1..]);
      }
    }
  }

  lemma {:induction false} SizedKill(bs: seq<Block>, id: u16)
    requires Sized(bs)
    ensures Sized(Kill(bs, id))
  {
    if bs != [] && !(bs[0].Object? && bs[0].id == id) {
      SizedKill(bs[1..], id);
    }
  }

  lemma {:induction false} SizedNoEmptyFree(bs: seq<Block>)
    requires Sized(bs)
    ensures NoEmptyFree(bs)
  {
    if bs != [] {
      SizedNoEmptyFree(bs[1..]);
    }
  }

  /** The invariant gives what defragmentation needs. */
  lemma InvDefrag(bs: seq<Block>)
    requires Orderly(bs)
    ensures NoEmptyFree(bs) && Kill(bs, 0) == bs && MaxRun(bs) <= 2
    ensures Defragmentable(bs) && Behind(Defrag(bs)) == 0
    ensures Compacted(Defrag(bs)) && Objects(Defrag(bs)) == Objects(bs)
  {
    hide Sized, Kill, MaxRun, Adjacent, NoEmptyFree, Defrag, Compacted, Behind, TameFrom;
    SizedNoEmptyFree(bs);
    AdjacentRuns(bs);
    HasCount(bs, 0);
    KillOnlyOne(bs, 0);
    DefragResult(bs);
    ShortRunsAreTame(bs, 4);
    DefragIff(bs);
  }

  // ---------- total size ----------

  lemma EncodeAround(pre: seq<Block>, b: Block, post: seq<Block>)
    ensures |Encode(pre + [b] + post)| == |Encode(pre)| + 3 + |Body(b)| + |Encode(post)|
  {
    assert |Encode([b])| == |EncodeBlock(b)| + |Encode([])|;
    hide Encode, Body;
    EncodeConcat(pre, [b]);
    EncodeConcat(pre + [b], post);
  }

  lemma {:induction false} MoveKeepsSize(bs: seq<Block>)
    requires CanMove(bs)
    ensures |Encode(Move(bs))| == |Encode(bs)|
  {
    hide Body;
    if bs[0].Free? {
      var g := Free(Leftover(bs[0], bs[1]));
      FreeBody(g.junk);
      FreeBody(bs[0].junk);
      assert bs[1..][1..] == bs[2..];
      assert Move(bs)[1..] == [g] + bs[2..] && Move(bs)[1..][1..] == bs[2..];
    } else {
      MoveKeepsSize(bs[1..]);
      assert Move(bs)[1..] == Move(bs[1..]);
    }
  }

  lemma {:induction false} CompactKeepsSize(bs: seq<Block>)
    ensures |Encode(Compact(bs))| == |Encode(bs)|
    decreases Behind(bs)
  {
    hide MergePass, Move, CanMove, Encode, Behind;
    var m := MergePass(bs);
    MergeKeepsObjects(bs);
    MergeKeepsSize(bs);
    CompactStep(bs);
    if CanMove(m) {
      MoveProgress(m);
      MoveKeepsSize(m);
      CompactKeepsSize(Move(m));
    }
  }

  lemma DisposeKeepsSize(bs: seq<Block>, id: u16)
    ensures |Encode(Dispose(bs, id))| == |Encode(bs)|
  {
    hide MergePass, Kill, Encode;
    KillKeepsSize(bs, id);
    MergeKeepsSize(Kill(bs, id));
  }

  lemma DefragKeepsSize(bs: seq<Block>)
    ensures |Encode(Defrag(bs))| == |Encode(bs)|
  {
    hide Compact, Dispose, Encode;
    DisposeKeepsSize(bs, 0);
    CompactKeepsSize(Dispose(bs, 0));
  }

  // ---------- allocation ----------

  /** A new block keeps sizes, runs and counts in order. */
  lemma AllocLaw(bs: seq<Block>, id: u16, want: nat, other: int)
    requires Alloc(bs, id, want).Placed? && Sized(bs) && |Encode(bs)| < 0x10000 && want >= 5
    ensures var p := Alloc(bs, id, want);
      && p.obj.Object? && p.obj.id == id && |p.obj.data| >= want && |p.obj.data| < 0x10000
      && Sized(p.pre) && Sized(p.post)
      && Adjacent(p.pre) + Adjacent(p.post) <= Adjacent(bs)
      && Count(p.pre, other) + Count(p.post, other) == Count(bs, other)
      && |Encode(p.pre + [p.obj] + p.post)| == |Encode(bs)|
  {
    hide Alloc, Adjacent, Sized, Count, Encode;
    var p := Alloc(bs, id, want);
    var f, rest := AllocShape(bs, id, want);
    SizedAround(p.pre, f, rest);
    CountAround(p.pre, f, rest, other);
    AdjacentPut(p.pre, f, rest);
    if p.post != rest {
      TailLaw(f, p.post[0], rest, other);
    }
  }

  lemma TailLaw(f: Block, t: Block, rest: seq<Block>, other: int)
    requires f.Free? && t.Free? && |t.junk| >= 5
    ensures Sized([t] + rest) <==> Sized(rest)
    ensures Count([t] + rest, other) == Count(rest, other)
    ensures Adjacent([f] + rest) == Adjacent([t] + rest)
  {
    assert ([f] + rest)[1..] == rest && ([t] + rest)[1..] == rest;
  }

  // ---------- the ways a store can go ----------

  datatype Path =
    | Refused           // the id or the handler says no
    | InPlace           // the data fits where it is
    | Fresh             // a new block for a new id
    | Moved             // a new block, the old one is disposed of
    | Full              // not enough free bytes
    | FreshAfterDefrag  // a new block for a new id, after defragmentation
    | Lost              // a new block after defragmentation, the old one is disposed of
    | FullAfterDefrag   // defragmentation did not make enough room

  function PathOf(bs: seq<Block>, id: u16, h: Handler): Path {
    var want := Provision(|h.payload| + 1);
    if id == 0 || h.dryRun != CboxError.Ok then Refused
    else if |h.payload| + 1 <= Capacity(bs, id) then InPlace
    else if Alloc(bs, 0, want).Placed? then (if Capacity(bs, id) > 0 then Moved else Fresh)
    else if FreeSpace(bs) < want + 4 then Full
    else if Alloc(Defrag(bs), id, want).NoRoom? then FullAfterDefrag
    else if Capacity(bs, id) > 0 then Lost
    else FreshAfterDefrag
  }

  predicate Writes(p: Path) {
    p.InPlace? || p.Fresh? || p.Moved? || p.FreshAfterDefrag? || p.Lost?
  }

  /** The id has a block but nothing stored in it. */
  predicate Hollow(bs: seq<Block>, id: u16) {
    Has(bs, id) && Get(bs, id) == []
  }

  /** Where the block of the id ends up, and what is around it. */
  ghost function Target(bs: seq<Block>, id: u16, h: Handler): Place {
    var record, want := Record(id, h), Provision(|h.payload| + 1);
    var k := Find(bs, id);
    var p, q := Alloc(bs, 0, want), Alloc(Defrag(bs), id, want);
    match PathOf(bs, id, h)
    case InPlace => if k < |bs| then Placed(bs[..k], Filled(bs[k], id, record), bs[k + 1..]) else NoRoom
    case Fresh => Write(p, id, record)
    case Moved =>
      if p.NoRoom? then NoRoom
      else if Has(p.pre, id) then Write(Placed(Dispose(p.pre, id), p.obj, MergePass(p.post)), id, record)
      else Write(Placed(MergePass(p.pre), p.obj, Dispose(p.post, id)), id, record)
    case FreshAfterDefrag => Write(q, id, record)
    case Lost =>
      if q.Placed? && q.obj.Object? then Placed(Dispose(q.pre, id), Object(0, id, q.obj.data), MergePass(q.post))
      else NoRoom
    case _ => NoRoom
  }

  ghost function Write(p: Place, id: u16, record: seq<byte>): Place {
    if p.Placed? && p.obj.Object? && |record| <= |p.obj.data| then Placed(p.pre, Filled(p.obj, id, record), p.post)
    else NoRoom
  }

  /** The answer of a store that writes nothing because the id or the handler says no. */
  function Refusal(id: u16, h: Handler): CboxError {
    if id == 0 then InvalidObjectId
    else if h.dryRun == PersistingNotNeeded then Ok
    else h.dryRun
  }

  /** The answer of a store tells what has happened to the chain. */
  lemma StoreByPath(bs: seq<Block>, id: u16, h: Handler)
    requires |Encode(bs)| < 0x10000
    ensures var r, p := Store(bs, id, h), PathOf(bs, id, h);
      && (p.Refused? ==> r.blocks == bs && r.error == Refusal(id, h))
      && (p.Full? ==> r.blocks == bs && r.error == InsufficientPersistentStorage)
      && (p.FullAfterDefrag? ==> r.blocks == Defrag(bs) && r.error == InsufficientPersistentStorage)
      && (p.Lost? ==> r.error == PersistedStorageWriteError)
      && (Writes(p) && !p.Lost? ==> r.error == h.final)
      && (Writes(p) ==> Target(bs, id, h).Placed? && r.blocks == Target(bs, id, h).Chain())
  {
    hide Encode, Alloc, Dispose, MergePass, Defrag, Record, FreeSpace, Filled, Others, Find, Has;
    var want := Provision(|h.payload| + 1);
    RecordSize(id, h);
    AllocFits(bs, 0, want);
    DefragKeepsSize(bs);
    AllocFits(Defrag(bs), id, want);
  }

  lemma RecordSize(id: u16, h: Handler)
    ensures |Record(id, h)| == |h.payload| + 1
  {
  }

  // ---------- what is around the block of a stored object ----------

  /** The block of the id and its surroundings after a store. */
  ghost predicate Tidy(t: Place, bs: seq<Block>, id: u16, data: seq<byte>) {
    && t.Placed? && t.obj.Object? && t.obj.id == id && SizedBlock(t.obj) && Stored(t.obj) == data
    && Sized(t.pre) && Sized(t.post) && Adjacent(t.pre) + Adjacent(t.post) <= 1
    && |Encode(t.Chain())| == |Encode(bs)|
    && Others(t.Chain(), {0, id}) == Others(bs, {0, id})
    && Count(t.pre, 0) + Count(t.post, 0) == 0
  }

  lemma FilledLaw(o: Block, id: u16, record: seq<byte>)
    requires o.Object? && 0 < |record| <= |o.data| && 5 <= |o.data| < 0x10000
    ensures var x := Filled(o, id, record);
      && x.Object? && x.id == id && SizedBlock(x) && Stored(x) == record && |Body(x)| == |Body(o)|
  {
  }

  lemma BlockIsSmall(pre: seq<Block>, o: Block, post: seq<Block>)
    requires o.Object? && |Encode(pre + [o] + post)| < 0x10000
    ensures |o.data| < 0x10000
  {
    EncodeAround(pre, o, post);
  }

  /** Writing a block that has been set aside for the id, with nothing else of the id around. */
  lemma WriteLaw(p: Place, bs: seq<Block>, id: u16, record: seq<byte>)
    requires p.Placed? && p.obj.Object? && (p.obj.id == 0 || p.obj.id == id) && 0 < |record| <= |p.obj.data|
    requires |p.obj.data| >= 5 && |Encode(p.Chain())| == |Encode(bs)| < 0x10000
    requires Sized(p.pre) && Sized(p.post) && Adjacent(p.pre) + Adjacent(p.post) <= 1
    requires Others(p.Chain(), {0, id}) == Others(bs, {0, id}) && Count(p.pre, 0) + Count(p.post, 0) == 0
    ensures Tidy(Write(p, id, record), bs, id, record)
  {
    hide Encode, Sized, Adjacent, Others, Count, Filled, Body, SizedBlock, Stored;
    BlockIsSmall(p.pre, p.obj, p.post);
    FilledLaw(p.obj, id, record);
    var x := Filled(p.obj, id, record);
    EncodeAround(p.pre, p.obj, p.post);
    EncodeAround(p.pre, x, p.post);
    OthersExchange(p.pre, p.obj, x, p.post, {0, id});
  }

  lemma InPlaceLaw(bs: seq<Block>, id: u16, h: Handler)
    requires Orderly(bs) && PathOf(bs, id, h).InPlace?
    ensures Tidy(Target(bs, id, h), bs, id, Record(id, h))
    ensures Count(bs, id) <= 1 ==> Leaves(Target(bs, id, h), id, false, false)
  {
    hide Encode, Sized, Adjacent, Others, Count, Filled, Body, SizedBlock, Stored, Find, Tidy, Record, Alloc, Defrag,
      FreeSpace;
    var k := Find(bs, id);
    assert Capacity(bs, id) > 0 && k < |bs|;
    FindFacts(bs, id);
    var o := bs[k];
    RecordSize(id, h);
    CountAround(bs[..k], o, bs[k + 1..], id);
    CountAround(bs[..k], o, bs[k + 1..], 0);
    SizedAround(bs[..k], o, bs[k + 1..]);
    SizedObject(o);
    AdjacentAround(bs[..k], o, bs[k + 1..]);
    WriteLaw(Placed(bs[..k], o, bs[k + 1..]), bs, id, Record(id, h));
    HasCount(bs[..k], id);
  }

  lemma SizedObject(o: Block)
    requires SizedBlock(o) && o.Object?
    ensures |o.data| >= 5 && o.used <= |o.data|
  {
  }

  lemma FindFacts(bs: seq<Block>, id: u16)
    requires Find(bs, id) < |bs|
    ensures var k := Find(bs, id); bs[k].Object? && bs[k].id == id && bs == bs[..k] + [bs[k]] + bs[k + 1..]
  {
  }

  /** Without a block for the id, all room is free for it. */
  lemma NoCapacity(bs: seq<Block>, id: u16)
    requires Sized(bs) && Capacity(bs, id) == 0
    ensures Count(bs, id) == 0
  {
    hide Count, Sized, Find, SizedBlock;
    HasCount(bs, id);
    if Has(bs, id) {
      FindFacts(bs, id);
      var k := Find(bs, id);
      SizedAround(bs[..k], bs[k], bs[k + 1..]);
      SizedObject(bs[k]);
    }
  }

  lemma FreshLaw(bs: seq<Block>, id: u16, h: Handler)
    requires Orderly(bs) && PathOf(bs, id, h).Fresh?
    ensures Tidy(Target(bs, id, h), bs, id, Record(id, h))
    ensures Leaves(Target(bs, id, h), id, false, false)
  {
    hide Encode, Sized, Adjacent, Others, Count, Filled, Find, Tidy, Record, Alloc, Defrag, FreeSpace, Capacity;
    var want := Provision(|h.payload| + 1);
    var p := Alloc(bs, 0, want);
    RecordSize(id, h);
    NoCapacity(bs, id);
    AllocLaw(bs, 0, want, id);
    AllocLaw(bs, 0, want, 0);
    AllocFits(bs, 0, want);
    OthersAgree(p.Chain(), bs, {0}, {0, id});
    WriteLaw(p, bs, id, Record(id, h));
    HasCount(p.pre, id);
  }

  /** The surroundings of a new block after the old block of the id has been disposed of. */
  function Disposed(p: Place, id: u16): Place
    requires p.Placed?
  {
    if Has(p.pre, id) then Placed(Dispose(p.pre, id), p.obj, MergePass(p.post))
    else Placed(MergePass(p.pre), p.obj, Dispose(p.post, id))
  }

  lemma DisposedLaw(p: Place, id: u16)
    requires p.Placed? && p.obj.Object? && (p.obj.id != id || Has(p.pre, id))
    requires Sized(p.pre) && Sized(p.post)
    ensures var q := Disposed(p, id);
      && Sized(q.pre) && Sized(q.post)
      && Adjacent(q.pre) + Adjacent(q.post) <= (Adjacent(p.pre) + Adjacent(p.post) + 2) / 2
      && |Encode(q.Chain())| == |Encode(p.Chain())|
      && Others(q.Chain(), {0, id}) == Others(p.Chain(), {0, id})
  {
    hide Encode, Sized, Adjacent, Others, Has, Kill, MergePass;
    var q := Disposed(p, id);
    DisposeAround(p.pre, p.obj, p.post, id);
    assert q.Chain() == Dispose(p.Chain(), id);
    DisposeKeepsSize(p.Chain(), id);
    DisposeSpares(p.Chain(), id);
    DisposeAdjacent(p.Chain(), id);
    AdjacentAround(p.pre, p.obj, p.post);
    AdjacentAround(q.pre, q.obj, q.post);
    SizedKill(p.pre, id);
    SizedKill(p.post, id);
    SizedMerge(Kill(p.pre, id));
    SizedMerge(Kill(p.post, id));
    SizedMerge(p.pre);
    SizedMerge(p.post);
  }

  lemma DisposedCounts(p: Place, id: u16)
    requires p.Placed? && p.obj.Object?
    ensures var q := Disposed(p, id);
      id != 0 ==> Count(q.pre, 0) + Count(q.post, 0) == Count(p.pre, 0) + Count(p.post, 0)
    ensures var q := Disposed(p, id); Count(p.pre, id) + Count(p.post, id) == 1 ==>
      && (Hollow(p.pre, id) || Hollow(p.post, id) ==> Count(q.pre, id) + Count(q.post, id) == 1)
      && (!(Hollow(p.pre, id) || Hollow(p.post, id)) ==> Count(q.pre, id) + Count(q.post, id) == 0)
      && (Has(q.pre, id) <==> Hollow(p.pre, id))
      && Get(q.pre, id) == []
  {
    hide Count, Get, Has, Dispose, MergePass;
    HasCount(p.pre, id);
    HasCount(p.post, id);
    var q := Disposed(p, id);
    HasCount(q.pre, id);
    HasCount(q.post, id);
    DisposeLaw(p.pre, id, 0);
    DisposeLaw(p.post, id, 0);
    HasCount(Dispose(p.pre, id), id);
    HasCount(Dispose(p.post, id), id);
    CountMerge(p.pre, id);
    CountMerge(p.post, id);
    CountMerge(p.pre, 0);
    CountMerge(p.post, 0);
  }

  /** A block of the id that is still there is in front or behind. */
  lemma HollowParts(p: Place, bs: seq<Block>, id: u16)
    requires p.Placed? && p.obj.Object? && id != 0 && (p.obj.id == 0 || Has(p.pre, id))
    requires Count(p.pre, id) + Count(p.post, id) == 1 == Count(bs, id)
    requires p.obj.id == 0 ==> Others(p.Chain(), {0}) == Others(bs, {0})
    requires p.obj.id != 0 ==> Get(p.pre, id) == Get(bs, id)
    ensures Hollow(bs, id) <==> Hollow(p.pre, id) || Hollow(p.post, id)
    ensures Hollow(p.pre, id) <==> Hollow(bs, id) && Has(p.pre, id)
  {
    hide Count, Get, Has, Others;
    HasCount(p.pre, id);
    HasCount(p.post, id);
    HasCount(bs, id);
    GetFirst(p.pre, p.obj, p.post, id);
    if p.obj.id == 0 {
      SameOthersSameGet(p.Chain(), bs, {0}, id);
    }
  }

  /** The old block of the id is still around; it is in front of the new one. */
  ghost predicate Leaves(t: Place, id: u16, stale: bool, front: bool) {
    && t.Placed?
    && Count(t.pre, id) + Count(t.post, id) == (if stale then 1 else 0)
    && (Has(t.pre, id) <==> front) && Get(t.pre, id) == []
  }

  /** The first disposed block with room lies behind the old block of the id. */
  predicate HasRoomBehind(bs: seq<Block>, id: u16, h: Handler) {
    var p := Alloc(bs, 0, Provision(|h.payload| + 1));
    p.Placed? && Has(p.pre, id)
  }

  lemma MovedLaw(bs: seq<Block>, id: u16, h: Handler)
    requires Orderly(bs) && PathOf(bs, id, h).Moved?
    ensures Tidy(Target(bs, id, h), bs, id, Record(id, h))
    ensures Count(bs, id) <= 1 ==>
      Leaves(Target(bs, id, h), id, Hollow(bs, id), Hollow(bs, id) && HasRoomBehind(bs, id, h))
  {
    hide Encode, Sized, Adjacent, Others, Count, Filled, Find, Tidy, Record, Alloc, Defrag, FreeSpace, Capacity, Has,
      Get, Dispose, MergePass, Hollow;
    var want := Provision(|h.payload| + 1);
    var p := Alloc(bs, 0, want);
    RecordSize(id, h);
    CapacityHas(bs, id);
    HasCount(bs, id);
    AllocLaw(bs, 0, want, id);
    AllocLaw(bs, 0, want, 0);
    AllocFits(bs, 0, want);
    OthersAgree(p.Chain(), bs, {0}, {0, id});
    DisposedLaw(p, id);
    DisposedCounts(p, id);
    if Count(bs, id) <= 1 {
      HollowParts(p, bs, id);
    }
    var q := Disposed(p, id);
    WriteLaw(q, bs, id, Record(id, h));
    assert Target(bs, id, h) == Write(q, id, Record(id, h));
  }

  // ---------- storing after defragmentation ----------

  lemma {:induction false} SizedMove(bs: seq<Block>)
    requires CanMove(bs) && Sized(bs)
    ensures Sized(Move(bs))
  {
    if bs[0].Free? {
      assert bs[1..][1..] == bs[2..];
      assert Move(bs)[1..] == [Free(Leftover(bs[0], bs[1]))] + bs[2..] && Move(bs)[1..][1..] == bs[2..];
    } else {
      SizedMove(bs[1..]);
      assert Move(bs)[1..] == Move(bs[1..]);
    }
  }

  lemma {:induction false} SizedCompact(bs: seq<Block>)
    requires Sized(bs)
    ensures Sized(Compact(bs))
    decreases Behind(bs)
  {
    hide MergePass, Move, CanMove, Sized, Behind;
    var m := MergePass(bs);
    MergeKeepsObjects(bs);
    SizedMerge(bs);
    CompactStep(bs);
    if CanMove(m) {
      MoveProgress(m);
      SizedMove(m);
      SizedCompact(Move(m));
    }
  }

  /** Defragmentation keeps everything but the places: sizes, stored bytes and counts. */
  lemma DefragLaw(bs: seq<Block>, id: u16)
    requires Orderly(bs)
    ensures var d := Defrag(bs);
      && Sized(d) && Adjacent(d) == 0 && |Encode(d)| == |Encode(bs)|
      && Objects(d) == Objects(bs) && Others(d, {0, id}) == Others(bs, {0, id})
      && Count(d, id) == Count(bs, id) && Get(d, id) == Get(bs, id)
      && Count(d, 0) == 0
  {
    hide Encode, Sized, Others, Count, Get, Kill, MergePass, Compact, Compacted, Adjacent, Objects;
    InvDefrag(bs);
    DefragKeepsSize(bs);
    SizedKill(bs, 0);
    SizedMerge(Kill(bs, 0));
    SizedCompact(Dispose(bs, 0));
    CompactedAdjacent(Defrag(bs));
    SameObjectsSameOthers(Defrag(bs), bs, {0, id});
    SameObjectsSameOthers(Defrag(bs), bs, {-1});
    SameOthersSameGet(Defrag(bs), bs, {-1}, id);
    SameOthersSameGet(Defrag(bs), bs, {-1}, 0);
  }

  lemma FreshAfterDefragLaw(bs: seq<Block>, id: u16, h: Handler)
    requires Orderly(bs) && PathOf(bs, id, h).FreshAfterDefrag?
    ensures Tidy(Target(bs, id, h), bs, id, Record(id, h))
    ensures Leaves(Target(bs, id, h), id, false, false)
  {
    hide Encode, Sized, Adjacent, Others, Count, Filled, Find, Tidy, Record, Alloc, Defrag, FreeSpace, Capacity,
      Objects, Get;
    var want, d := Provision(|h.payload| + 1), Defrag(bs);
    var p := Alloc(d, id, want);
    RecordSize(id, h);
    NoCapacity(bs, id);
    DefragLaw(bs, id);
    AllocLaw(d, id, want, id);
    AllocLaw(d, id, want, 0);
    AllocFits(d, id, want);
    OthersAgree(p.Chain(), d, {id}, {0, id});
    WriteLaw(p, bs, id, Record(id, h));
    HasCount(p.pre, id);
  }

  /** The old block is disposed of, but nothing is written to the new one. */
  lemma LostLaw(bs: seq<Block>, id: u16, h: Handler)
    requires Orderly(bs) && PathOf(bs, id, h).Lost?
    ensures Tidy(Target(bs, id, h), bs, id, [])
    ensures Count(bs, id) <= 1 ==> Leaves(Target(bs, id, h), id, Hollow(bs, id), Hollow(bs, id))
  {
    hide Encode, Sized, Adjacent, Others, Count, Filled, Find, Record, Alloc, Defrag, FreeSpace, Capacity, Has, Get,
      Dispose, MergePass, Hollow, Objects, Body, MaxRun, Kill, NoEmptyFree;
    var want, d := Provision(|h.payload| + 1), Defrag(bs);
    var p := Alloc(d, id, want);
    CapacityHas(bs, id);
    HasCount(bs, id);
    InvDefrag(bs);
    DefragLaw(bs, id);
    AllocLaw(d, id, want, id);
    AllocLaw(d, id, want, 0);
    AllocFits(d, id, want);
    OthersAgree(p.Chain(), d, {id}, {0, id});
    OldIsInFront(bs, id, want);
    AllocBehind(d, id, want);
    DisposedLaw(p, id);
    DisposedCounts(p, id);
    OldInFrontHasData(p, bs, d, id);
    if Count(bs, id) <= 1 {
      HollowParts(p, bs, id);
    }
    var q, x := Disposed(p, id), Object(0, id, p.obj.data);
    EmptyObject(p.obj, id);
    EncodeAround(q.pre, q.obj, q.post);
    EncodeAround(q.pre, x, q.post);
    OthersExchange(q.pre, q.obj, x, q.post, {0, id});
  }

  lemma EmptyObject(o: Block, id: u16)
    requires o.Object? && |o.data| >= 5
    ensures var x := Object(0, id, o.data); SizedBlock(x) && Stored(x) == [] && |Body(x)| == |Body(o)|
  {
  }

  /** What is stored for the id is what its old block in front of the new one stores. */
  lemma OldInFrontHasData(p: Place, bs: seq<Block>, d: seq<Block>, id: u16)
    requires p.Placed? && Has(p.pre, id) && p.pre == Objects(d) && Get(d, id) == Get(bs, id)
    ensures Get(p.pre, id) == Get(bs, id)
  {
    hide Get, Others, Objects, Has;
    OthersOfObjects(d, {-1});
    SameOthersSameGet(p.pre, d, {-1}, id);
  }

  // ---------- the laws of a store ----------

  /** Every store keeps the area tiled to the same size and leaves all other ids alone, whatever
      it answers. */
  lemma StoreFrame(bs: seq<Block>, id: u16, h: Handler, other: u16)
    requires Orderly(bs) && other != id
    ensures var r := Store(bs, id, h);
      && |Encode(r.blocks)| == |Encode(bs)|
      && Get(r.blocks, other) == Get(bs, other) && Count(r.blocks, other) == Count(bs, other)
  {
    hide Encode, Others, Count, Get, Store, Tidy, Alloc, Defrag, Sized, Adjacent, Unique, Has;
    StoreByPath(bs, id, h);
    StoreSpares(bs, id, h);
    if other != 0 {
      SameOthersSameGet(Store(bs, id, h).blocks, bs, {0, id}, other);
    } else {
      HasCount(bs, 0);
      HasCount(Store(bs, id, h).blocks, 0);
    }
  }

  /** The stored bytes of the id after a store. */
  ghost function Expected(bs: seq<Block>, id: u16, h: Handler): seq<byte> {
    if PathOf(bs, id, h).Lost? then [] else Record(id, h)
  }

  lemma TargetLaw(bs: seq<Block>, id: u16, h: Handler)
    requires Orderly(bs) && Writes(PathOf(bs, id, h))
    ensures Tidy(Target(bs, id, h), bs, id, Expected(bs, id, h))
    ensures Count(bs, id) <= 1 ==> Leaves(Target(bs, id, h), id, StaleRemains(bs, id, h), StaleInFront(bs, id, h))
  {
    hide Tidy, Inv, Alloc, Defrag, Leaves, Target, Hollow, HasRoomBehind, Record;
    match PathOf(bs, id, h)
    case InPlace => InPlaceLaw(bs, id, h);
    case Fresh => FreshLaw(bs, id, h);
    case Moved => MovedLaw(bs, id, h);
    case FreshAfterDefrag => FreshAfterDefragLaw(bs, id, h);
    case Lost => LostLaw(bs, id, h);
    case _ =>
  }

  /** A hollow block of the id is not disposed of when the id gets a new block. */
  predicate StaleRemains(bs: seq<Block>, id: u16, h: Handler) {
    Hollow(bs, id) && (PathOf(bs, id, h).Moved? || PathOf(bs, id, h).Lost?)
  }

  predicate StaleInFront(bs: seq<Block>, id: u16, h: Handler) {
    Hollow(bs, id) && (PathOf(bs, id, h).Lost? || (PathOf(bs, id, h).Moved? && HasRoomBehind(bs, id, h)))
  }

  lemma StoreSpares(bs: seq<Block>, id: u16, h: Handler)
    requires Orderly(bs)
    ensures var r := Store(bs, id, h);
      && |Encode(r.blocks)| == |Encode(bs)| && Others(r.blocks, {0, id}) == Others(bs, {0, id})
      && (id != 0 ==> Count(r.blocks, 0) == 0) && (id == 0 ==> r.blocks == bs)
  {
    hide Encode, Others, Count, Store, Alloc, Defrag, Sized, Adjacent, Target, Leaves, Get;
    StoreByPath(bs, id, h);
    DefragLaw(bs, id);
    if Writes(PathOf(bs, id, h)) {
      TargetLaw(bs, id, h);
      var t := Target(bs, id, h);
      CountAround(t.pre, t.obj, t.post, 0);
    }
  }

  /** What is stored for the id afterwards: after a completed store the handler's bytes and their CRC,
      exactly unless a hollow block of the id stays in front of the new one; after a write error nothing;
      otherwise what was there before. */
  lemma StoreResult(bs: seq<Block>, id: u16, h: Handler)
    requires Orderly(bs) && Count(bs, id) <= 1
    ensures var got, path := Get(Store(bs, id, h).blocks, id), PathOf(bs, id, h);
      && (!Writes(path) ==> got == Get(bs, id))
      && (path.Lost? ==> got == [])
      && (Writes(path) && !path.Lost? ==> (got == Record(id, h) <==> !StaleInFront(bs, id, h)))
  {
    hide Encode, Others, Count, Store, Alloc, Defrag, Sized, Adjacent, Target, Get, Record, HasRoomBehind, Has, Hollow,
      Tidy;
    StoreByPath(bs, id, h);
    DefragLaw(bs, id);
    if Writes(PathOf(bs, id, h)) {
      TargetLaw(bs, id, h);
      StoredAt(Target(bs, id, h), bs, id, Expected(bs, id, h));
      RecordSize(id, h);
    }
  }

  /** A caller who is told Ok can read back what it has streamed, unless it said itself that nothing needs to be
      stored, or a hollow block of the id stays in front of the new one. */
  lemma OkMeansStored(bs: seq<Block>, id: u16, h: Handler)
    requires Orderly(bs) && Count(bs, id) <= 1 && h.dryRun != PersistingNotNeeded
    ensures Store(bs, id, h).error == CboxError.Ok ==>
      (Get(Store(bs, id, h).blocks, id) == Record(id, h) <==> !StaleInFront(bs, id, h))
  {
    hide Encode, Count, Store, Alloc, Defrag, Sized, Adjacent, Target, Get, Record, HasRoomBehind, Hollow, FreeSpace,
      Capacity;
    StoreByPath(bs, id, h);
    StoreResult(bs, id, h);
  }

  /** When a caller is told Ok: the handler says that nothing needs to be stored, or it succeeds twice and there is
      a place to write to. */
  lemma OkIff(bs: seq<Block>, id: u16, h: Handler)
    requires |Encode(bs)| < 0x10000
    ensures Store(bs, id, h).error == CboxError.Ok <==>
      && id != 0
      && (|| h.dryRun == PersistingNotNeeded
          || (var path := PathOf(bs, id, h);
              && h.dryRun == CboxError.Ok && h.final == CboxError.Ok
              && (path.InPlace? || path.Fresh? || path.Moved? || path.FreshAfterDefrag?)))
  {
    hide Encode, Store, Alloc, Defrag, Target, FreeSpace, Capacity;
    StoreByPath(bs, id, h);
  }

  lemma StoredAt(t: Place, bs: seq<Block>, id: u16, data: seq<byte>)
    requires Tidy(t, bs, id, data)
    ensures Get(t.Chain(), id) == if Has(t.pre, id) then Get(t.pre, id) else data
  {
    hide Encode, Others, Count, Sized, Adjacent, Get, Has, Stored;
    GetFirst(t.pre, t.obj, t.post, id);
  }

  // ---------- room to grow ----------

  lemma {:induction false} AllocTight(bs: seq<Block>, id: u16, want: nat)
    ensures var p := Alloc(bs, id, want); p.Placed? && p.obj.Object? ==> |p.obj.data| < want + 8
  {
    if bs != [] {
      AllocTight(bs[1..], id, want);
    }
  }

  lemma {:induction false} CapacityAt(pre: seq<Block>, o: Block, post: seq<Block>, id: u16)
    requires o.Object? && o.id == id && !Has(pre, id)
    ensures Capacity(pre + [o] + post, id) == |o.data|
  {
    if pre == [] {
      assert (pre + [o] + post)[0] == o;
    } else {
      var bs := pre + [o] + post;
      assert bs[1..] == pre[1..] + [o] + post && bs[0] == pre[0];
      CapacityAt(pre[1..], o, post, id);
    }
  }

  predicate NewBlock(p: Path) {
    p.Fresh? || p.Moved? || p.FreshAfterDefrag?
  }

  lemma WrittenSize(p: Place, id: u16, record: seq<byte>)
    ensures var q := Write(p, id, record);
      q.Placed? ==> p.Placed? && p.obj.Object? && q.obj.Object? && |q.obj.data| == |p.obj.data|
  {
  }

  lemma NewBlockSize(bs: seq<Block>, id: u16, h: Handler)
    requires Orderly(bs) && NewBlock(PathOf(bs, id, h)) && Target(bs, id, h).Placed?
    ensures var t, want := Target(bs, id, h), Provision(|h.payload| + 1);
      t.obj.Object? && want <= |t.obj.data| < want + 8
  {
    hide Encode, Alloc, Defrag, Sized, Adjacent, Count, Record, Has, Dispose, MergePass, FreeSpace, Capacity, Write;
    var want, record := Provision(|h.payload| + 1), Record(id, h);
    var p, d := Alloc(bs, 0, want), Defrag(bs);
    DefragLaw(bs, id);
    AllocFits(bs, 0, want);
    AllocTight(bs, 0, want);
    AllocFits(d, id, want);
    AllocTight(d, id, want);
    WrittenSize(p, id, record);
    WrittenSize(Alloc(d, id, want), id, record);
    if p.Placed? {
      WrittenSize(Placed(Dispose(p.pre, id), p.obj, MergePass(p.post)), id, record);
      WrittenSize(Placed(MergePass(p.pre), p.obj, Dispose(p.post, id)), id, record);
    }
  }

  /** An object that got a new block can grow by an eighth, or four bytes, before it needs another one, and not by
      eight bytes more than that. */
  lemma RoomToGrow(bs: seq<Block>, id: u16, h: Handler, more: Handler)
    requires Orderly(bs) && Count(bs, id) <= 1 && !StaleInFront(bs, id, h) && NewBlock(PathOf(bs, id, h))
    requires more.dryRun == CboxError.Ok
    ensures var size, c := |h.payload| + 1, Store(bs, id, h).blocks;
      var most := size + if size / 8 >= 4 then size / 8 else 4;
      && (|more.payload| + 1 <= most ==> PathOf(c, id, more).InPlace? && Store(c, id, more).error == more.final)
      && (|more.payload| + 1 >= most + 8 ==> !PathOf(c, id, more).InPlace?)
  {
    hide Encode, Others, Count, Store, Alloc, Defrag, Sized, Adjacent, Get, Record, Has, Hollow, FreeSpace, Capacity,
      HasRoomBehind, Target, Stored, SizedBlock;
    var c, t := Store(bs, id, h).blocks, Target(bs, id, h);
    StoreByPath(bs, id, h);
    StoreSpares(bs, id, h);
    TargetLaw(bs, id, h);
    NewBlockSize(bs, id, h);
    CapacityAt(t.pre, t.obj, t.post, id);
    StoreByPath(c, id, more);
  }

  /** Every store keeps the chain in order, whatever it answers and whatever ids have several blocks. */
  lemma StoreKeepsOrder(bs: seq<Block>, id: u16, h: Handler)
    requires Orderly(bs)
    ensures Orderly(Store(bs, id, h).blocks)
  {
    hide Encode, Others, Count, Store, Alloc, Defrag, Sized, Adjacent, Target, Get, Record, HasRoomBehind, Has, Hollow;
    var r := Store(bs, id, h).blocks;
    StoreByPath(bs, id, h);
    StoreSpares(bs, id, h);
    if Writes(PathOf(bs, id, h)) {
      TargetLaw(bs, id, h);
      var t := Target(bs, id, h);
      SizedAround(t.pre, t.obj, t.post);
      AdjacentAround(t.pre, t.obj, t.post);
    } else {
      DefragLaw(bs, id);
    }
    SomeBytes(bs);
    SomeBytes(r);
  }

  /** A store never gives a second block to an id, exactly unless its first one is hollow. */
  lemma StoreCount(bs: seq<Block>, id: u16, h: Handler)
    requires Orderly(bs) && Count(bs, id) <= 1
    ensures Count(Store(bs, id, h).blocks, id) <= 1 <==> !StaleRemains(bs, id, h)
  {
    hide Encode, Others, Count, Sized, Adjacent, Store, Alloc, Defrag, Target, Get, Record, HasRoomBehind, Has, Hollow;
    StoreByPath(bs, id, h);
    if Writes(PathOf(bs, id, h)) {
      TargetLaw(bs, id, h);
      var t := Target(bs, id, h);
      CountAround(t.pre, t.obj, t.post, id);
    } else {
      DefragLaw(bs, id);
    }
  }

  /** A store keeps the invariant, exactly unless it gives a second block to an id whose first block
      is hollow. */
  lemma StoreKeepsInv(bs: seq<Block>, id: u16, h: Handler)
    requires Inv(bs)
    ensures Inv(Store(bs, id, h).blocks) <==> !StaleRemains(bs, id, h)
  {
    hide Orderly, Encode, Others, Count, Store, StaleRemains;
    StoreKeepsOrder(bs, id, h);
    StoreCount(bs, id, h);
    StoreSpares(bs, id, h);
    NoZero(Store(bs, id, h).blocks);
    UniqueBut(Store(bs, id, h).blocks, bs, id);
  }

  lemma NoZero(bs: seq<Block>)
    requires Orderly(bs)
    ensures Count(bs, 0) == 0
  {
  }

  lemma SomeBytes(bs: seq<Block>)
    ensures bs == [] <==> |Encode(bs)| == 0
  {
  }

  lemma UniqueBut(c: seq<Block>, bs: seq<Block>, id: u16)
    requires Unique(bs) && Others(c, {0, id}) == Others(bs, {0, id}) && Count(c, 0) <= 1
    ensures Unique(c) <==> Count(c, id) <= 1
  {
    hide Others, Get;
    forall other: u16 | other != id && other != 0
      ensures Count(c, other) <= 1
    {
      SameOthersSameGet(c, bs, {0, id}, other);
    }
  }

  // ---------- going on after a power cut ----------

  /** A store in any chain on which defragmentation is right, as a power cut may have left it: the area stays
      tiled, and no object but those of the id and half-made ones changes. */
  lemma StoreGoesOn(c: seq<Block>, id: u16, h: Handler)
    requires |Encode(c)| < 0x10000 && Defragmentable(c)
    ensures var r := Store(c, id, h);
      |Encode(r.blocks)| == |Encode(c)| && Others(r.blocks, {0, id}) == Others(c, {0, id})
  {
    hide Encode, Others, Store, Defrag, Alloc, Target, Defragmentable, FreeSpace, Capacity;
    StoreByPath(c, id, h);
    DefragSpares(c, id);
    DefragKeepsSize(c);
    if Writes(PathOf(c, id, h)) {
      TargetSpares(c, id, h);
    }
  }

  lemma TargetSpares(c: seq<Block>, id: u16, h: Handler)
    requires |Encode(c)| < 0x10000 && Defragmentable(c) && Writes(PathOf(c, id, h)) && Target(c, id, h).Placed?
    ensures var t := Target(c, id, h);
      |Encode(t.Chain())| == |Encode(c)| && Others(t.Chain(), {0, id}) == Others(c, {0, id})
  {
    hide Encode, Others, Defrag, Alloc, Defragmentable, FreeSpace, Filled, Record, Dispose, MergePass, Has;
    var want, record := Provision(|h.payload| + 1), Record(id, h);
    RecordSize(id, h);
    match PathOf(c, id, h)
    case InPlace =>
      var k := Find(c, id);
      FindFacts(c, id);
      FilledSpares(c[..k], c[k], c[k + 1..], id, record);
    case Fresh =>
      AllocFits(c, 0, want);
      var p := Alloc(c, 0, want);
      OthersAgree(p.Chain(), c, {0}, {0, id});
      FilledSpares(p.pre, p.obj, p.post, id, record);
    case Moved =>
      AllocFits(c, 0, want);
      var p := Alloc(c, 0, want);
      OthersAgree(p.Chain(), c, {0}, {0, id});
      DisposedSpares(p, id);
      var q := Disposed(p, id);
      FilledSpares(q.pre, q.obj, q.post, id, record);
    case FreshAfterDefrag =>
      var p := DefragPlace(c, id, want);
      FilledSpares(p.pre, p.obj, p.post, id, record);
    case Lost =>
      var p := DefragPlace(c, id, want);
      CapacityHas(c, id);
      DefragIff(c);
      OldIsInFront(c, id, want);
      DisposedSpares(p, id);
      var q := Disposed(p, id);
      EmptySpares(q.pre, q.obj, q.post, id);
    case _ =>
  }

  lemma DefragPlace(c: seq<Block>, id: u16, want: nat) returns (p: Place)
    requires |Encode(c)| < 0x10000 && Alloc(Defrag(c), id, want).Placed?
    ensures p == Alloc(Defrag(c), id, want) && p.obj.Object? && p.obj.id == id && |p.obj.data| >= want
    ensures |Encode(p.Chain())| == |Encode(c)| && Others(p.Chain(), {0, id}) == Others(c, {0, id})
  {
    hide Encode, Others, Defrag, Alloc;
    p := Alloc(Defrag(c), id, want);
    DefragSpares(c, id);
    DefragKeepsSize(c);
    AllocFits(Defrag(c), id, want);
    OthersAgree(p.Chain(), Defrag(c), {id}, {0, id});
  }

  lemma DisposedSpares(p: Place, id: u16)
    requires p.Placed? && p.obj.Object? && (p.obj.id != id || Has(p.pre, id))
    ensures var q := Disposed(p, id);
      |Encode(q.Chain())| == |Encode(p.Chain())| && Others(q.Chain(), {0, id}) == Others(p.Chain(), {0, id})
  {
    hide Encode, Others, Has, Kill, MergePass;
    DisposeAround(p.pre, p.obj, p.post, id);
    assert Disposed(p, id).Chain() == Dispose(p.Chain(), id);
    DisposeKeepsSize(p.Chain(), id);
    DisposeSpares(p.Chain(), id);
  }

  lemma FilledSpares(pre: seq<Block>, o: Block, post: seq<Block>, id: u16, record: seq<byte>)
    requires o.Object? && (o.id == 0 || o.id == id) && |record| <= |o.data|
    ensures var was, now := pre + [o] + post, pre + [Filled(o, id, record)] + post;
      |Encode(now)| == |Encode(was)| && Others(now, {0, id}) == Others(was, {0, id})
  {
    var x := Filled(o, id, record);
    assert |Body(x)| == |Body(o)|;
    hide Encode, Others, Body, Filled;
    EncodeAround(pre, o, post);
    EncodeAround(pre, x, post);
    OthersExchange(pre, o, x, post, {0, id});
  }

  lemma EmptySpares(pre: seq<Block>, o: Block, post: seq<Block>, id: u16)
    requires o.Object? && (o.id == 0 || o.id == id)
    ensures var was, now := pre + [o] + post, pre + [Object(0, id, o.data)] + post;
      |Encode(now)| == |Encode(was)| && Others(now, {0, id}) == Others(was, {0, id})
  {
    var x := Object(0, id, o.data);
    assert |Body(x)| == |Body(o)|;
    hide Encode, Others, Body;
    EncodeAround(pre, o, post);
    EncodeAround(pre, x, post);
    OthersExchange(pre, o, x, post, {0, id});
  }

  // ---------- free space ----------

  lemma {:induction false} FreeBytesConserved(bs: seq<Block>)
    ensures FreeBytes(bs) + |Encode(Objects(bs))| == |Encode(bs)|
  {
    hide Body;
    if bs != [] {
      FreeBytesConserved(bs[1..]);
      if bs[0].Object? {
        assert Objects(bs)[1..] == Objects(bs[1..]);
      } else {
        FreeBody(bs[0].junk);
      }
    }
  }

  lemma {:induction false} ObjectsHaveNoFreeBytes(bs: seq<Block>)
    ensures FreeBytes(Objects(bs)) == 0
  {
    if bs != [] {
      ObjectsHaveNoFreeBytes(bs[1..]);
      if bs[0].Object? {
        assert Objects(bs)[1..] == Objects(bs[1..]);
      }
    }
  }

  lemma {:induction false} FreeBytesConcat(a: seq<Block>, b: seq<Block>)
    ensures FreeBytes(a + b) == FreeBytes(a) + FreeBytes(b)
  {
    if a == [] {
      assert a + b == b;
    } else {
      assert (a + b)[1..] == a[1..] + b && (a + b)[0] == a[0];
      FreeBytesConcat(a[1..], b);
    }
  }

  /** After defragmentation a request fits exactly when all free bytes together, headers included,
      are enough for the object and its header. */
  lemma RoomAfterDefrag(bs: seq<Block>, id: u16, want: nat)
    requires Orderly(bs)
    ensures Alloc(Defrag(bs), id, want).Placed? <==> FreeBytes(bs) >= want + 7
  {
    hide Encode, Objects, FreeBytes, Defrag, Compacted, Sized, Count, Unique, Adjacent, Carve, MaxRun, Kill,
      NoEmptyFree, Others, Get;
    var d := Defrag(bs);
    InvDefrag(bs);
    DefragLaw(bs, id);
    FreeBytesConserved(bs);
    FreeBytesConserved(d);
    CompactedRoom(d, id, want);
  }

  lemma CompactedRoom(d: seq<Block>, id: u16, want: nat)
    requires Compacted(d)
    ensures Alloc(d, id, want).Placed? <==> FreeBytes(d) >= want + 7
  {
    hide Carve, FreeBytes, Objects;
    var n := |Objects(d)|;
    ObjectsAreObjects(d);
    ObjectsHaveNoFreeBytes(d);
    assert d[..n] == Objects(d);
    AllocSkips(d, n, id, want);
    FreeBytesConcat(d[..n], d[n..]);
    assert d == d[..n] + d[n..];
    if d == Objects(d) {
      assert d[n..] == [];
      LastBlock([], id, want);
    } else {
      assert d[n..] == [d[n]];
      LastBlock(d[n..], id, want);
    }
  }

  lemma LastBlock(bs: seq<Block>, id: u16, want: nat)
    requires bs == [] || (|bs| == 1 && bs[0].Free?)
    ensures Alloc(bs, id, want).Placed? <==> FreeBytes(bs) >= want + 7
  {
    if bs != [] {
      assert bs[1..] == [];
      assert Alloc(bs[1..], id, want) == NoRoom;
      assert FreeBytes(bs) == 3 + |bs[0].junk| + FreeBytes(bs[1..]);
    }
  }

  lemma {:induction false} LastCounts(bs: seq<Block>)
    requires bs != [] && bs[|bs| - 1].Free?
    ensures FreeBytes(bs) >= 3
  {
    if |bs| > 1 {
      LastCounts(bs[1..]);
    }
  }

  lemma FreeSpaceCounts(bs: seq<Block>)
    requires bs != []
    ensures FreeSpace(bs) == if FreeBytes(bs) == 0 then 0
                             else FreeBytes(bs) - 3 + (if bs[|bs| - 1].Free? then 0 else 3)
  {
    if bs[|bs| - 1].Free? {
      LastCounts(bs);
    }
  }

  /** The reported free space is the size of the one disposed block that defragmentation leaves at the
      end, plus one header that is counted too often when the chain has a disposed block but ends in an
      object. It is zero when there is no disposed block. */
  lemma FreeSpaceLaw(bs: seq<Block>)
    requires Orderly(bs)
    ensures var d := Defrag(bs);
      if FreeBytes(bs) == 0 then d == Objects(bs) && FreeSpace(bs) == 0
      else
        && d != [] && d[|d| - 1].Free? && d == Objects(bs) + [d[|d| - 1]]
        && FreeSpace(bs) == |d[|d| - 1].junk| + (if bs[|bs| - 1].Free? then 0 else 3)
  {
    hide Encode, Sized, Count, Adjacent, Defrag, Objects, FreeBytes, FreeSpace, MaxRun, NoEmptyFree, Others, Get, Kill;
    var d := Defrag(bs);
    InvDefrag(bs);
    DefragLaw(bs, 1);
    FreeBytesConserved(bs);
    FreeBytesConserved(d);
    FreeSpaceCounts(bs);
    ObjectsHaveNoFreeBytes(bs);
    if d != Objects(d) {
      FreeBytesConcat(Objects(d), [d[|d| - 1]]);
      OneBlockFree(d[|d| - 1]);
    }
  }

  lemma OneBlockFree(b: Block)
    requires b.Free?
    ensures FreeBytes([b]) == 3 + |b.junk|
  {
    assert [b][1..] == [];
  }

  /** The check before defragmentation is right when the chain ends in a disposed block or has
      none; it can only be passed in vain when the chain ends in an object and the request exceeds
      the real free space by at most one header. */
  lemma CheckedInVain(bs: seq<Block>, id: u16, h: Handler)
    requires Orderly(bs)
    ensures PathOf(bs, id, h).FullAfterDefrag? <==>
      var want := Provision(|h.payload| + 1);
      && id != 0 && h.dryRun == CboxError.Ok && |h.payload| + 1 > Capacity(bs, id) && Alloc(bs, 0, want).NoRoom?
      && bs[|bs| - 1].Object? && want + 4 <= FreeBytes(bs) < want + 7
  {
    hide Encode, FreeBytes, Defrag, Sized, Count, Unique, Adjacent, Alloc, FreeSpace, Capacity;
    FreeSpaceCounts(bs);
    RoomAfterDefrag(bs, id, Provision(|h.payload| + 1));
  }
}
