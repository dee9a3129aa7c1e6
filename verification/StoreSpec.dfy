/**
 What the public operations of the object store do to a chain of blocks, and which answer they
 give. The imperative store is proved to agree with these functions; the laws about them are in
 StoreLaws.dfy.
 */
module StoreSpec {
  import opened Bytes
  import opened Blocks
  import Crc8

  datatype CboxError =
    | Ok
    | PersistingNotNeeded
    | InvalidObjectId
    | InsufficientPersistentStorage
    | PersistedObjectNotFound
    | PersistedStorageWriteError
    | InvalidPersistedBlockType
    | PersistedBlockStreamError
    | Other(code: nat)

  /** A callable that streams an object. It streams the same bytes in the test run that counts
      them and in the run that stores them, but may report different results. */
  datatype Handler = Handler(payload: seq<byte>, dryRun: CboxError, final: CboxError)

  /** The CRC byte behind the data: over the id and the data, spoiled when the handler fails. */
  function CrcByte(id: u16, h: Handler): byte {
    var crc := Crc8.Fold(Crc8.Fold(0, U16(id)), h.payload);
    if h.final == Ok then crc else Crc8.Invalidated(crc)
  }

  /** The bytes that a successful store leaves behind for an id. */
  function Record(id: u16, h: Handler): seq<byte> {
    h.payload + [CrcByte(id, h)]
  }

  /** Data size with room to grow: 4 bytes or an eighth more. */
  function Provision(size: nat): nat {
    size + Max(size / 8, 4)
  }

  /** The code computes sizes in 16 bits. A caller must not stream more than fits. */
  predicate InRange(h: Handler) {
    Provision(|h.payload| + 1) + OBJECT_HEADER < 0x10000
  }

  /** An object block that has been filled with `record` from the start of its data. */
  function Filled(o: Block, id: u16, record: seq<byte>): Block
    requires o.Object? && |record| <= |o.data|
  {
    Object(|record| % 0x10000, id, record + o.data[|record|..])
  }

  datatype Outcome = Outcome(blocks: seq<Block>, error: CboxError)

  function Capacity(bs: seq<Block>, id: u16): nat {
    var k := Find(bs, id);
    if k < |bs| then |bs[k].data| else 0
  }

  lemma CapacityHas(bs: seq<Block>, id: u16)
    ensures Capacity(bs, id) > 0 ==> Has(bs, id)
  {
  }

  function Store(bs: seq<Block>, id: u16, h: Handler): Outcome {
    if id == 0 then Outcome(bs, InvalidObjectId)
    else if h.dryRun == PersistingNotNeeded then Outcome(bs, Ok)
    else if h.dryRun != Ok then Outcome(bs, h.dryRun)
    else if |h.payload| + 1 <= Capacity(bs, id) then Outcome(Overwrite(bs, id, Record(id, h)), h.final)
    else Allocate(bs, id, h)
  }

  function Overwrite(bs: seq<Block>, id: u16, record: seq<byte>): seq<Block>
    requires |record| <= Capacity(bs, id) && Capacity(bs, id) > 0
  {
    var k := Find(bs, id);
    bs[..k] + [Filled(bs[k], id, record)] + bs[k + 1..]
  }

  /** Store in a new block. The old block, if any, is disposed of before the data is written. */
  function Allocate(bs: seq<Block>, id: u16, h: Handler): Outcome {
    var want := Provision(|h.payload| + 1);
    var relocate := Capacity(bs, id) > 0;
    match Alloc(bs, 0, want)
    case Placed(pre, o, post) =>
      Outcome(if relocate then Replace(pre, o, post, id, Record(id, h)) else Fill(pre, o, post, id, Record(id, h)),
        h.final)
    case NoRoom =>
      if FreeSpace(bs) < want + 4 then Outcome(bs, InsufficientPersistentStorage)
      else match Alloc(Defrag(bs), id, want)
        case NoRoom => Outcome(Defrag(bs), InsufficientPersistentStorage)
        case Placed(pre, o, post) =>
          if relocate then Outcome(LoseData(pre, o, post, id), PersistedStorageWriteError)
          else Outcome(Fill(pre, o, post, id, Record(id, h)), h.final)
  }

  function Fill(pre: seq<Block>, o: Block, post: seq<Block>, id: u16, record: seq<byte>): seq<Block> {
    if o.Object? && |record| <= |o.data| then pre + [Filled(o, id, record)] + post else pre + [o] + post
  }

  /** Dispose of the old block of the id, which lies before or behind the new one. */
  function Replace(pre: seq<Block>, o: Block, post: seq<Block>, id: u16, record: seq<byte>): seq<Block> {
    if Has(pre, id) then Fill(Dispose(pre, id), o, MergePass(post), id, record)
    else Fill(MergePass(pre), o, Dispose(post, id), id, record)
  }

  /** A relocation that had to defragment disposes of the old block, but its writer has no room
      left: the new block stays without stored bytes. */
  function LoseData(pre: seq<Block>, o: Block, post: seq<Block>, id: u16): seq<Block> {
    if o.Object? then Dispose(pre, id) + [Object(0, id, o.data)] + MergePass(post) else pre + [o] + post
  }

  /** What a loader sees: the stored bytes of every object, in the order of the blocks. */
  function Listing(bs: seq<Block>): seq<(u16, seq<byte>)> {
    if bs == [] then [] else ListingOne(bs[0]) + Listing(bs[1..])
  }

  function ListingOne(b: Block): seq<(u16, seq<byte>)> {
    if b.Object? then [(b.id, Stored(b))] else []
  }

  lemma {:induction false} ListingConcat(a: seq<Block>, b: seq<Block>)
    ensures Listing(a + b) == Listing(a) + Listing(b)
  {
    hide ListingOne;
    if a == [] {
      assert a + b == b;
    } else {
      assert (a + b)[1..] == a[1..] + b;
      ListingConcat(a[1..], b);
    }
  }

  /** An object block separates two stretches of a chain for disposing and merging. */
  lemma {:induction false} MergeSeparates(pre: seq<Block>, o: Block, post: seq<Block>)
    requires o.Object?
    ensures MergePass(pre + [o] + post) == MergePass(pre) + [o] + MergePass(post)
  {
    var bs := pre + [o] + post;
    if pre == [] {
      assert bs[1..] == post;
      MergeSingle(bs);
    } else if |pre| >= 2 && pre[0].Free? && pre[1].Free? {
      assert bs[2..] == pre[2..] + [o] + post;
      MergeSeparates(pre[2..], o, post);
      PrependTwo([Merged(pre[0], pre[1])], MergePass(pre[2..]), o, MergePass(post));
    } else {
      assert bs[1..] == pre[1..] + [o] + post;
      MergeSeparates(pre[1..], o, post);
      MergeSingle(bs);
      MergeSingle(pre);
      PrependTwo([pre[0]], MergePass(pre[1..]), o, MergePass(post));
    }
  }

  lemma PrependTwo(x: seq<Block>, a: seq<Block>, o: Block, b: seq<Block>)
    ensures x + (a + [o] + b) == (x + a) + [o] + b
  {
  }

  lemma {:induction false} HasConcat(a: seq<Block>, b: seq<Block>, id: u16)
    ensures Has(a + b, id) <==> Has(a, id) || Has(b, id)
  {
    if a == [] {
      assert a + b == b;
    } else {
      assert (a + b)[1..] == a[1..] + b && (a + b)[0] == a[0];
      HasConcat(a[1..], b, id);
    }
  }

  lemma {:induction false} KillConcat(a: seq<Block>, b: seq<Block>, id: u16)
    ensures Kill(a + b, id) == if Has(a, id) then Kill(a, id) + b else a + Kill(b, id)
  {
    hide Kill, Has, Body, Stored;
    if a == [] {
      HasNone(id);
      assert a + b == b && a + Kill(b, id) == Kill(b, id);
    } else {
      assert (a + b)[1..] == a[1..] + b && (a + b)[0] == a[0];
      KillStep(a + b, id);
      KillStep(a, id);
      if a[0].Object? && a[0].id == id {
        assert [Free(Body(a[0]))] + (a[1..] + b) == [Free(Body(a[0]))] + a[1..] + b;
      } else {
        KillConcat(a[1..], b, id);
        OneBefore(a, Kill(a[1..], id), b, Kill(b, id));
      }
    }
  }

  lemma OneBefore(a: seq<Block>, x: seq<Block>, b: seq<Block>, y: seq<Block>)
    requires a != []
    ensures [a[0]] + (x + b) == [a[0]] + x + b && [a[0]] + (a[1..] + y) == a + y
  {
  }

  lemma HasNone(id: u16)
    ensures !Has([], id)
  {
  }

  lemma KillSeparates(pre: seq<Block>, o: Block, post: seq<Block>, id: u16)
    requires o.Object? ==> o.id != id || Has(pre, id)
    ensures Kill(pre + [o] + post, id)
      == if Has(pre, id) then Kill(pre, id) + [o] + post else pre + [o] + Kill(post, id)
  {
    hide Kill, Has;
    assert pre + [o] + post == pre + ([o] + post);
    KillConcat(pre, [o] + post, id);
    if Has(pre, id) {
      assert Kill(pre, id) + ([o] + post) == Kill(pre, id) + [o] + post;
    } else {
      assert ([o] + post)[1..] == post;
      KillStep([o] + post, id);
      assert pre + ([o] + Kill(post, id)) == pre + [o] + Kill(post, id);
    }
  }

  lemma KillStep(bs: seq<Block>, id: u16)
    requires bs != []
    ensures Kill(bs, id) ==
      if bs[0].Object? && bs[0].id == id then (if Stored(bs[0]) == [] then bs else [Free(Body(bs[0]))] + bs[1..])
      else [bs[0]] + Kill(bs[1..], id)
    ensures Has(bs, id) <==> (bs[0].Object? && bs[0].id == id) || Has(bs[1..], id)
  {
    hide Body, Stored;
  }

  lemma {:induction false} MergeKeepsSize(bs: seq<Block>)
    ensures |Encode(MergePass(bs))| == |Encode(bs)|
  {
    if |bs| >= 2 {
      hide Body;
      if bs[0].Free? && bs[1].Free? {
        hide MergePass, EncodeBlock;
        MergeKeepsSize(bs[2..]);
        assert bs[1..][1..] == bs[2..];
        MergePair(bs);
      } else {
        MergeKeepsSize(bs[1..]);
        MergeSingle(bs);
        assert MergePass(bs)[1..] == MergePass(bs[1..]);
      }
    }
  }

  lemma MergePair(bs: seq<Block>)
    requires |bs| >= 2 && bs[0].Free? && bs[1].Free?
    ensures MergePass(bs) == [Merged(bs[0], bs[1])] + MergePass(bs[2..])
    ensures |EncodeBlock(Merged(bs[0], bs[1]))| == |EncodeBlock(bs[0])| + |EncodeBlock(bs[1])|
    ensures MergePass(bs)[1..] == MergePass(bs[2..])
  {
  }

  lemma {:induction false} KillKeepsSize(bs: seq<Block>, id: u16)
    ensures |Encode(Kill(bs, id))| == |Encode(bs)|
  {
    hide Stored;
    if bs != [] {
      if bs[0].Object? && bs[0].id == id {
        if Kill(bs, id) != bs {
          assert ([Free(Body(bs[0]))] + bs[1..])[1..] == bs[1..];
        }
      } else {
        hide Body;
        KillKeepsSize(bs[1..], id);
        assert Kill(bs, id)[1..] == Kill(bs[1..], id);
      }
    }
  }

  /** Disposing keeps a new object block where it is. */
  lemma DisposeAround(pre: seq<Block>, o: Block, post: seq<Block>, id: u16)
    requires o.Object? && (o.id != id || Has(pre, id))
    ensures Dispose(pre + [o] + post, id)
      == if Has(pre, id) then Dispose(pre, id) + [o] + MergePass(post) else MergePass(pre) + [o] + Dispose(post, id)
    ensures |Encode(Dispose(pre, id))| == |Encode(MergePass(pre))| == |Encode(pre)|
  {
    hide Kill, MergePass, Has, Encode;
    KillSeparates(pre, o, post, id);
    MergeSeparates(Kill(pre, id), o, post);
    MergeSeparates(pre, o, Kill(post, id));
    MergeKeepsSize(Kill(pre, id));
    MergeKeepsSize(pre);
    KillKeepsSize(pre, id);
  }

  lemma DisposeSpares(bs: seq<Block>, id: u16)
    ensures Others(Dispose(bs, id), {0, id}) == Others(bs, {0, id})
  {
    hide Others, Kill, MergePass, Objects;
    KillSpares(bs, id);
    MergeKeepsObjects(Kill(bs, id));
    SameObjectsSameOthers(Dispose(bs, id), Kill(bs, id), {0, id});
    OthersAgree(Kill(bs, id), bs, {id}, {0, id});
  }

  lemma DefragSpares(bs: seq<Block>, id: u16)
    ensures Others(Defrag(bs), {0, id}) == Others(bs, {0, id})
  {
    hide Others, Kill, MergePass, Compact, Objects;
    MergeKeepsObjects(Kill(bs, 0));
    CompactKeepsObjects(Dispose(bs, 0));
    KillSpares(bs, 0);
    SameObjectsSameOthers(Defrag(bs), Kill(bs, 0), {0, id});
    OthersAgree(Kill(bs, 0), bs, {0}, {0, id});
  }

  /** An allocated block has the id and the room that were asked for; nothing else changes but
      disposed blocks. */
  lemma {:induction false} AllocFits(bs: seq<Block>, id: u16, want: nat)
    requires |Encode(bs)| < 0x10000
    ensures match Alloc(bs, id, want)
      case NoRoom => true
      case Placed(pre, o, post) =>
        && o.Object? && o.id == id && |o.data| >= want && o.used == |o.data|
        && Others(pre + [o] + post, {id}) == Others(bs, {id})
        && |Encode(pre + [o] + post)| == |Encode(bs)|
  {
    hide Carve, EncodeBlock;
    if bs != [] {
      if bs[0].Free? && |bs[0].junk| >= want + 4 {
        CarveFits(bs[0], id, want, bs[1..]);
      } else {
        AllocFits(bs[1..], id, want);
        var p := Alloc(bs[1..], id, want);
        if p.Placed? {
          PutBefore(bs[0], p.pre, p.obj, p.post);
        }
      }
    }
  }

  /** What allocation takes: the first disposed block with room. */
  lemma {:induction false} AllocShape(bs: seq<Block>, id: u16, want: nat) returns (f: Block, rest: seq<Block>)
    requires Alloc(bs, id, want).Placed? && |Encode(bs)| < 0x10000
    ensures var p := Alloc(bs, id, want);
      && bs == p.pre + [f] + rest && f.Free? && p.obj.Object? && p.obj.id == id
      && want <= |p.obj.data| == p.obj.used
      && (p.post == rest || (p.post != [] && p.post == [p.post[0]] + rest && p.post[0].Free? && |p.post[0].junk| >= 5))
      && |Encode(p.pre + [p.obj] + p.post)| == |Encode(bs)|
  {
    AllocFits(bs, id, want);
    hide Encode, Alloc, Others;
    if bs[0].Free? && |bs[0].junk| >= want + 4 {
      f, rest := bs[0], bs[1..];
      CarveShape(bs, id, want);
    } else {
      AllocTail(bs, id, want);
      f, rest := AllocShape(bs[1..], id, want);
      Prepend(bs, Alloc(bs[1..], id, want).pre, f, rest);
    }
  }

  lemma CarveShape(bs: seq<Block>, id: u16, want: nat)
    requires bs != [] && bs[0].Free? && |bs[0].junk| >= want + 4
    ensures var p, rest := Alloc(bs, id, want), bs[1..];
      && bs == p.pre + [bs[0]] + rest
      && (p.post == rest || (p.post != [] && p.post == [p.post[0]] + rest && p.post[0].Free? && |p.post[0].junk| >= 5))
  {
    var p := Alloc(bs, id, want);
    assert p == Carve(bs[0].junk, id, want, bs[1..]);
  }

  lemma Prepend(bs: seq<Block>, pre: seq<Block>, f: Block, rest: seq<Block>)
    requires bs != [] && bs[1..] == pre + [f] + rest
    ensures bs == ([bs[0]] + pre) + [f] + rest
  {
  }

  lemma AllocTail(bs: seq<Block>, id: u16, want: nat)
    requires bs != [] && !(bs[0].Free? && |bs[0].junk| >= want + 4)
    ensures var p, q := Alloc(bs, id, want), Alloc(bs[1..], id, want);
      && (p.Placed? <==> q.Placed?)
      && (p.Placed? ==> p.pre == [bs[0]] + q.pre && p.obj == q.obj && p.post == q.post)
    ensures |Encode(bs[1..])| < |Encode(bs)|
  {
  }

  lemma PutBefore(b: Block, pre: seq<Block>, o: Block, post: seq<Block>)
    ensures ([b] + pre) + [o] + post == [b] + (pre + [o] + post)
    ensures ([b] + (pre + [o] + post))[1..] == pre + [o] + post
  {
  }

  /** A new block at the front of a chain fills exactly the disposed block that was there. */
  lemma CarveFits(f: Block, id: u16, want: nat, rest: seq<Block>)
    requires f.Free? && |f.junk| >= want + 4 && |Encode([f] + rest)| < 0x10000
    ensures var p := Carve(f.junk, id, want, rest);
      && p.Placed? && p.obj.Object? && p.obj.id == id && |p.obj.data| >= want && p.obj.used == |p.obj.data|
      && Others(p.pre + [p.obj] + p.post, {id}) == Others([f] + rest, {id})
      && |Encode(p.pre + [p.obj] + p.post)| == |Encode([f] + rest)|
  {
    hide Others, Encode, EncodeBlock;
    var p := Carve(f.junk, id, want, rest);
    FrontSize(f, rest);
    FrontOthers(f, rest, id);
    var o := p.obj;
    assert [] + [o] == [o];
    if |f.junk| < want + 12 {
      FrontSize(o, rest);
      FrontOthers(o, rest, id);
      assert p.pre + [o] + p.post == [o] + rest;
    } else {
      var t := Free(f.junk[want + 7..]);
      FrontSize(t, rest);
      FrontOthers(t, rest, id);
      FrontSize(o, [t] + rest);
      FrontOthers(o, [t] + rest, id);
      assert p.pre + [o] + p.post == [o] + ([t] + rest);
    }
  }

  lemma FrontSize(b: Block, rest: seq<Block>)
    ensures |Encode([b] + rest)| == (if b.Free? then 3 + |b.junk| else 7 + |b.data|) + |Encode(rest)|
  {
    assert ([b] + rest)[1..] == rest;
  }

  lemma FrontOthers(b: Block, rest: seq<Block>, id: u16)
    requires b.Free? || b.id == id
    ensures Others([b] + rest, {id}) == Others(rest, {id})
  {
    assert ([b] + rest)[1..] == rest;
  }

  lemma {:induction false} HasObjects(bs: seq<Block>, id: u16)
    ensures Has(Objects(bs), id) == Has(bs, id)
  {
    if bs != [] {
      HasObjects(bs[1..], id);
      if bs[0].Object? {
        assert ([bs[0]] + Objects(bs[1..]))[1..] == Objects(bs[1..]);
      }
    }
  }

  lemma {:induction false} KillKeepsOther(bs: seq<Block>, id: u16, other: u16)
    requires id != other
    ensures Has(Kill(bs, id), other) == Has(bs, other)
    ensures Get(Kill(bs, id), other) == Get(bs, other)
  {
    hide Body, Stored;
    if bs != [] {
      if bs[0].Object? && bs[0].id == id {
        KilledFirst(bs, id, other);
      } else {
        KillKeepsOther(bs[1..], id, other);
        assert Kill(bs, id)[1..] == Kill(bs[1..], id);
      }
    }
  }

  lemma KilledFirst(bs: seq<Block>, id: u16, other: u16)
    requires id != other && bs != [] && bs[0].Object? && bs[0].id == id
    ensures Has(Kill(bs, id), other) == Has(bs, other)
    ensures Get(Kill(bs, id), other) == Get(bs, other)
  {
    hide Body, Stored;
    var f := Free(Body(bs[0]));
    assert ([f] + bs[1..])[1..] == bs[1..];
    assert Find(bs, other) == 1 + Find(bs[1..], other);
    if Kill(bs, id) != bs {
      assert Find([f] + bs[1..], other) == 1 + Find(bs[1..], other);
    }
  }

  /** In a compacted chain new blocks go behind all objects. */
  lemma AllocBehind(bs: seq<Block>, id: u16, want: nat)
    requires Compacted(bs)
    ensures var p := Alloc(bs, id, want); p.Placed? ==> p.pre == Objects(bs) && Objects(p.post) == []
  {
    var objects, n := Objects(bs), |Objects(bs)|;
    ObjectsAreObjects(bs);
    assert bs[..n] == objects;
    AllocSkips(bs, n, id, want);
    if bs == objects {
      assert bs[n..] == [];
    } else {
      assert bs[n..] == [bs[n]];
      assert [bs[n]][1..] == [];
      var p := Alloc(bs[n..], id, want);
      if p.Placed? {
        assert p == Carve(bs[n].junk, id, want, []);
        assert p.pre == [] && objects + [] == objects;
        assert Objects([]) == [];
        if p.post != [] {
          assert p.post == [p.post[0]] && p.post[0].Free? && p.post[1..] == [];
        }
      }
    }
  }

  /** When all objects lie in front of the disposed blocks, a new block goes behind all of them. */
  lemma {:induction false} AllocPasses(bs: seq<Block>, owner: u16, id: u16, want: nat)
    requires Behind(bs) == 0 && Has(bs, owner)
    ensures var p := Alloc(bs, id, want); p.Placed? ==> Has(p.pre, owner)
  {
    hide Carve;
    if bs != [] {
      if bs[0].Free? {
        HasObjects(bs[1..], owner);
      } else {
        var p := Alloc(bs[1..], id, want);
        if p.Placed? && !(bs[0].id == owner) {
          AllocPasses(bs[1..], owner, id, want);
        }
        assert p.Placed? ==> ([bs[0]] + p.pre)[1..] == p.pre;
      }
    }
  }

  /** When a relocation had to defragment, the old block lies in front of the new one. */
  lemma OldIsInFront(bs: seq<Block>, id: u16, want: nat)
    requires id != 0 && Has(bs, id) && Behind(Defrag(bs)) == 0
    ensures var p := Alloc(Defrag(bs), id, want); p.Placed? ==> Has(p.pre, id)
  {
    hide Compact, Kill, MergePass, Alloc, Objects, Has, Get, Behind;
    MergeKeepsObjects(Kill(bs, 0));
    CompactKeepsObjects(Dispose(bs, 0));
    KillKeepsOther(bs, 0, id);
    HasObjects(Kill(bs, 0), id);
    HasObjects(Defrag(bs), id);
    AllocPasses(Defrag(bs), id, id, want);
  }
}
