/**
 What a power cut in a defragmentation leaves behind. An object that is being moved cannot be read until its header
 stands in front: so a defragmentation is without risk exactly when every object that it moves has nothing to lose.
 */
module DefragCuts {
  import opened Bytes
  import opened Blocks
  import opened StoreSpec
  import opened DisposedRuns
  import opened StoreLaws
  import opened AllocationCuts

  /** The objects behind the first disposed block. Each round of a defragmentation moves the first of them. */
  function Movers(bs: seq<Block>): seq<Block> {
    if bs == [] then [] else if bs[0].Free? then Objects(bs[1..]) else Movers(bs[1..])
  }

  lemma {:induction false} MoversCount(bs: seq<Block>)
    ensures |Movers(bs)| == Behind(bs)
  {
    if bs != [] && bs[0].Object? {
      MoversCount(bs[1..]);
    }
  }

  lemma {:induction false} MoversMerge(bs: seq<Block>)
    ensures Movers(MergePass(bs)) == Movers(bs)
  {
    if |bs| >= 2 {
      var m := MergePass(bs);
      if bs[0].Free? && bs[1].Free? {
        MergeKeepsObjects(bs[2..]);
        assert bs[1..][1..] == bs[2..] && m[1..] == MergePass(bs[2..]);
      } else {
        MoversMerge(bs[1..]);
        MergeKeepsObjects(bs[1..]);
        assert m[1..] == MergePass(bs[1..]);
      }
    }
  }

  lemma {:induction false} MoversAt(pre: seq<Block>, f: Block, rest: seq<Block>)
    requires f.Free? && forall j :: 0 <= j < |pre| ==> pre[j].Object?
    ensures Movers(pre + [f] + rest) == Objects(rest)
  {
    var bs := pre + [f] + rest;
    if pre == [] {
      assert bs[1..] == rest;
    } else {
      MoversAt(pre[1..], f, rest);
      assert bs[1..] == pre[1..] + [f] + rest;
    }
  }

  /** A move takes the first of them away. */
  lemma MoversMove(pre: seq<Block>, f: Block, o: Block, g: Block, post: seq<Block>)
    requires f.Free? && o.Object? && g.Free? && forall j :: 0 <= j < |pre| ==> pre[j].Object?
    ensures Movers(pre + [f, o] + post) == [o] + Movers(pre + [o, g] + post)
  {
    hide Movers;
    assert pre + [f, o] + post == pre + [f] + ([o] + post) && pre + [o, g] + post == (pre + [o]) + [g] + post;
    MoversAt(pre, f, [o] + post);
    MoversAt(pre + [o], g, post);
    assert ([o] + post)[1..] == post;
  }

  // ---------- the cuts of one move ----------

  /** What stands between `pre` and `post` while `o` is moved: a disposed block, or an object that reads like `o`. */
  ghost predicate MidMove(c: seq<Block>, pre: seq<Block>, o: Block, post: seq<Block>)
    requires o.Object?
  {
    exists x: Block :: c == pre + [x] + post && (x.Object? ==> x.id == o.id && Stored(x) == Stored(o))
  }

  /** A disposed block stands between `pre` and `post`. */
  ghost predicate FreeBetween(c: seq<Block>, pre: seq<Block>, post: seq<Block>) {
    exists x: Block :: x.Free? && c == pre + [x] + post
  }

  lemma FreeIsMidMove(c: seq<Block>, pre: seq<Block>, o: Block, post: seq<Block>)
    requires o.Object? && FreeBetween(c, pre, post)
    ensures MidMove(c, pre, o, post)
  {
  }

  /** The object with the bytes of the disposed rest behind its own, while its size field is still that of both. */
  lemma LongerIsMidMove(pre: seq<Block>, o: Block, more: seq<byte>, post: seq<Block>)
    requires o.Object? && o.used <= |o.data|
    ensures MidMove(pre + [Object(o.used, o.id, o.data + more)] + post, pre, o, post)
  {
    var x := Object(o.used, o.id, o.data + more);
    assert Stored(x) == Stored(o);
  }

  /** The power-cut states of a move. In the first of them the object is gone. */
  ghost predicate MoveCuts(cs: seq<seq<Block>>, pre: seq<Block>, o: Block, g: Block, post: seq<Block>)
    requires o.Object?
  {
    && cs != [] && FreeBetween(cs[0], pre, post)
    && forall i :: 0 <= i < |cs| ==> MidMove(cs[i], pre, o, post) || cs[i] == pre + [o, g] + post
  }

  /** A disposed block beside an object changes nothing. */
  lemma ReadsAlike(pre: seq<Block>, f: Block, o: Block, post: seq<Block>)
    requires f.Free? && o.Object?
    ensures SameReads(pre + [f, o] + post, pre + [o] + post, {}) && SameReads(pre + [o, f] + post, pre + [o] + post, {})
  {
    hide Get, Has, Stored;
    assert pre + [f, o] + post == pre + [f] + ([o] + post) && pre + [o, f] + post == pre + [o] + ([f] + post);
    forall id: u16
      ensures Get(pre + [f, o] + post, id) == Get(pre + [o] + post, id) == Get(pre + [o, f] + post, id)
    {
      GetFirst(pre, f, [o] + post, id);
      GetFirst(pre, o, post, id);
      GetFirst(pre, o, [f] + post, id);
      FreeInFront(f, post, id);
      assert ([o] + post)[1..] == post;
      GetStep([o] + post, id);
    }
  }

  /** An object can be moved without risk: its id is one of `mine`, or it has a block in front, or stores the same
      bytes behind. */
  predicate Safe(pre: seq<Block>, o: Block, post: seq<Block>, mine: set<int>)
    requires o.Object?
  {
    o.id in mine || Has(pre, o.id) || Stored(o) == Get(post, o.id)
  }

  lemma MidMoveReads(c: seq<Block>, pre: seq<Block>, o: Block, post: seq<Block>, mine: set<int>)
    requires o.Object? && MidMove(c, pre, o, post) && Safe(pre, o, post, mine)
    ensures SameReads(c, pre + [o] + post, mine)
  {
    hide Get, Has, Stored;
    var x: Block :| c == pre + [x] + post && (x.Object? ==> x.id == o.id && Stored(x) == Stored(o));
    if x.Free? {
      RevivesIff(pre, x, o, post, mine);
    } else {
      forall id: u16 ensures Get(c, id) == Get(pre + [o] + post, id) {
        GetFirst(pre, x, post, id);
        GetFirst(pre, o, post, id);
      }
    }
  }

  /** No cut of a move changes what another id reads, exactly when the object can be moved without risk. */
  lemma MoveCutsIff(cs: seq<seq<Block>>, pre: seq<Block>, f: Block, o: Block, g: Block, post: seq<Block>,
                    mine: set<int>)
    requires f.Free? && o.Object? && g.Free? && MoveCuts(cs, pre, o, g, post)
    ensures AllSame(cs, pre + [f, o] + post, mine) <==> Safe(pre, o, post, mine)
  {
    hide Get, Has, Stored, MidMove;
    var bs, alone := pre + [f, o] + post, pre + [o] + post;
    ReadsAlike(pre, f, o, post);
    ReadsAlike(pre, g, o, post);
    var x: Block :| x.Free? && cs[0] == pre + [x] + post;
    RevivesIff(pre, x, o, post, mine);
    assert AllSame(cs, bs, mine) ==> SameReads(cs[0], bs, mine);
    assert SameReads(cs[0], bs, mine) ==> SameReads(alone, cs[0], mine);
    if Safe(pre, o, post, mine) {
      forall i | 0 <= i < |cs| ensures SameReads(cs[i], bs, mine) {
        if cs[i] != pre + [o, g] + post {
          MidMoveReads(cs[i], pre, o, post, mine);
        }
      }
    }
  }

  // ---------- the cuts of a round ----------

  /** A move with its power-cut states. */
  ghost predicate OneMove(cs: seq<seq<Block>>, bs: seq<Block>, after: seq<Block>) {
    exists pre, f: Block, o: Block, g: Block, post ::
      && bs == pre + [f, o] + post && after == pre + [o, g] + post && f.Free? && o.Object? && g.Free?
      && (forall j :: 0 <= j < |pre| ==> pre[j].Object?)
      && MoveCuts(cs, pre, o, g, post)
  }

  /** Sizes are sound and no id has two blocks. */
  ghost predicate Tidied(bs: seq<Block>) {
    Sized(bs) && Unique(bs)
  }

  /** The object is one of `mine` or has no stored bytes. */
  predicate Lossless(o: Block, mine: set<int>) {
    o.Object? ==> o.id in mine || Stored(o) == []
  }

  predicate AllLossless(objects: seq<Block>, mine: set<int>) {
    forall j :: 0 <= j < |objects| ==> Lossless(objects[j], mine)
  }

  /** The same objects read the same. */
  lemma SameObjectsReadSame(c: seq<Block>, bs: seq<Block>, mine: set<int>)
    requires Objects(c) == Objects(bs)
    ensures SameReads(c, bs, mine) && (Unique(bs) ==> Unique(c))
  {
    hide Get, Objects, Others, Count;
    SameObjectsSameOthers(c, bs, {-1});
    forall id: u16 ensures Get(c, id) == Get(bs, id) && Count(c, id) == Count(bs, id) {
      SameOthersSameGet(c, bs, {-1}, id);
    }
  }

  /** Where no id has two blocks, a move is without risk exactly when the object has nothing to lose. */
  lemma SafeIsLossless(pre: seq<Block>, f: Block, o: Block, post: seq<Block>, mine: set<int>)
    requires Unique(pre + [f, o] + post) && f.Free? && o.Object?
    ensures Safe(pre, o, post, mine) <==> Lossless(o, mine)
  {
    hide Get, Has, Count, Stored;
    var bs := pre + [f, o] + post;
    assert bs == (pre + [f]) + [o] + post;
    assert Count(bs, o.id) <= 1;
    CountAround(pre + [f], o, post, o.id);
    CountConcat(pre, [f], o.id);
    HasCount(pre, o.id);
    HasCount(post, o.id);
  }

  lemma MovedLaw(cs: seq<seq<Block>>, bs: seq<Block>, after: seq<Block>, mine: set<int>)
    requires OneMove(cs, bs, after) && Unique(bs)
    ensures Movers(bs) != [] && Movers(after) == Movers(bs)[1..]
    ensures AllSame(cs, bs, mine) <==> Lossless(Movers(bs)[0], mine)
  {
    hide Safe, Lossless, MoveCuts, Movers, Unique, SameReads;
    var pre, f: Block, o: Block, g: Block, post :|
      && bs == pre + [f, o] + post && after == pre + [o, g] + post && f.Free? && o.Object? && g.Free?
      && (forall j :: 0 <= j < |pre| ==> pre[j].Object?)
      && MoveCuts(cs, pre, o, g, post);
    MoversMove(pre, f, o, g, post);
    MoveCutsIff(cs, pre, f, o, g, post, mine);
    SafeIsLossless(pre, f, o, post, mine);
  }

  lemma SameReadsTransfer(cs: seq<seq<Block>>, a: seq<Block>, b: seq<Block>, mine: set<int>)
    requires SameReads(a, b, {})
    ensures AllSame(cs, a, mine) <==> AllSame(cs, b, mine)
  {
    hide Get;
    assert forall id: u16 :: Get(a, id) == Get(b, id);
    assert forall c: seq<Block> :: SameReads(c, a, mine) <==> SameReads(c, b, mine);
  }

  /** Some rounds of a defragmentation from `bs` to `after`: what they risk and what is still to come is what there was
      to risk. */
  ghost predicate Rounds(cs: seq<seq<Block>>, bs: seq<Block>, after: seq<Block>, mine: set<int>) {
    && Tidied(after) && SameReads(after, bs, {})
    && (AllSame(cs, bs, mine) && AllLossless(Movers(after), mine) <==> AllLossless(Movers(bs), mine))
  }

  /** A merge pass and then a move, if there is one. */
  lemma RoundLaw(merging: seq<seq<Block>>, moving: seq<seq<Block>>, b: seq<Block>, after: seq<Block>, moved: bool,
                 mine: set<int>)
    requires Tidied(b) && forall i :: 0 <= i < |merging| ==> Objects(merging[i]) == Objects(b)
    requires var m := MergePass(b);
      if moved then CanMove(m) && after == Move(m) && OneMove(moving, m, after)
      else after == m && moving == [] && Behind(m) == 0
    ensures Rounds(merging + moving, b, after, mine)
  {
    hide Sized, Unique, Objects, Movers, MergePass, CanMove, Move, OneMove, Lossless, SameReads, Behind;
    var m := MergePass(b);
    SizedMerge(b);
    MergeKeepsObjects(b);
    MoversMerge(b);
    SameObjectsReadSame(m, b, {});
    forall i | 0 <= i < |merging| ensures SameReads(merging[i], b, mine) {
      SameObjectsReadSame(merging[i], b, mine);
    }
    AllSameConcat(merging, moving, b, mine);
    if moved {
      SizedMove(m);
      MoveProgress(m);
      SameObjectsReadSame(after, b, {});
      MovedLaw(moving, m, after, mine);
      SameReadsTransfer(moving, m, b, mine);
      FirstAndRest(Movers(b), mine);
    } else {
      MoversCount(m);
    }
  }

  lemma FirstAndRest(objects: seq<Block>, mine: set<int>)
    requires objects != []
    ensures AllLossless(objects, mine) <==> Lossless(objects[0], mine) && AllLossless(objects[1..], mine)
  {
    hide Lossless;
    assert objects == [objects[0]] + objects[1..];
    assert forall j :: 0 <= j < |objects| - 1 ==> objects[1..][j] == objects[j + 1];
    if AllLossless(objects, mine) {
      forall j | 0 <= j < |objects| - 1 ensures Lossless(objects[1..][j], mine) {
        assert Lossless(objects[j + 1], mine);
      }
    }
  }

  // ---------- the cuts of a defragmentation ----------

  lemma TidiedAfter(cs: seq<seq<Block>>, bs: seq<Block>, after: seq<Block>, mine: set<int>)
    requires Rounds(cs, bs, after, mine)
    ensures Tidied(after)
  {
    hide Tidied, SameReads, AllSame, AllLossless, Movers;
  }

  lemma TidiedIsSized(bs: seq<Block>)
    requires Tidied(bs)
    ensures Sized(bs) && Sized(MergePass(bs))
  {
    hide Sized, Unique, MergePass;
    SizedMerge(bs);
  }

  lemma RoundsThenRounds(cs: seq<seq<Block>>, ds: seq<seq<Block>>, a: seq<Block>, b: seq<Block>, c: seq<Block>,
                         mine: set<int>)
    requires Rounds(cs, a, b, mine) && Rounds(ds, b, c, mine)
    ensures Rounds(cs + ds, a, c, mine)
  {
    hide Tidied, AllLossless, Movers, AllSame;
    SameReadsTransfer(ds, b, a, mine);
    AllSameConcat(cs, ds, a, mine);
    SameReadsTrans(c, b, a);
  }

  lemma SameReadsTrans(c: seq<Block>, b: seq<Block>, a: seq<Block>)
    requires SameReads(c, b, {}) && SameReads(b, a, {})
    ensures SameReads(c, a, {})
  {
    hide Get;
  }

  lemma AllRounds(cs: seq<seq<Block>>, bs: seq<Block>, after: seq<Block>, mine: set<int>)
    requires Rounds(cs, bs, after, mine) && Behind(after) == 0
    ensures AllSame(cs, bs, mine) <==> AllLossless(Movers(bs), mine)
  {
    hide Tidied, SameReads, Movers, Lossless, Behind;
    MoversCount(after);
  }

  /** The disposal of a half-made block at the start: in an orderly chain there is none, and only merging is left. */
  lemma FirstRound(cs: seq<seq<Block>>, bs: seq<Block>, mine: set<int>)
    requires Orderly(bs) && Tidied(bs) && 0 in mine
    requires forall i :: 0 <= i < |cs| ==> Others(cs[i], {0}) == Others(bs, {0})
    ensures Rounds(cs, bs, Dispose(bs, 0), mine)
  {
    hide Orderly, Sized, Unique, Movers, MergePass, Lossless, Get, Others, Objects, Kill, Defragmentable, Defrag,
      Compacted, Behind, MaxRun, NoEmptyFree;
    InvDefrag(bs);
    SizedMerge(bs);
    MergeKeepsObjects(bs);
    MoversMerge(bs);
    SameObjectsReadSame(MergePass(bs), bs, {});
    forall i | 0 <= i < |cs| ensures SameReads(cs[i], bs, mine) {
      forall id: u16 | id !in mine ensures Get(cs[i], id) == Get(bs, id) {
        SameOthersSameGet(cs[i], bs, {0}, id);
      }
    }
  }

  // ---------- the cuts of a store that defragments ----------

  predicate AfterDefrag(bs: seq<Block>, own: u16, h: Handler) {
    var path := PathOf(bs, own, h);
    path.FreshAfterDefrag? || path.Lost? || path.FullAfterDefrag?
  }

  /** A store that is refused writes nothing; one in place does not defragment. */
  lemma QuickPaths(bs: seq<Block>, own: u16, h: Handler)
    ensures own == 0 || h.dryRun != CboxError.Ok ==> !InOneGo(bs, own, h) && !AfterDefrag(bs, own, h)
    ensures own != 0 && h.dryRun == CboxError.Ok && |h.payload| + 1 <= Capacity(bs, own) ==>
      InOneGo(bs, own, h) && !AfterDefrag(bs, own, h)
  {
    hide Alloc, Capacity, Defrag, FreeSpace;
  }

  /** Otherwise the search for room decides, and after it what is free in all. */
  lemma AllocPaths(bs: seq<Block>, own: u16, h: Handler)
    requires own != 0 && h.dryRun == CboxError.Ok && |h.payload| + 1 > Capacity(bs, own)
    ensures var want := Provision(|h.payload| + 1);
      && (InOneGo(bs, own, h) <==> Alloc(bs, 0, want).Placed?)
      && (AfterDefrag(bs, own, h) <==> Alloc(bs, 0, want).NoRoom? && FreeSpace(bs) >= want + 4)
  {
    hide Alloc, Capacity, Defrag, FreeSpace;
  }

  /** The cuts of such a store: those of the defragmentation, those of the allocation, if there is room now, and then
      chains in which no other object differs. */
  ghost predicate StoreCutsAfterDefrag(cs: seq<seq<Block>>, bs: seq<Block>, own: u16, h: Handler) {
    exists first: seq<seq<Block>> :: StoreCutsBehind(first, cs, bs, own, h)
  }

  ghost predicate StoreCutsBehind(first: seq<seq<Block>>, cs: seq<seq<Block>>, bs: seq<Block>, own: u16, h: Handler) {
    var second := AllocCuts(Defrag(bs), own, Provision(|h.payload| + 1));
    && first + second <= cs
    && (AllSame(first, bs, {0, own}) <==> AllLossless(Movers(bs), {0, own}))
    && forall i :: |first + second| <= i < |cs| ==> Others(cs[i], {0, own}) == Others(bs, {0, own})
  }

  /** The cuts of any store: none when it is refused or there is not enough room in all. */
  ghost predicate CutsOfStore(cs: seq<seq<Block>>, bs: seq<Block>, own: u16, h: Handler) {
    if InOneGo(bs, own, h) then StoreCuts(cs, bs, own, h)
    else if AfterDefrag(bs, own, h) then Inv(bs) ==> StoreCutsAfterDefrag(cs, bs, own, h)
    else cs == []
  }

  /** When no other id can read differently after any power cut in such a store: every object that is moved is hollow or
      the own one, and there is still no room or the id in the stale bytes of the last block is in use or the own
      one. */
  lemma StoreCutsAfterDefragIff(cs: seq<seq<Block>>, bs: seq<Block>, own: u16, h: Handler)
    requires Inv(bs) && StoreCutsAfterDefrag(cs, bs, own, h)
    ensures AllSame(cs, bs, {0, own})
      <==>
      var d, want := Defrag(bs), Provision(|h.payload| + 1);
      var k := RoomAt(d, want);
      && AllLossless(Movers(bs), {0, own})
      && (k == |d| || var s := AsObject(d[k].junk).id; s in {0, own} || Has(bs, s))
  {
    hide Get, Has, SameReads, AllocCuts, Encode, Others, Inv, Movers, Lossless, Defrag, Objects;
    var mine, want := {0, own}, Provision(|h.payload| + 1);
    var first :| StoreCutsBehind(first, cs, bs, own, h);
    var second := AllocCuts(Defrag(bs), own, want);
    var later := cs[|first + second|..];
    assert cs == first + second + later;
    AllSameConcat(first + second, later, bs, mine);
    AllSameConcat(first, second, bs, mine);
    DefragReadsSame(bs);
    SameReadsTransfer(second, Defrag(bs), bs, mine);
    AllocCutsIff(Defrag(bs), own, want, mine);
    LastIsQuiet(bs, want, mine);
    forall i | 0 <= i < |later| ensures SameReads(later[i], bs, mine) {
      assert later[i] == cs[|first + second| + i];
      OthersReadSame(later[i], bs, mine);
    }
  }

  lemma DefragReadsSame(bs: seq<Block>)
    requires Inv(bs)
    ensures SameReads(Defrag(bs), bs, {}) && |Encode(Defrag(bs))| < 0x10000
  {
    hide Sized, Count, Adjacent, Encode, Defrag, Get, Objects, Compacted, MaxRun, NoEmptyFree, Kill, Defragmentable,
      Behind;
    InvDefrag(bs);
    DefragKeepsSize(bs);
    SameObjectsReadSame(Defrag(bs), bs, {});
  }

  /** Behind all objects nothing is stored. */
  lemma LastIsQuiet(bs: seq<Block>, want: nat, mine: set<int>)
    requires Inv(bs) && want > 0
    ensures var d := Defrag(bs); var k := RoomAt(d, want);
      k < |d| ==> (Quiet(d[..k], d[k].junk, want, d[k + 1..], mine)
                   <==> var s := AsObject(d[k].junk).id; s in mine || Has(bs, s))
  {
    hide Sized, Count, Adjacent, Encode, Defrag, Objects, MaxRun, NoEmptyFree, Kill, Defragmentable, Behind, Has,
      FromU16, Get;
    var d := Defrag(bs);
    var k := RoomAt(d, want);
    InvDefrag(bs);
    if k < |d| {
      LastFree(d, k);
      HasObjects(bs, AsObject(d[k].junk).id);
      NothingStored(AsObject(d[k].junk).id);
    }
  }

  lemma NothingStored(id: u16)
    ensures Get([], id) == []
  {
  }

  lemma LastFree(d: seq<Block>, k: nat)
    requires Compacted(d) && k < |d| && d[k].Free?
    ensures d[..k] == Objects(d) && d[k + 1..] == []
  {
    hide Objects;
    ObjectsAreObjects(d);
    var n := |Objects(d)|;
    assert forall j :: 0 <= j < n && j < |d| ==> d[j] == Objects(d)[j];
  }
}
