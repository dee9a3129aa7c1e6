/**
 What a power cut may leave behind, and whether the store can go on from there. The chain after a cut can
 hold a half-made block of id zero, which defragmentation disposes of first. What matters is how many
 disposed blocks touch then.
 */
module PowerCuts {
  import opened Bytes
  import opened Blocks
  import opened StoreSpec
  import opened DisposedRuns

  /** Without its half-made block the chain has at most `n` places where disposed blocks touch. */
  predicate Calm(c: seq<Block>, n: nat) {
    NoEmptyFree(c) && Adjacent(Kill(c, 0)) <= n
  }

  /** With three such places defragmentation is right, whatever else the chain looks like. */
  lemma CalmIsDefragmentable(c: seq<Block>)
    requires Calm(c, 3)
    ensures Defragmentable(c) && NoEmptyFree(c)
  {
    hide Kill, Adjacent, MaxRun, TameFrom, NoEmptyFree;
    AdjacentRuns(Kill(c, 0));
    ShortRunsAreTame(Kill(c, 0), 4);
  }

  /** A chain between two operations. */
  predicate Settled(bs: seq<Block>) {
    NoEmptyFree(bs) && !Has(bs, 0) && Adjacent(bs) <= 1
  }

  // ---------- chains in parts ----------

  lemma {:induction false} KillNone(bs: seq<Block>, id: u16)
    requires !Has(bs, id)
    ensures Kill(bs, id) == bs
  {
    if bs != [] {
      KillNone(bs[1..], id);
      assert bs == [bs[0]] + bs[1..];
    }
  }

  lemma {:induction false} KillKeepsCount(bs: seq<Block>, id: u16)
    ensures |Kill(bs, id)| == |bs|
  {
    hide Body, Stored;
    if bs != [] && !(bs[0].Object? && bs[0].id == id) {
      KillKeepsCount(bs[1..], id);
    }
  }

  lemma KillMiddle(pre: seq<Block>, now: seq<Block>, post: seq<Block>, id: u16)
    requires !Has(pre, id) && !Has(post, id)
    ensures Kill(pre + now + post, id) == pre + Kill(now, id) + post
  {
    hide Kill, Has;
    HasConcat(pre, now, id);
    KillConcat(pre + now, post, id);
    KillConcat(pre, now, id);
    KillNone(post, id);
    if !Has(now, id) {
      KillNone(now, id);
    }
  }

  lemma {:induction false} NoEmptyFreeConcat(a: seq<Block>, b: seq<Block>)
    ensures NoEmptyFree(a + b) <==> NoEmptyFree(a) && NoEmptyFree(b)
  {
    if a == [] {
      assert a + b == b;
    } else {
      assert (a + b)[1..] == a[1..] + b && (a + b)[0] == a[0];
      NoEmptyFreeConcat(a[1..], b);
    }
  }

  lemma NoEmptyFreeParts(a: seq<Block>, b: seq<Block>, c: seq<Block>)
    ensures NoEmptyFree(a + b + c) <==> NoEmptyFree(a) && NoEmptyFree(b) && NoEmptyFree(c)
  {
    hide NoEmptyFree;
    NoEmptyFreeConcat(a, b);
    NoEmptyFreeConcat(a + b, c);
  }

  lemma HasParts(a: seq<Block>, b: seq<Block>, c: seq<Block>, id: u16)
    ensures Has(a + b + c, id) <==> Has(a, id) || Has(b, id) || Has(c, id)
  {
    hide Has;
    HasConcat(a, b, id);
    HasConcat(a + b, c, id);
  }

  lemma {:induction false} AdjacentConcat(a: seq<Block>, b: seq<Block>)
    ensures Adjacent(a) + Adjacent(b) <= Adjacent(a + b) <= Adjacent(a) + Adjacent(b) + 1
    ensures a == [] || b == [] ==> Adjacent(a + b) == Adjacent(a) + Adjacent(b)
  {
    if a == [] {
      assert a + b == b;
    } else {
      assert (a + b)[1..] == a[1..] + b && (a + b)[0] == a[0];
      AdjacentConcat(a[1..], b);
      if |a| >= 2 {
        assert (a + b)[1] == a[1];
      } else if b == [] {
        assert a + b == a;
      }
    }
  }

  lemma AdjacentFew(x: seq<Block>)
    requires |x| <= 2
    ensures Adjacent(x) + 1 <= |x| || Adjacent(x) == 0
  {
    if |x| == 2 {
      assert |x[1..]| == 1;
    }
  }

  /** A few blocks between two stretches. */
  lemma AdjacentBetween(pre: seq<Block>, x: seq<Block>, post: seq<Block>)
    requires 1 <= |x| <= 2
    ensures Adjacent(pre + x + post) <= Adjacent(pre) + Adjacent(post) + |x| + 1
  {
    hide Adjacent;
    AdjacentConcat(pre, x);
    AdjacentConcat(pre + x, post);
    AdjacentFew(x);
  }

  lemma Tails(pre: seq<Block>, x: seq<Block>, post: seq<Block>)
    requires pre != [] && x != []
    ensures var c := pre + x + post;
      c[1..] == pre[1..] + x + post && c[0] == pre[0] && c[1] == if |pre| >= 2 then pre[1] else x[0]
  {
  }

  lemma AdjacentStep(bs: seq<Block>)
    requires |bs| >= 2
    ensures Adjacent(bs) == (if bs[0].Free? && bs[1].Free? then 1 else 0) + Adjacent(bs[1..])
  {
  }

  /** One or two blocks in the place of a disposed block add at most one place where blocks touch. */
  lemma {:induction false} AdjacentInstead(pre: seq<Block>, x: seq<Block>, f: Block, post: seq<Block>)
    requires 1 <= |x| <= 2 && f.Free?
    ensures Adjacent(pre + x + post) <= Adjacent(pre + [f] + post) + |x| - 1
  {
    hide Adjacent;
    if pre == [] {
      InsteadFirst(x, f, post);
      assert [] + x + post == x + post && [] + [f] + post == [f] + post;
    } else {
      AdjacentInstead(pre[1..], x, f, post);
      Tails(pre, x, post);
      Tails(pre, [f], post);
      AdjacentStep(pre + x + post);
      AdjacentStep(pre + [f] + post);
    }
  }

  lemma InsteadFirst(x: seq<Block>, f: Block, post: seq<Block>)
    requires 1 <= |x| <= 2 && f.Free?
    ensures Adjacent(x + post) <= Adjacent([f] + post) + |x| - 1
  {
    assert ([f] + post)[1..] == post && (x + post)[1..] == x[1..] + post;
    if |x| == 2 {
      assert x[1..] == [x[1]];
      assert ([x[1]] + post)[1..] == post;
    } else {
      assert x[1..] + post == post;
    }
  }

  lemma {:induction false} AdjacentMerged(pre: seq<Block>, a: Block, b: Block, m: Block, post: seq<Block>)
    requires a.Free? && b.Free? && m.Free?
    ensures Adjacent(pre + [a, b] + post) == Adjacent(pre + [m] + post) + 1
  {
    hide Adjacent;
    if pre == [] {
      MergedFirst(a, b, m, post);
      assert [] + [a, b] + post == [a, b] + post && [] + [m] + post == [m] + post;
    } else {
      AdjacentMerged(pre[1..], a, b, m, post);
      Tails(pre, [a, b], post);
      Tails(pre, [m], post);
      AdjacentStep(pre + [a, b] + post);
      AdjacentStep(pre + [m] + post);
    }
  }

  lemma MergedFirst(a: Block, b: Block, m: Block, post: seq<Block>)
    requires a.Free? && b.Free? && m.Free?
    ensures Adjacent([a, b] + post) == Adjacent([m] + post) + 1
  {
    assert ([a, b] + post)[1..] == [b] + post && ([b] + post)[1..] == post && ([m] + post)[1..] == post;
  }

  // ---------- the cuts of one operation ----------

  /** A cut in an allocation. */
  lemma OneMoreIsCalm(c: seq<Block>, bs: seq<Block>, n: nat)
    requires OneMore(c, bs) && NoEmptyFree(bs) && !Has(bs, 0) && Adjacent(bs) + 1 <= n
    ensures Calm(c, n)
  {
    var pre, f: Block, post :| bs == pre + [f] + post && f.Free? && FillsGap(c, pre, |EncodeBlock(f)|, post);
    var now :| c == pre + now + post && |Encode(now)| == |EncodeBlock(f)| && |now| <= 2 && NoEmptyFree(now)
               && |Objects(now)| <= 1;
    assert now != [] by { assert |Encode(now)| > 0; }
    hide Kill, Has, Adjacent, NoEmptyFree;
    HasParts(pre, [f], post, 0);
    NoEmptyFreeParts(pre, [f], post);
    NoEmptyFreeParts(pre, now, post);
    KillMiddle(pre, now, post, 0);
    KillKeepsCount(now, 0);
    AdjacentInstead(pre, Kill(now, 0), f, post);
  }

  /** A cut while an object is moved in a merged chain. */
  ghost predicate Moving(c: seq<Block>, bs: seq<Block>) {
    exists pre, f: Block, o: Block, post ::
      bs == pre + [f, o] + post && f.Free? && o.Object? && SparesAround(c, pre, o.id, post, 2)
  }

  lemma MovingIsCalm(c: seq<Block>, bs: seq<Block>)
    requires Moving(c, bs) && NoEmptyFree(bs) && !Has(bs, 0) && Adjacent(bs) == 0
    ensures Calm(c, 3)
  {
    var pre, f: Block, o: Block, post :|
      bs == pre + [f, o] + post && f.Free? && o.Object? && SparesAround(c, pre, o.id, post, 2);
    var now :| c == pre + now + post && |now| <= 2 && NoEmptyFree(now) && Others(now, {o.id}) == [];
    hide Kill, Has, Adjacent, NoEmptyFree;
    HasParts(pre, [f, o], post, 0);
    NoEmptyFreeParts(pre, [f, o], post);
    NoEmptyFreeParts(pre, now, post);
    KillMiddle(pre, now, post, 0);
    KillKeepsCount(now, 0);
    AdjacentConcat(pre, [f, o]);
    AdjacentConcat(pre + [f, o], post);
    if now == [] {
      assert Kill(now, 0) == [];
      AdjacentConcat(pre, post);
      assert pre + [] == pre;
    } else {
      AdjacentBetween(pre, Kill(now, 0), post);
    }
  }

  /** What surrounds a block while it is written. */
  predicate Around(pre: seq<Block>, post: seq<Block>) {
    NoEmptyFree(pre) && NoEmptyFree(post) && !Has(pre, 0) && !Has(post, 0) && Adjacent(pre) + Adjacent(post) <= 1
  }

  /** A cut while one block is written. */
  ghost predicate Writing(c: seq<Block>, pre: seq<Block>, post: seq<Block>) {
    exists id: u16 :: SparesAround(c, pre, id, post, 1)
  }

  lemma WritingOne(pre: seq<Block>, o: Block, post: seq<Block>)
    requires o.Object?
    ensures Writing(pre + [o] + post, pre, post)
  {
    SparesOne(pre, o, o.id, post, 1);
  }

  lemma WritingIsCalm(c: seq<Block>, pre: seq<Block>, post: seq<Block>)
    requires Writing(c, pre, post) && Around(pre, post)
    ensures Calm(c, 3)
  {
    var id: u16 :| SparesAround(c, pre, id, post, 1);
    var now :| c == pre + now + post && |now| <= 1 && NoEmptyFree(now) && Others(now, {id}) == [];
    hide Kill, Has, Adjacent, NoEmptyFree;
    NoEmptyFreeParts(pre, now, post);
    KillMiddle(pre, now, post, 0);
    KillKeepsCount(now, 0);
    if now == [] {
      AdjacentConcat(pre, post);
      assert pre + [] == pre;
    } else {
      AdjacentBetween(pre, Kill(now, 0), post);
    }
  }

  /** Merging leaves fewer places where disposed blocks touch. */
  predicate Calmer(c: seq<Block>, bs: seq<Block>) {
    Adjacent(Kill(c, 0)) < Adjacent(Kill(bs, 0)) && (NoEmptyFree(bs) ==> NoEmptyFree(c))
  }

  lemma MergingIsCalmer(pre: seq<Block>, a: Block, b: Block, post: seq<Block>)
    requires a.Free? && b.Free?
    ensures Calmer(pre + [Merged(a, b)] + post, pre + [a, b] + post)
  {
    var m := Merged(a, b);
    NotInFree(a, b, m);
    hide Kill, Has, Adjacent, NoEmptyFree, Merged;
    NoEmptyFreeParts(pre, [a, b], post);
    NoEmptyFreeParts(pre, [m], post);
    KillAround(pre, [a, b], post);
    KillAround(pre, [m], post);
    if Has(pre, 0) {
      AdjacentMerged(Kill(pre, 0), a, b, m, post);
    } else {
      AdjacentMerged(pre, a, b, m, Kill(post, 0));
    }
  }

  lemma NotInFree(a: Block, b: Block, m: Block)
    requires a.Free? && b.Free? && m.Free? && |m.junk| > 0
    ensures !Has([a, b], 0) && !Has([m], 0) && NoEmptyFree([m])
  {
    assert [a, b][1..] == [b] && [b][1..] == [] && [m][1..] == [];
    assert Find([b], 0) == 1;
  }

  lemma KillAround(pre: seq<Block>, x: seq<Block>, post: seq<Block>)
    requires !Has(x, 0)
    ensures Kill(pre + x + post, 0) == if Has(pre, 0) then Kill(pre, 0) + x + post else pre + x + Kill(post, 0)
  {
    hide Kill, Has;
    HasConcat(pre, x, 0);
    KillConcat(pre + x, post, 0);
    KillConcat(pre, x, 0);
    KillNone(x, 0);
  }

  /** A disposal in the middle of a relocation. */
  lemma OldIsCalm(pre: seq<Block>, o: Block, post: seq<Block>, id: u16)
    requires NewPlace(pre, post) && o.Object? && id != 0 && (o.id == 0 || (o.id == id && Has(pre, id)))
    ensures Calm(Kill(pre + [o] + post, id), 4)
    ensures if Has(pre, id) then Around(Dispose(pre, id), MergePass(post))
            else Around(MergePass(pre), Dispose(post, id))
  {
    hide Kill, Has, Adjacent, NoEmptyFree, MergePass;
    MidwayIsCalm(pre, o, post, id, 2);
    DisposedAround(pre, post, id);
  }

  lemma NewPlaceAround(pre: seq<Block>, o: Block, post: seq<Block>, id: u16, relocate: bool)
    requires NewPlace(pre, post) && o.Object? && id != 0
    requires relocate ==> if o.id == id then Has(pre, id) else o.id == 0
    ensures if !relocate then Around(pre, post)
            else if Has(pre, id) then Around(Dispose(pre, id), MergePass(post))
            else Around(MergePass(pre), Dispose(post, id))
  {
    hide Has, Around, Dispose, MergePass, Calm, Kill;
    if relocate {
      OldIsCalm(pre, o, post, id);
    }
  }

  // ---------- the rounds of defragmentation ----------

  lemma SameObjectsSameHas(c: seq<Block>, bs: seq<Block>, id: u16)
    requires Objects(c) == Objects(bs)
    ensures Has(c, id) == Has(bs, id)
  {
    hide Has, Objects;
    HasObjects(c, id);
    HasObjects(bs, id);
  }

  lemma MergeSettles(bs: seq<Block>)
    requires Settled(bs)
    ensures Settled(MergePass(bs)) && Adjacent(MergePass(bs)) == 0
    ensures Kill(bs, 0) == bs && Calm(bs, 1)
  {
    hide Has, Adjacent, NoEmptyFree, MergePass, Kill;
    MergeNoEmptyFree(bs);
    MergeKeepsObjects(bs);
    SameObjectsSameHas(MergePass(bs), bs, 0);
    MergeHalvesAdjacent(bs);
    KillNone(bs, 0);
  }

  lemma MoveSettles(m: seq<Block>)
    requires Settled(m) && Adjacent(m) == 0 && CanMove(m)
    ensures Settled(Move(m))
  {
    hide Has, Adjacent, NoEmptyFree, Move, CanMove;
    MoveNoEmptyFree(m);
    MoveProgress(m);
    SameObjectsSameHas(Move(m), m, 0);
    MoveAdjacent(m);
  }

  // ---------- relocating ----------

  /** After a defragmentation the new block has its id from the start. */
  lemma MidwayAfterDefrag(pre: seq<Block>, o: Block, post: seq<Block>, id: u16)
    requires NewPlace(pre, post) && o.Object? && o.id == id != 0 && Has(pre, id)
    ensures Calm(Kill(pre + [o] + post, id), 3)
  {
    var cur := pre + [o] + post;
    NotZero(o);
    hide Kill, Has, Adjacent, NoEmptyFree;
    HasParts(pre, [o], post, 0);
    NoEmptyFreeParts(pre, [o], post);
    ObjectIsNotEmpty(o);
    KillKeepsOther(cur, id, 0);
    KillNone(Kill(cur, id), 0);
    KillNoEmptyFree(cur, id);
    KillAdjacent(cur, id);
    AdjacentAround(pre, o, post);
  }

  lemma NotZero(o: Block)
    requires o.Object? && o.id != 0
    ensures !Has([o], 0)
  {
    assert [o][1..] == [];
  }

  lemma ObjectIsNotEmpty(o: Block)
    requires o.Object?
    ensures NoEmptyFree([o])
  {
    assert [o][1..] == [];
  }

  /** The surroundings of a new block: even as a disposed block it would touch few others. */
  predicate NewPlace(pre: seq<Block>, post: seq<Block>) {
    Around(pre, post) && Adjacent(pre + [Free([0])] + post) <= 2
  }

  lemma AllocPlace(bs: seq<Block>, id: u16, want: nat)
    requires Settled(bs) && |Encode(bs)| < 0x10000 && Alloc(bs, id, want).Placed?
    ensures NewPlace(Alloc(bs, id, want).pre, Alloc(bs, id, want).post)
  {
    hide Alloc, Around, Adjacent, Encode, Has, NoEmptyFree;
    AllocAround(bs, id, want);
  }

  lemma AllocAround(bs: seq<Block>, id: u16, want: nat)
    requires Settled(bs) && |Encode(bs)| < 0x10000 && Alloc(bs, id, want).Placed?
    ensures var p := Alloc(bs, id, want);
      Around(p.pre, p.post) && Adjacent(p.pre + [Free([0])] + p.post) <= Adjacent(bs) + 1
  {
    hide Settled, Around, Adjacent, Encode, Alloc;
    var p := Alloc(bs, id, want);
    var f, rest := AllocShape(bs, id, want);
    if p.post == rest {
      AroundSame(p.pre, f, rest);
    } else {
      AroundSplit(p.pre, f, p.post[0], rest);
    }
  }

  lemma AroundSame(pre: seq<Block>, f: Block, rest: seq<Block>)
    requires Settled(pre + [f] + rest) && f.Free?
    ensures Around(pre, rest) && Adjacent(pre + [Free([0])] + rest) <= Adjacent(pre + [f] + rest)
  {
    hide Has, Adjacent, NoEmptyFree;
    HasParts(pre, [f], rest, 0);
    NoEmptyFreeParts(pre, [f], rest);
    AdjacentPut(pre, f, rest);
    AdjacentInstead(pre, [Free([0])], f, rest);
  }

  lemma AroundSplit(pre: seq<Block>, f: Block, t: Block, rest: seq<Block>)
    requires Settled(pre + [f] + rest) && f.Free? && t.Free? && |t.junk| > 0
    ensures Around(pre, [t] + rest)
    ensures Adjacent(pre + [Free([0])] + ([t] + rest)) <= Adjacent(pre + [f] + rest) + 1
  {
    hide Has, Adjacent, NoEmptyFree;
    HasParts(pre, [f], rest, 0);
    NoEmptyFreeParts(pre, [f], rest);
    AdjacentPut(pre, f, rest);
    TailIsSound(f, t, rest);
    AdjacentInstead(pre, [Free([0]), t], f, rest);
    assert pre + [Free([0]), t] + rest == pre + [Free([0])] + ([t] + rest);
  }

  lemma AroundObject(pre: seq<Block>, o: Block, post: seq<Block>)
    requires Settled(pre + [o] + post) && o.Object?
    ensures Around(pre, post)
  {
    hide Has, Adjacent, NoEmptyFree;
    HasParts(pre, [o], post, 0);
    NoEmptyFreeParts(pre, [o], post);
    AdjacentAround(pre, o, post);
  }

  lemma TailIsSound(f: Block, t: Block, rest: seq<Block>)
    requires f.Free? && t.Free? && |t.junk| > 0
    ensures NoEmptyFree([t] + rest) <==> NoEmptyFree(rest)
    ensures Has([t] + rest, 0) <==> Has(rest, 0)
    ensures Adjacent([f] + rest) == Adjacent([t] + rest)
  {
    assert ([f] + rest)[1..] == rest && ([t] + rest)[1..] == rest;
  }

  /** The cut right after the old block of an object has been disposed of is the worst one. */
  lemma MidwayIsCalm(pre: seq<Block>, o: Block, post: seq<Block>, id: u16, n: nat)
    requires Around(pre, post) && o.Object? && id != 0 && (o.id == 0 || (o.id == id && Has(pre, id)))
    requires Adjacent(pre + [Free([0])] + post) <= n && 1 <= n
    ensures Calm(Kill(pre + [o] + post, id), n + 2)
  {
    var cur, f := pre + [o] + post, Free([0]);
    hide Kill, Has, Adjacent, NoEmptyFree;
    KillSeparates(pre, o, post, id);
    KillSeparates(pre, f, post, id);
    var x := if Has(pre, id) then Kill(pre, id) else pre;
    var y := if Has(pre, id) then post else Kill(post, id);
    KillKeepsOther(pre, id, 0);
    KillKeepsOther(post, id, 0);
    KillMiddle(x, [o], y, 0);
    KillKeepsCount([o], 0);
    AdjacentInstead(x, Kill([o], 0), f, y);
    KillAdjacent(pre + [f] + post, id);
    KillNoEmptyFree(pre, id);
    KillNoEmptyFree(post, id);
    NoEmptyFreeParts(x, [o], y);
    ObjectIsNotEmpty(o);
  }

  /** What surrounds the new block after the old one has been disposed of. */
  lemma DisposedAround(pre: seq<Block>, post: seq<Block>, id: u16)
    requires Around(pre, post) && id != 0
    ensures if Has(pre, id) then Around(Dispose(pre, id), MergePass(post))
            else Around(MergePass(pre), Dispose(post, id))
  {
    hide Kill, Has, Adjacent, NoEmptyFree, MergePass;
    PartDisposed(pre, id);
    PartDisposed(post, id);
  }

  lemma PartDisposed(bs: seq<Block>, id: u16)
    requires NoEmptyFree(bs) && !Has(bs, 0) && id != 0
    ensures NoEmptyFree(Dispose(bs, id)) && !Has(Dispose(bs, id), 0)
    ensures NoEmptyFree(MergePass(bs)) && !Has(MergePass(bs), 0)
    ensures Adjacent(Dispose(bs, id)) <= (Adjacent(bs) + 2) / 2 && Adjacent(MergePass(bs)) <= Adjacent(bs) / 2
  {
    hide Kill, Has, Adjacent, NoEmptyFree, MergePass;
    KillNoEmptyFree(bs, id);
    MergeNoEmptyFree(bs);
    MergeNoEmptyFree(Kill(bs, id));
    KillKeepsOther(bs, id, 0);
    MergeKeepsObjects(bs);
    MergeKeepsObjects(Kill(bs, id));
    SameObjectsSameHas(MergePass(bs), bs, 0);
    SameObjectsSameHas(Dispose(bs, id), Kill(bs, id), 0);
    MergeHalvesAdjacent(bs);
    DisposeAdjacent(bs, id);
  }

  /** The chain right after the old block of a relocated object has been disposed of, with the new block still
      under id zero. */
  function Midway(bs: seq<Block>, id: u16, h: Handler): seq<Block> {
    match Alloc(bs, 0, Provision(|h.payload| + 1))
    case NoRoom => bs
    case Placed(pre, o, post) => Kill(pre + [o] + post, id)
  }

  /** The chains that a power cut in a store can leave. */
  predicate StoreCut(c: seq<Block>, bs: seq<Block>, id: u16, h: Handler) {
    Calm(c, 3) || c == Midway(bs, id, h)
  }

  /** After a cut in a store defragmentation is right, except possibly at one point: right after the type byte
      of the old block has been written. It is right there as well when no disposed blocks touched before. */
  lemma StoreCutLaw(c: seq<Block>, bs: seq<Block>, id: u16, h: Handler)
    requires Settled(bs) && |Encode(bs)| < 0x10000 && id != 0 && StoreCut(c, bs, id, h)
    ensures NoEmptyFree(c) && Calm(c, Adjacent(bs) + 3)
    ensures c != Midway(bs, id, h) || Adjacent(bs) == 0 ==> Calm(c, 3) && Defragmentable(c)
  {
    hide Settled, Adjacent, Defragmentable, NoEmptyFree, Kill, Calm;
    MidwayLaw(bs, id, h);
    CalmIsMore(c, 3, Adjacent(bs) + 3);
    if Calm(c, 3) {
      CalmIsDefragmentable(c);
    }
    CalmNoEmpty(c, Adjacent(bs) + 3);
  }

  lemma CalmIsMore(c: seq<Block>, n: nat, m: nat)
    requires n <= m
    ensures Calm(c, n) ==> Calm(c, m)
  {
  }

  lemma CalmNoEmpty(c: seq<Block>, n: nat)
    requires Calm(c, n)
    ensures NoEmptyFree(c)
  {
  }

  lemma MidwayLaw(bs: seq<Block>, id: u16, h: Handler)
    requires Settled(bs) && |Encode(bs)| < 0x10000 && id != 0
    ensures Calm(Midway(bs, id, h), Adjacent(bs) + 3)
  {
    hide Settled, Adjacent, NoEmptyFree, Kill, Alloc, Around, Encode;
    var want := Provision(|h.payload| + 1);
    var p := Alloc(bs, 0, want);
    MergeSettles(bs);
    CalmIsMore(bs, 1, Adjacent(bs) + 3);
    if p.Placed? {
      AllocAround(bs, 0, want);
      AllocFits(bs, 0, want);
      MidwayIsCalm(p.pre, p.obj, p.post, id, Adjacent(bs) + 1);
    }
  }

  /** Every cut in the disposal of an object leaves a chain that can be defragmented. */
  lemma DisposeCutLaw(c: seq<Block>, bs: seq<Block>, id: u16)
    requires Settled(bs) && id != 0 && (c == Kill(bs, id) || Calmer(c, Kill(bs, id)))
    ensures Calm(c, 3) && Defragmentable(c)
  {
    hide Has, Adjacent, NoEmptyFree, Kill, Defragmentable;
    KillNoEmptyFree(bs, id);
    KillKeepsOther(bs, id, 0);
    KillNone(Kill(bs, id), 0);
    KillAdjacent(bs, id);
    CalmIsDefragmentable(c);
  }

  // ---------- what goes wrong otherwise ----------

  /** What the writes of a move do to any bytes: `start` is where the data of a disposed block of length `m` starts,
      and `n` bytes are copied there from `at`. */
  function MovedBytes(s: seq<byte>, start: nat, m: nat, at: nat, n: nat): (r: seq<byte>)
    requires 3 <= start && start + n + 3 <= |s| && at + n <= |s|
    ensures |r| == |s|
  {
    var joined := Splice(s, start - 2, U16(m + n + 3));
    var copied := Splice(joined, start, s[at..at + n]);
    var marked := Splice(copied, start + n, [DISPOSED_BLOCK] + U16(m));
    Splice(marked, start - 3, [OBJECT_BLOCK] + U16(n))
  }

  /** They change only the blocks in question. */
  lemma MovedInside(pre: seq<byte>, s: seq<byte>, post: seq<byte>, m: nat, at: nat, n: nat)
    requires 6 + n <= |s| && at + n <= |s|
    ensures MovedBytes(pre + s + post, |pre| + 3, m, |pre| + at, n) == pre + MovedBytes(s, 3, m, at, n) + post
  {
    hide Splice;
    var body := s[at..at + n];
    assert (pre + s + post)[|pre| + at..|pre| + at + n] == body;
    var joined := Splice(s, 1, U16(m + n + 3));
    var copied := Splice(joined, 3, body);
    var marked := Splice(copied, 3 + n, [DISPOSED_BLOCK] + U16(m));
    SpliceInside(pre + s + post, pre, s, post, 1, U16(m + n + 3));
    SpliceInside(pre + joined + post, pre, joined, post, 3, body);
    SpliceInside(pre + copied + post, pre, copied, post, 3 + n, [DISPOSED_BLOCK] + U16(m));
    SpliceInside(pre + marked + post, pre, marked, post, 0, [OBJECT_BLOCK] + U16(n));
  }

  /** The bytes of a disposed block, blocks between, and an object after a move that takes the object for the
      neighbour of the disposed block: the combined length, the object's bytes at the front, the header of a
      disposed rest of the old length, and the header of the object. */
  function MisplacedMove(f: Block, mid: seq<Block>, o: Block): seq<byte>
    requires f.Free? && o.Object? && mid != []
  {
    var before := EncodeBlock(f) + Encode(mid);
    MovedBytes(before + EncodeBlock(o), 3, |f.junk|, |before| + 3, |Body(o)|)
  }

  lemma MisplacedInside(pre: seq<byte>, f: Block, mid: seq<Block>, o: Block, post: seq<byte>)
    requires f.Free? && o.Object? && mid != []
    ensures var s := EncodeBlock(f) + Encode(mid) + EncodeBlock(o);
      var at := |pre| + 3 + |f.junk| + |Encode(mid)| + 3;
      && at + |Body(o)| <= |pre + s + post|
      && MovedBytes(pre + s + post, |pre| + 3, |f.junk|, at, |Body(o)|) == pre + MisplacedMove(f, mid, o) + post
  {
    hide Encode, Body, MovedBytes;
    FreeBody(f.junk);
    var before := EncodeBlock(f) + Encode(mid);
    assert |before| == 3 + |f.junk| + |Encode(mid)| && |EncodeBlock(o)| == 3 + |Body(o)|;
    SomeBlocks(mid);
    MovedInside(pre, before + EncodeBlock(o), post, |f.junk|, |before| + 3, |Body(o)|);
  }

  /** Two sound blocks, and behind them as many of the last bytes of the object as there were blocks
      between. */
  lemma MisplacedBytes(f: Block, mid: seq<Block>, o: Block)
    requires f.Free? && o.Object? && mid != []
    ensures var s, n := EncodeBlock(f) + Encode(mid) + EncodeBlock(o), |Body(o)|;
      MisplacedMove(f, mid, o)
        == EncodeBlock(o) + EncodeBlock(Free(s[6 + n..6 + n + |f.junk|])) + s[6 + n + |f.junk|..]
  {
    hide Encode, Body, Splice;
    var n, m := |Body(o)|, |f.junk|;
    var s := EncodeBlock(f) + Encode(mid) + EncodeBlock(o);
    SomeBlocks(mid);
    FreeBody(f.junk);
    var g := Free(s[6 + n..6 + n + m]);
    FreeBody(g.junk);
    var l := U16(m + n + 3);
    var before := EncodeBlock(f) + Encode(mid);
    assert s[|before| + 3..|before| + 3 + n] == Body(o);
    SpliceFour(s, l, [OBJECT_BLOCK], U16(n), Body(o), [DISPOSED_BLOCK], U16(m));
    assert s[6 + n..] == g.junk + s[6 + n + m..];
    assert EncodeBlock(g) == [DISPOSED_BLOCK] + U16(m) + g.junk;
    assert EncodeBlock(o) == [OBJECT_BLOCK] + U16(n) + Body(o);
    Regrouped([OBJECT_BLOCK] + U16(n) + Body(o), [DISPOSED_BLOCK] + U16(m), g.junk, s[6 + n + m..]);
  }

  lemma Regrouped(a: seq<byte>, b: seq<byte>, c: seq<byte>, d: seq<byte>)
    ensures a + b + (c + d) == a + (b + c) + d
  {
  }

  lemma SomeBlocks(mid: seq<Block>)
    requires mid != []
    ensures |Encode(mid)| >= 3
  {
  }

  lemma SpliceFour(s: seq<byte>, l: seq<byte>, a: seq<byte>, b: seq<byte>, c: seq<byte>, d: seq<byte>, e: seq<byte>)
    requires |l| == |b| == |e| == 2 && |a| == |d| == 1 && 6 + |c| <= |s|
    ensures Splice(Splice(Splice(Splice(s, 1, l), 3, c), 3 + |c|, d + e), 0, a + b)
      == a + b + c + (d + e) + s[6 + |c|..]
  {
    SpliceTwice(s, 1, l, c);
    SpliceTwice(s, 1, l + c, d + e);
    SpliceFront(s, l, c + (d + e), a + b);
    assert l + c + (d + e) == l + (c + (d + e));
    assert a + b + c + (d + e) == a + b + (c + (d + e));
  }

  lemma SpliceFront(s: seq<byte>, l: seq<byte>, x: seq<byte>, h: seq<byte>)
    requires |l| == 2 && |h| == 3 && 3 + |x| <= |s|
    ensures Splice(Splice(s, 1, l + x), 0, h) == h + x + s[3 + |x|..]
  {
    var was := Splice(s, 1, l + x);
    assert was[3..] == x + s[3 + |x|..];
  }

  /** The image of a chain begins with the image of a block exactly when that block comes first. */
  lemma FirstIs(c: seq<Block>, b: Block, rest: seq<byte>)
    requires Encode(c) == EncodeBlock(b) + rest && |Encode(c)| < 0x10000
    ensures c != [] && Encode(c[1..]) == rest
  {
    hide Body;
    assert c != [];
    SameHead(c[0], Encode(c[1..]), b, rest);
  }

  lemma NotAChain(c: seq<Block>, o: Block, g: Block, tail: seq<byte>)
    requires tail != [] && tail[0] != OBJECT_BLOCK && tail[0] != DISPOSED_BLOCK
    requires |EncodeBlock(o) + EncodeBlock(g) + tail| < 0x10000
    ensures Encode(c) != EncodeBlock(o) + EncodeBlock(g) + tail
  {
    hide Encode, EncodeBlock;
    if Encode(c) == EncodeBlock(o) + EncodeBlock(g) + tail {
      assert Encode(c) == EncodeBlock(o) + (EncodeBlock(g) + tail);
      FirstIs(c, o, EncodeBlock(g) + tail);
      FirstIs(c[1..], g, tail);
      StartsWithTag(c[1..][1..]);
      assert false;
    }
  }

  lemma StartsWithTag(c: seq<Block>)
    ensures Encode(c) == [] || Encode(c)[0] == OBJECT_BLOCK || Encode(c)[0] == DISPOSED_BLOCK
  {
  }

  /** A byte near the end of the object, in the bytes that were there before the move. */
  lemma LastBytes(x: seq<byte>, mid: seq<byte>, head: seq<byte>, body: seq<byte>)
    requires 0 < |mid| <= |body|
    ensures var s := x + mid + (head + body);
      |s| == |x| + |mid| + |head| + |body| && s[|s| - |mid|] == body[|body| - |mid|]
  {
  }

  /** After such a move the area is not a chain of blocks any more, unless the last bytes of the object happen
      to look like one. */
  lemma MisplacedMoveBreaks(c: seq<Block>, f: Block, mid: seq<Block>, o: Block, post: seq<byte>)
    requires f.Free? && o.Object? && mid != [] && |Encode(mid)| <= |Body(o)|
    requires |MisplacedMove(f, mid, o) + post| < 0x10000
    requires var b := Body(o)[|Body(o)| - |Encode(mid)|]; b != OBJECT_BLOCK && b != DISPOSED_BLOCK
    ensures Encode(c) != MisplacedMove(f, mid, o) + post
  {
    hide Encode, Body, MisplacedMove;
    var n, m := |Body(o)|, |f.junk|;
    var s := EncodeBlock(f) + Encode(mid) + EncodeBlock(o);
    MisplacedBytes(f, mid, o);
    FreeBody(f.junk);
    SomeBlocks(mid);
    var g := Free(s[6 + n..6 + n + m]);
    LastBytes(EncodeBlock(f), Encode(mid), [OBJECT_BLOCK] + U16(n), Body(o));
    assert s[6 + n + m..][0] == s[6 + n + m];
    hide EncodeBlock;
    assert EncodeBlock(o) + EncodeBlock(g) + s[6 + n + m..] + post
        == EncodeBlock(o) + EncodeBlock(g) + (s[6 + n + m..] + post);
    NotAChain(c, o, g, s[6 + n + m..] + post);
  }
}
