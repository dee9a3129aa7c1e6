/**
 Runs of neighbouring disposed blocks. A move of defragmentation is only right when an object lies directly
 behind the first disposed block. Whether that is so in every round depends on the lengths of the runs in
 the chain it starts from.
 */
module DisposedRuns {
  import opened Bytes
  import opened Blocks

  /** The number of places where two disposed blocks touch. */
  function Adjacent(bs: seq<Block>): nat {
    if |bs| < 2 then 0 else (if bs[0].Free? && bs[1].Free? then 1 else 0) + Adjacent(bs[1..])
  }

  lemma {:induction false} MergeHalvesAdjacent(bs: seq<Block>)
    ensures Adjacent(MergePass(bs)) <= Adjacent(bs) / 2
  {
    if |bs| >= 2 {
      var m := MergePass(bs);
      if bs[0].Free? && bs[1].Free? {
        MergeHalvesAdjacent(bs[2..]);
        MergeHead(bs[2..]);
        assert bs[1..][1..] == bs[2..];
        assert m[1..] == MergePass(bs[2..]);
      } else {
        MergeHalvesAdjacent(bs[1..]);
        MergeHead(bs[1..]);
        assert m[1..] == MergePass(bs[1..]);
      }
    }
  }

  lemma MergeHead(bs: seq<Block>)
    ensures bs == [] <==> MergePass(bs) == []
    ensures bs != [] ==> MergePass(bs)[0].Free? == bs[0].Free?
  {
  }

  /** An object separates: no disposed blocks touch across it. */
  lemma {:induction false} AdjacentAround(pre: seq<Block>, o: Block, post: seq<Block>)
    requires o.Object?
    ensures Adjacent(pre + [o] + post) == Adjacent(pre) + Adjacent(post)
  {
    var bs := pre + [o] + post;
    if pre == [] {
      assert bs[1..] == post;
    } else {
      assert bs[1..] == pre[1..] + [o] + post;
      AdjacentAround(pre[1..], o, post);
      if |pre| >= 2 {
        assert bs[1] == pre[1];
      } else {
        assert bs[1] == o;
      }
    }
  }

  lemma {:induction false} AdjacentPut(pre: seq<Block>, f: Block, post: seq<Block>)
    ensures Adjacent(pre) + Adjacent(post) <= Adjacent(pre + [f] + post) <= Adjacent(pre) + Adjacent(post) + 2
    ensures Adjacent(pre) + Adjacent([f] + post) <= Adjacent(pre + [f] + post)
  {
    var bs := pre + [f] + post;
    if pre == [] {
      assert bs == [f] + post && bs[1..] == post;
    } else {
      assert bs[1..] == pre[1..] + [f] + post && bs[0] == pre[0];
      AdjacentPut(pre[1..], f, post);
      if |pre| >= 2 {
        assert bs[1] == pre[1];
      }
    }
  }

  lemma KillAdjacent(bs: seq<Block>, id: u16)
    ensures Adjacent(Kill(bs, id)) <= Adjacent(bs) + 2
  {
    KillShape(bs, id);
    hide Kill, Adjacent, Body;
    if Kill(bs, id) != bs {
      var k := Find(bs, id);
      var pre, o, post := bs[..k], bs[k], bs[k + 1..];
      assert bs == pre + [o] + post;
      AdjacentPut(pre, o, post);
      AdjacentPut(pre, Free(Body(o)), post);
    }
  }

  lemma {:induction false} KillShape(bs: seq<Block>, id: u16)
    ensures Kill(bs, id) == bs
      || (Find(bs, id) < |bs|
          && Kill(bs, id) == bs[..Find(bs, id)] + [Free(Body(bs[Find(bs, id)]))] + bs[Find(bs, id) + 1..])
  {
    hide Body, Stored;
    if bs != [] && !(bs[0].Object? && bs[0].id == id) {
      KillShape(bs[1..], id);
      var k := Find(bs, id);
      if Kill(bs, id) != bs {
        SliceMiddle(bs, k, Free(Body(bs[k])));
      }
    }
  }

  lemma DisposeAdjacent(bs: seq<Block>, id: u16)
    ensures Adjacent(Dispose(bs, id)) <= (Adjacent(bs) + 2) / 2
  {
    hide Kill, Adjacent, MergePass;
    KillAdjacent(bs, id);
    MergeHalvesAdjacent(Kill(bs, id));
  }

  lemma {:induction false} AdjacentRuns(bs: seq<Block>)
    ensures MaxRun(bs) <= Adjacent(bs) + 1
    ensures LeadRun(bs) <= Adjacent(bs) + 1
  {
    if |bs| >= 1 {
      AdjacentRuns(bs[1..]);
      if |bs| >= 2 {
        assert LeadRun(bs) == if bs[0].Free? then 1 + LeadRun(bs[1..]) else 0;
      }
    }
  }

  lemma {:induction false} MoveAdjacent(bs: seq<Block>)
    requires CanMove(bs)
    ensures Adjacent(Move(bs)) <= Adjacent(bs) + 1
  {
    hide Leftover;
    var m := Move(bs);
    if bs[0].Free? {
      assert m[1..][1..] == bs[2..] == bs[1..][1..];
    } else {
      MoveAdjacent(bs[1..]);
      assert m[1..] == Move(bs[1..]);
    }
  }

  lemma CompactedAdjacent(bs: seq<Block>)
    requires Compacted(bs)
    ensures Adjacent(bs) == 0
  {
    ObjectsAreObjects(bs);
    NoPairNoAdjacent(bs);
  }

  lemma {:induction false} NoPairNoAdjacent(bs: seq<Block>)
    requires forall j :: 0 <= j < |bs| - 1 ==> bs[j].Object?
    ensures Adjacent(bs) == 0
  {
    if |bs| >= 2 {
      NoPairNoAdjacent(bs[1..]);
    }
  }

  // ---------- which chains can be defragmented ----------

  /** Runs with an object somewhere behind them have at most `limit` blocks, and twice as many after each
      object that comes before them: every round takes one object away and halves what is left. */
  predicate Tame(bs: seq<Block>, limit: nat) {
    Objects(bs) == [] ||
    if bs[0].Free? then LeadRun(bs) <= limit && Tame(bs[1..], limit) else Tame(bs[1..], 2 * limit)
  }

  /** The same for what is behind the rest of a run and the object that ends it. */
  predicate TameBehind(bs: seq<Block>, limit: nat) {
    bs == [] || if bs[0].Free? then TameBehind(bs[1..], limit) else Tame(bs[1..], limit)
  }

  /** The first run has at most `first` blocks, and what is behind it and one object is tame. */
  predicate TameFrom(bs: seq<Block>, first: nat, limit: nat) {
    Objects(bs) == [] ||
    if bs[0].Object? then TameFrom(bs[1..], first, limit)
    else LeadRun(bs) <= first && TameBehind(bs[1..], limit)
  }

  /** What defragmentation needs to find an object directly behind the first disposed block in every round.
      Four in the first run and the next, eight behind two objects, sixteen behind three, and so on. */
  predicate Defragmentable(bs: seq<Block>) {
    TameFrom(Kill(bs, 0), 4, 4)
  }

  lemma {:induction false} MergeTames(bs: seq<Block>, limit: nat)
    ensures Tame(MergePass(bs), limit) <==> Tame(bs, 2 * limit)
  {
    MergeKeepsObjects(bs);
    MergeHalvesRuns(bs);
    if |bs| >= 2 && Objects(bs) != [] {
      hide Merged;
      var m := MergePass(bs);
      if bs[0].Free? && bs[1].Free? {
        MergeTames(bs[2..], limit);
        assert bs[1..][1..] == bs[2..];
        assert m[1..] == MergePass(bs[2..]);
      } else {
        MergeTames(bs[1..], if bs[0].Free? then limit else 2 * limit);
        assert m[1..] == MergePass(bs[1..]);
      }
    }
  }

  lemma {:induction false} MergeTamesBehind(bs: seq<Block>, limit: nat)
    ensures TameBehind(MergePass(bs), limit) <==> TameBehind(bs, 2 * limit)
  {
    if |bs| >= 2 {
      hide Merged;
      var m := MergePass(bs);
      if bs[0].Free? && bs[1].Free? {
        MergeTamesBehind(bs[2..], limit);
        assert bs[1..][1..] == bs[2..];
        assert m[1..] == MergePass(bs[2..]);
      } else {
        MergeTamesBehind(bs[1..], limit);
        MergeTames(bs[1..], limit);
        assert m[1..] == MergePass(bs[1..]);
      }
    }
  }

  lemma {:induction false} MergeTamesFrom(bs: seq<Block>, first: nat, limit: nat)
    ensures TameFrom(MergePass(bs), first, limit) <==> TameFrom(bs, 2 * first, 2 * limit)
  {
    MergeKeepsObjects(bs);
    MergeHalvesRuns(bs);
    if |bs| >= 2 {
      hide Merged;
      var m := MergePass(bs);
      if bs[0].Free? && bs[1].Free? {
        MergeTamesBehind(bs[2..], limit);
        assert bs[1..][1..] == bs[2..];
        assert m[1..] == MergePass(bs[2..]);
      } else {
        MergeTamesFrom(bs[1..], first, limit);
        MergeTamesBehind(bs[1..], limit);
        assert m[1..] == MergePass(bs[1..]);
      }
    }
  }

  /** A merged chain is tame when the first disposed block, if any object lies behind it, has one directly
      behind it, and the move leaves a tame chain. */
  lemma {:induction false} MoveTames(m: seq<Block>)
    ensures TameFrom(m, 1, 1) <==> Behind(m) == 0 || (CanMove(m) && TameFrom(Move(m), 2, 2))
  {
    hide Leftover;
    if m != [] {
      if m[0].Object? {
        MoveTames(m[1..]);
        if CanMove(m) {
          assert Move(m)[1..] == Move(m[1..]);
        }
      } else if Behind(m) > 0 {
        assert Objects(m) != [];
        if m[1].Free? {
          assert LeadRun(m) >= 2;
        } else {
          MovedFirst(m);
        }
      }
    }
  }

  lemma MovedFirst(m: seq<Block>)
    requires |m| >= 2 && m[0].Free? && m[1].Object?
    ensures TameFrom(m, 1, 1) <==> TameFrom(Move(m), 2, 2)
  {
    hide Leftover, Tame;
    var rest, after := m[2..], Move(m);
    assert m[1..][1..] == rest && after[1..][1..] == rest;
    assert LeadRun(m) == 1 && Objects(m) != [];
    assert TameFrom(m, 1, 1) <==> Tame(rest, 1);
    assert Objects(after[1..]) == Objects(rest) && LeadRun(after[1..]) == 1 + LeadRun(rest);
    OneRunLess(rest);
  }

  lemma OneRunLess(rest: seq<Block>)
    ensures Tame(rest, 1) <==> Objects(rest) == [] || (LeadRun(rest) <= 1 && TameBehind(rest, 2))
  {
    if rest != [] && Objects(rest) != [] && rest[0].Free? {
      assert Objects(rest[1..]) != [];
      assert LeadRun(rest) == 1 + LeadRun(rest[1..]);
      if rest[1].Free? {
        assert LeadRun(rest[1..]) > 0;
      } else {
        assert rest[1..][0] == rest[1];
      }
    }
  }

  /** The rounds of merging and moving bring every object to the front exactly when the chain is tame.
      Otherwise they reach a chain in which two disposed blocks lie in front of an object. */
  lemma {:induction false} CompactIff(bs: seq<Block>)
    ensures Behind(Compact(bs)) == 0 <==> TameFrom(bs, 2, 2)
    decreases Behind(bs)
  {
    hide MergePass, Move, CanMove, TameFrom, Behind;
    var m := MergePass(bs);
    MergeKeepsObjects(bs);
    MergeTamesFrom(bs, 1, 1);
    CompactStep(bs);
    MoveTames(m);
    if CanMove(m) {
      MoveProgress(m);
      CompactIff(Move(m));
    }
  }

  lemma DefragIff(bs: seq<Block>)
    ensures Behind(Defrag(bs)) == 0 <==> Defragmentable(bs)
  {
    hide Compact, MergePass, Kill, Behind, TameFrom;
    MergeTamesFrom(Kill(bs, 0), 2, 2);
    CompactIff(Dispose(bs, 0));
  }

  lemma {:induction false} ShortRunsAreTame(bs: seq<Block>, limit: nat)
    requires MaxRun(bs) <= limit
    ensures Tame(bs, limit) && TameBehind(bs, limit) && TameFrom(bs, limit, limit)
    decreases |bs|
  {
    if bs != [] {
      ShortRunsAreTame(bs[1..], limit);
      ShortRunsAreTame(bs[1..], 2 * limit);
    }
  }
}
