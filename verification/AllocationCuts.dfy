/**
 What a power cut in an allocation leaves behind. A new block gets its type byte first and its fields after
 that. In between, the stale bytes of the disposed block are read as used size, id and data of an object: the
 old content of some id may come back.
 */
module AllocationCuts {
  import opened Bytes
  import opened Blocks
  import opened StoreSpec
  import opened StoreLaws

  /** The index of the first disposed block with room for `want` bytes and the object fields. */
  function RoomAt(bs: seq<Block>, want: nat): (k: nat)
    ensures k <= |bs| && forall j :: 0 <= j < k ==> !(bs[j].Free? && |bs[j].junk| >= want + 4)
    ensures k < |bs| ==> bs[k].Free? && |bs[k].junk| >= want + 4
  {
    if bs == [] || (bs[0].Free? && |bs[0].junk| >= want + 4) then 0 else 1 + RoomAt(bs[1..], want)
  }

  /** The search passes over every block without room. */
  lemma {:induction false} RoomAtSkips(bs: seq<Block>, k: nat, want: nat)
    requires k <= |bs| && forall j :: 0 <= j < k ==> !(bs[j].Free? && |bs[j].junk| >= want + 4)
    ensures RoomAt(bs, want) == k + RoomAt(bs[k..], want)
  {
    if k > 0 {
      RoomAtSkips(bs[1..], k - 1, want);
      assert bs[1..][k - 1..] == bs[k..];
    } else {
      assert bs[0..] == bs;
    }
  }

  /** A chain that is shorter than the object has no room for it. */
  lemma {:induction false} ShortHasNoRoom(bs: seq<Block>, want: nat)
    requires |Encode(bs)| < want + 7
    ensures RoomAt(bs, want) == |bs|
  {
    if bs != [] {
      ShortHasNoRoom(bs[1..], want);
    }
  }

  /** The header of the disposed block that a split leaves. */
  function Rest(junk: seq<byte>, want: nat): Block
    requires |junk| >= want + 12
  {
    Free(junk[want + 7..])
  }

  /** The chain after each of the four writes into a disposed block that is used as a whole. Writing the size
      leaves it as it is. */
  function WholeCuts(pre: seq<Block>, junk: seq<byte>, id: u16, post: seq<Block>): seq<seq<Block>>
    requires |junk| >= 4
  {
    var stale, room := AsObject(junk), (|junk| - 4) % 0x10000;
    [pre + [stale] + post, pre + [stale] + post,
     pre + [Object(room, stale.id, stale.data)] + post, pre + [Object(room, id, stale.data)] + post]
  }

  /** The chain after each of the four writes into a disposed block behind whose first `want` + 4 bytes the
      header of another one has been written. */
  function FrontCuts(pre: seq<Block>, front: seq<byte>, rest: Block, want: nat, id: u16, post: seq<Block>)
    : seq<seq<Block>>
    requires |front| >= 4
  {
    var stale, used := AsObject(front), want % 0x10000;
    [pre + [AsObject(front + EncodeBlock(rest))] + post, pre + [stale] + ([rest] + post),
     pre + [Object(used, stale.id, stale.data)] + ([rest] + post),
     pre + [Object(used, id, stale.data)] + ([rest] + post)]
  }

  /** The chain after each of the six writes into a disposed block that is split. */
  function SplitCuts(pre: seq<Block>, junk: seq<byte>, id: u16, want: nat, post: seq<Block>): seq<seq<Block>>
    requires |junk| >= want + 12
  {
    var front, rest := junk[..want + 4], Rest(junk, want);
    [pre + [Free(Splice(junk, want + 4, [DISPOSED_BLOCK]))] + post, pre + [Free(front + EncodeBlock(rest))] + post]
    + FrontCuts(pre, front, rest, want, id, post)
  }

  function CarveCuts(pre: seq<Block>, junk: seq<byte>, id: u16, want: nat, post: seq<Block>): seq<seq<Block>>
    requires |junk| >= want + 4
  {
    if |junk| < want + 12 then WholeCuts(pre, junk, id, post) else SplitCuts(pre, junk, id, want, post)
  }

  /** The four writes, one after the other. */
  lemma FrontInSteps(before: seq<seq<Block>>, pre: seq<Block>, front: seq<byte>, rest: Block, want: nat, id: u16,
                     post: seq<Block>)
    requires |front| >= 4 && want < 0x10000
    ensures var x := AsObject(front);
      before + [pre + [AsObject(front + EncodeBlock(rest))] + post] + [pre + [x, rest] + post]
        + [pre + [Object(want, x.id, x.data)] + ([rest] + post), pre + [Object(want, id, x.data)] + ([rest] + post)]
      == before + FrontCuts(pre, front, rest, want, id, post)
  {
    hide EncodeBlock, FromU16;
    var x := AsObject(front);
    assert pre + [x, rest] + post == pre + [x] + ([rest] + post);
  }

  /** The first two writes of a split, and the four into its front. */
  lemma SplitIsFront(pre: seq<Block>, junk: seq<byte>, id: u16, want: nat, post: seq<Block>)
    requires |junk| >= want + 12
    ensures var front, rest := junk[..want + 4], Free(junk[want + 7..]);
      CarveCuts(pre, junk, id, want, post)
        == [pre + [Free(Splice(junk, want + 4, [DISPOSED_BLOCK]))] + post,
            pre + [Free(front + EncodeBlock(rest))] + post] + FrontCuts(pre, front, rest, want, id, post)
  {
    hide FrontCuts, EncodeBlock, Splice;
  }

  lemma WholeIsWhole(pre: seq<Block>, junk: seq<byte>, id: u16, want: nat, post: seq<Block>)
    requires want + 4 <= |junk| < want + 12
    ensures CarveCuts(pre, junk, id, want, post) == WholeCuts(pre, junk, id, post)
  {
  }

  /** The chain after each write of an allocation; none when no block has room. */
  function AllocCuts(bs: seq<Block>, id: u16, want: nat): seq<seq<Block>> {
    var k := RoomAt(bs, want);
    if k == |bs| then [] else CarveCuts(bs[..k], bs[k].junk, id, want, bs[k + 1..])
  }

  lemma NoCuts(bs: seq<Block>, k: nat, id: u16, want: nat)
    requires k <= |bs| && forall j :: 0 <= j < k ==> !(bs[j].Free? && |bs[j].junk| >= want + 4)
    requires |Encode(bs[k..])| < want + 7
    ensures AllocCuts(bs, id, want) == []
  {
    RoomAtSkips(bs, k, want);
    ShortHasNoRoom(bs[k..], want);
  }

  lemma CutsHere(pre: seq<Block>, junk: seq<byte>, post: seq<Block>, id: u16, want: nat)
    requires |junk| >= want + 4 && forall j :: 0 <= j < |pre| ==> !(pre[j].Free? && |pre[j].junk| >= want + 4)
    ensures AllocCuts(pre + [Free(junk)] + post, id, want) == CarveCuts(pre, junk, id, want, post)
    ensures RoomAt(pre + [Free(junk)] + post, want) == |pre|
  {
    hide CarveCuts;
    var bs := pre + [Free(junk)] + post;
    assert bs[..|pre|] == pre && bs[|pre|] == Free(junk) && bs[|pre| + 1..] == post;
    RoomAtSkips(bs, |pre|, want);
    assert bs[|pre|..][0] == Free(junk);
  }

  // ---------- which ids read as before ----------

  /** Every id but `mine` reads as it did. */
  ghost predicate SameReads(c: seq<Block>, bs: seq<Block>, mine: set<int>) {
    forall id: u16 :: id !in mine ==> Get(c, id) == Get(bs, id)
  }

  ghost predicate AllSame(cs: seq<seq<Block>>, bs: seq<Block>, mine: set<int>) {
    forall i :: 0 <= i < |cs| ==> SameReads(cs[i], bs, mine)
  }

  /** An object in the place of a disposed block changes what is read for its own id and no other, and that
      exactly unless the id has a block in front or stores the same bytes behind. */
  lemma RevivesIff(pre: seq<Block>, f: Block, o: Block, post: seq<Block>, mine: set<int>)
    requires f.Free? && o.Object?
    ensures SameReads(pre + [o] + post, pre + [f] + post, mine)
      <==> o.id in mine || Has(pre, o.id) || Stored(o) == Get(post, o.id)
  {
    hide Get, Has, Stored;
    var c, bs := pre + [o] + post, pre + [f] + post;
    forall id: u16
      ensures Get(c, id) == Get(bs, id) <==> (id == o.id && !Has(pre, id) ==> Stored(o) == Get(post, id))
    {
      GetFirst(pre, o, post, id);
      GetFirst(pre, f, post, id);
    }
  }

  /** Another disposed block in the place of one changes nothing. */
  lemma FreeReadsSame(pre: seq<Block>, f: Block, g: Block, post: seq<Block>, mine: set<int>)
    requires f.Free? && g.Free?
    ensures SameReads(pre + [g] + post, pre + [f] + post, mine)
  {
    hide Get, Has;
    forall id: u16 ensures Get(pre + [g] + post, id) == Get(pre + [f] + post, id) {
      GetFirst(pre, f, post, id);
      GetFirst(pre, g, post, id);
    }
  }

  /** The same with the disposed rest of a split behind the object. */
  lemma RevivesInFront(pre: seq<Block>, f: Block, o: Block, rest: Block, post: seq<Block>, mine: set<int>)
    requires f.Free? && o.Object? && rest.Free?
    ensures SameReads(pre + [o] + ([rest] + post), pre + [f] + post, mine)
      <==> o.id in mine || Has(pre, o.id) || Stored(o) == Get(post, o.id)
  {
    hide Get, Has, Stored;
    var c, bs := pre + [o] + ([rest] + post), pre + [f] + post;
    forall id: u16
      ensures Get(c, id) == Get(bs, id) <==> (id == o.id && !Has(pre, id) ==> Stored(o) == Get(post, id))
    {
      GetFirst(pre, o, [rest] + post, id);
      GetFirst(pre, f, post, id);
      FreeInFront(rest, post, id);
    }
  }

  lemma FreeInFront(f: Block, post: seq<Block>, id: u16)
    requires f.Free?
    ensures Get([f] + post, id) == Get(post, id)
  {
    hide Get;
    assert ([f] + post)[1..] == post;
    GetStep([f] + post, id);
  }

  /** The stale bytes of a disposed block can be read without harm at every moment of an allocation: their id is one
      of `mine`, or it has a block in front, or it stores the very same bytes behind and the stale size agrees. */
  predicate Quiet(pre: seq<Block>, junk: seq<byte>, want: nat, post: seq<Block>, mine: set<int>)
    requires |junk| >= want + 4
  {
    var stale := AsObject(junk);
    || stale.id in mine || Has(pre, stale.id)
    || if |junk| < want + 12 then stale.used >= |junk| - 4 && Get(post, stale.id) == junk[4..]
       else stale.used == want && Get(post, stale.id) == junk[4..want + 4]
  }

  lemma WholeIff(pre: seq<Block>, junk: seq<byte>, id: u16, post: seq<Block>, mine: set<int>)
    requires 4 <= |junk| < 0x10000 && id in mine
    ensures AllSame(WholeCuts(pre, junk, id, post), pre + [Free(junk)] + post, mine)
      <==> var stale := AsObject(junk);
           stale.id in mine || Has(pre, stale.id)
           || (stale.used >= |junk| - 4 && Get(post, stale.id) == junk[4..])
  {
    hide Get, Has, SameReads, FromU16;
    var f, stale, room := Free(junk), AsObject(junk), |junk| - 4;
    var full, now := Object(room, stale.id, stale.data), Object(room, id, stale.data);
    RevivesIff(pre, f, stale, post, mine);
    RevivesIff(pre, f, full, post, mine);
    RevivesIff(pre, f, now, post, mine);
    var cs, bs := WholeCuts(pre, junk, id, post), pre + [f] + post;
    assert cs == [pre + [stale] + post, pre + [stale] + post, pre + [full] + post, pre + [now] + post];
    FourSame(cs, bs, mine);
    assert Stored(full) == stale.data && |Stored(stale)| == Min(stale.used, room);
  }

  lemma FourSame(cs: seq<seq<Block>>, bs: seq<Block>, mine: set<int>)
    requires |cs| == 4
    ensures AllSame(cs, bs, mine) <==>
      && SameReads(cs[0], bs, mine) && SameReads(cs[1], bs, mine)
      && SameReads(cs[2], bs, mine) && SameReads(cs[3], bs, mine)
  {
    hide SameReads;
  }

  lemma FrontIff(pre: seq<Block>, f: Block, front: seq<byte>, rest: Block, want: nat, id: u16, post: seq<Block>,
                 mine: set<int>)
    requires f.Free? && rest.Free? && |front| == want + 4 < 0x10000 && id in mine
    ensures AllSame(FrontCuts(pre, front, rest, want, id, post), pre + [f] + post, mine)
      <==> var stale := AsObject(front);
           stale.id in mine || Has(pre, stale.id) || (stale.used == want && Get(post, stale.id) == front[4..])
  {
    hide Get, Has, SameReads, FromU16;
    var stale, long := AsObject(front), AsObject(front + EncodeBlock(rest));
    var full, now := Object(want, stale.id, stale.data), Object(want, id, stale.data);
    assert long.id == stale.id && long.used == stale.used && long.data == stale.data + EncodeBlock(rest);
    RevivesIff(pre, f, long, post, mine);
    RevivesInFront(pre, f, stale, rest, post, mine);
    RevivesInFront(pre, f, full, rest, post, mine);
    RevivesInFront(pre, f, now, rest, post, mine);
    var cs, bs := FrontCuts(pre, front, rest, want, id, post), pre + [f] + post;
    assert cs == [pre + [long] + post, pre + [stale] + ([rest] + post), pre + [full] + ([rest] + post),
                  pre + [now] + ([rest] + post)];
    FourSame(cs, bs, mine);
    StaleLengths(stale, long, want);
    assert Stored(full) == stale.data;
  }

  /** A stale size field that fits both the whole block and its front is the size of the front. */
  lemma StaleLengths(stale: Block, long: Block, want: nat)
    requires stale.Object? && long.Object? && stale.used == long.used && |stale.data| == want < |long.data|
    requires stale.data <= long.data
    ensures Stored(stale) == Stored(long) == stale.data <==> stale.used == want
  {
    assert |Stored(long)| == Min(long.used, |long.data|);
    if stale.used == want {
      assert long.data[..want] == stale.data;
    }
  }

  lemma SplitIff(pre: seq<Block>, junk: seq<byte>, id: u16, want: nat, post: seq<Block>, mine: set<int>)
    requires want + 12 <= |junk| < 0x10000 && id in mine
    ensures AllSame(SplitCuts(pre, junk, id, want, post), pre + [Free(junk)] + post, mine)
      <==> Quiet(pre, junk, want, post, mine)
  {
    hide Get, Has, SameReads, FromU16, EncodeBlock, FrontCuts, Splice;
    var f, front, rest := Free(junk), junk[..want + 4], Rest(junk, want);
    var marked, tailed := Free(Splice(junk, want + 4, [DISPOSED_BLOCK])), Free(front + EncodeBlock(rest));
    FreeReadsSame(pre, f, marked, post, mine);
    FreeReadsSame(pre, f, tailed, post, mine);
    var bs, two := pre + [f] + post, [pre + [marked] + post, pre + [tailed] + post];
    var four := FrontCuts(pre, front, rest, want, id, post);
    FrontIff(pre, f, front, rest, want, id, post, mine);
    assert AsObject(front).id == AsObject(junk).id && AsObject(front).used == AsObject(junk).used;
    assert front[4..] == junk[4..want + 4];
    assert SplitCuts(pre, junk, id, want, post) == two + four;
    AllSameConcat(two, four, bs, mine);
    assert AllSame(two, bs, mine);
  }

  lemma AllSameConcat(a: seq<seq<Block>>, b: seq<seq<Block>>, bs: seq<Block>, mine: set<int>)
    ensures AllSame(a + b, bs, mine) <==> AllSame(a, bs, mine) && AllSame(b, bs, mine)
  {
    hide SameReads;
    var c := a + b;
    assert forall i :: 0 <= i < |a| ==> c[i] == a[i];
    assert forall i :: 0 <= i < |b| ==> c[|a| + i] == b[i];
    if AllSame(c, bs, mine) {
      forall i | 0 <= i < |b| ensures SameReads(b[i], bs, mine) {
        assert SameReads(c[|a| + i], bs, mine);
      }
    }
  }

  /** No power cut in an allocation changes what any id but `mine` reads, exactly when there is no room at all or the
      stale bytes of the block that is found are quiet. */
  lemma AllocCutsIff(bs: seq<Block>, id: u16, want: nat, mine: set<int>)
    requires |Encode(bs)| < 0x10000 && id in mine
    ensures AllSame(AllocCuts(bs, id, want), bs, mine)
      <==> var k := RoomAt(bs, want); k == |bs| || Quiet(bs[..k], bs[k].junk, want, bs[k + 1..], mine)
  {
    hide Get, Has, SameReads, AsObject, Encode, WholeCuts, SplitCuts;
    var k := RoomAt(bs, want);
    if k < |bs| {
      var pre, junk, post := bs[..k], bs[k].junk, bs[k + 1..];
      assert bs == pre + [Free(junk)] + post;
      JunkIsSmall(pre, junk, post);
      if |junk| < want + 12 {
        WholeIff(pre, junk, id, post, mine);
      } else {
        SplitIff(pre, junk, id, want, post, mine);
      }
    }
  }

  lemma JunkIsSmall(pre: seq<Block>, junk: seq<byte>, post: seq<Block>)
    requires |Encode(pre + [Free(junk)] + post)| < 0x10000
    ensures |junk| < 0x10000
  {
    EncodeAround(pre, Free(junk), post);
    FreeBody(junk);
  }

  // ---------- the cuts of a whole store ----------

  /** A store that writes without a defragmentation before. */
  predicate InOneGo(bs: seq<Block>, own: u16, h: Handler) {
    var path := PathOf(bs, own, h);
    path.InPlace? || path.Fresh? || path.Moved?
  }

  /** The cuts of such a store: those of the allocation, if there is one, and then chains in which no other object
      differs. */
  ghost predicate StoreCuts(cs: seq<seq<Block>>, bs: seq<Block>, own: u16, h: Handler) {
    var first := if |h.payload| + 1 <= Capacity(bs, own) then [] else AllocCuts(bs, 0, Provision(|h.payload| + 1));
    first <= cs && forall i :: |first| <= i < |cs| ==> Others(cs[i], {0, own}) == Others(bs, {0, own})
  }

  /** When no other id can read differently after any power cut in such a store: the data fits where it is, or there
      is no room, or the stale bytes under the new block are quiet. */
  lemma StoreCutsIff(cs: seq<seq<Block>>, bs: seq<Block>, own: u16, h: Handler)
    requires |Encode(bs)| < 0x10000 && StoreCuts(cs, bs, own, h)
    ensures AllSame(cs, bs, {0, own})
      <==> var want := Provision(|h.payload| + 1);
           var k := RoomAt(bs, want);
           || |h.payload| + 1 <= Capacity(bs, own) || k == |bs|
           || Quiet(bs[..k], bs[k].junk, want, bs[k + 1..], {0, own})
  {
    hide Get, Has, SameReads, AllocCuts, Quiet, Capacity, Encode, Others;
    var want := Provision(|h.payload| + 1);
    var first := if |h.payload| + 1 <= Capacity(bs, own) then [] else AllocCuts(bs, 0, want);
    var later := cs[|first|..];
    assert cs == first + later;
    AllSameConcat(first, later, bs, {0, own});
    AllocCutsIff(bs, 0, want, {0, own});
    forall i | 0 <= i < |later| ensures SameReads(later[i], bs, {0, own}) {
      assert later[i] == cs[|first| + i];
      OthersReadSame(later[i], bs, {0, own});
    }
  }

  lemma OthersReadSame(c: seq<Block>, bs: seq<Block>, mine: set<int>)
    requires Others(c, mine) == Others(bs, mine)
    ensures SameReads(c, bs, mine)
  {
    hide Get, Others;
    forall id: u16 | id !in mine ensures Get(c, id) == Get(bs, id) {
      SameOthersSameGet(c, bs, mine, id);
    }
  }
}
