/**
 The contents of the EEPROM object area as a chain of blocks, and what each storage operation
 does to such a chain. The class in ObjectStorage.dfy works on bytes and offsets; its
 methods are proved to act on the decoded chain as the functions of this module do.
 */
module Blocks {
  import opened Bytes

  /** A disposed block with the stale bytes it covers, or an object block: the used size, the
      object id and all bytes reserved for the object's data. */
  datatype Block = Free(junk: seq<byte>) | Object(used: u16, id: u16, data: seq<byte>)

  const OBJECT_BLOCK: byte := 1
  const DISPOSED_BLOCK: byte := 2
  const BLOCK_HEADER := 3
  const OBJECT_HEADER := 7

  function Tag(b: Block): byte {
    if b.Free? then DISPOSED_BLOCK else OBJECT_BLOCK
  }

  function Body(b: Block): seq<byte> {
    match b
    case Free(junk) => junk
    case Object(used, id, data) => U16(used) + U16(id) + data
  }

  function EncodeBlock(b: Block): seq<byte> {
    [Tag(b)] + U16(|Body(b)|) + Body(b)
  }

  function Encode(bs: seq<Block>): seq<byte> {
    if bs == [] then [] else EncodeBlock(bs[0]) + Encode(bs[1..])
  }

  lemma {:induction false} EncodeConcat(a: seq<Block>, b: seq<Block>)
    ensures Encode(a + b) == Encode(a) + Encode(b)
  {
    if a == [] {
      assert a + b == b;
    } else {
      assert (a + b)[1..] == a[1..] + b;
      EncodeConcat(a[1..], b);
    }
  }

  /** Two images that begin with a block begin with the same block. */
  lemma SameHead(b: Block, s: seq<byte>, c: Block, t: seq<byte>)
    requires EncodeBlock(b) + s == EncodeBlock(c) + t && |Body(b)| < 0x10000 && |Body(c)| < 0x10000
    ensures b == c && s == t
  {
    var x, y, z := EncodeBlock(b), EncodeBlock(c), EncodeBlock(b) + s;
    assert z[0] == x[0] == y[0] && z[1] == x[1] == y[1] && z[2] == x[2] == y[2];
    U16RoundTrip(|Body(b)|);
    U16RoundTrip(|Body(c)|);
    hide Body;
    assert |x| == |y|;
    assert x == z[..|x|] == y && s == z[|x|..] == t;
    assert Body(b) == x[3..] == y[3..] == Body(c);
    BodyInjective(b, c);
  }

  /** The bytes determine the chain: no two chains of blocks share an image. */
  lemma {:induction false} EncodeInjective(a: seq<Block>, b: seq<Block>)
    requires Encode(a) == Encode(b) && |Encode(a)| < 0x10000
    ensures a == b
  {
    if a != [] && b != [] {
      hide Body;
      SameHead(a[0], Encode(a[1..]), b[0], Encode(b[1..]));
      EncodeInjective(a[1..], b[1..]);
      assert a == [a[0]] + a[1..] && b == [b[0]] + b[1..];
    }
  }

  lemma FreeBody(junk: seq<byte>)
    ensures Body(Free(junk)) == junk
  {
  }

  lemma BodyInjective(a: Block, b: Block)
    requires Tag(a) == Tag(b) && Body(a) == Body(b)
    ensures a == b
  {
    if a.Object? {
      var s := Body(a);
      U16RoundTrip(a.used);
      U16RoundTrip(b.used);
      U16RoundTrip(a.id);
      U16RoundTrip(b.id);
      assert s[0] == U16(a.used)[0] == U16(b.used)[0] && s[1] == U16(a.used)[1] == U16(b.used)[1];
      assert s[2] == U16(a.id)[0] == U16(b.id)[0] && s[3] == U16(a.id)[1] == U16(b.id)[1];
      assert a.data == s[4..] == b.data;
    }
  }

  // ---------- objects of a chain ----------

  function Objects(bs: seq<Block>): seq<Block> {
    if bs == [] then []
    else if bs[0].Object? then [bs[0]] + Objects(bs[1..])
    else Objects(bs[1..])
  }

  lemma {:induction false} ObjectsConcat(a: seq<Block>, b: seq<Block>)
    ensures Objects(a + b) == Objects(a) + Objects(b)
  {
    if a == [] {
      assert a + b == b;
    } else {
      assert (a + b)[1..] == a[1..] + b && (a + b)[0] == a[0];
      ObjectsConcat(a[1..], b);
      var ab := a + b;
      assert Objects(ab) == if a[0].Object? then [a[0]] + Objects(ab[1..]) else Objects(ab[1..]);
      assert Objects(a) == if a[0].Object? then [a[0]] + Objects(a[1..]) else Objects(a[1..]);
    }
  }

  /** The object blocks of a chain that starts at offset `at`, with their offsets. */
  function Layout(bs: seq<Block>, at: nat): seq<(nat, Block)> {
    if bs == [] then [] else LayoutOne(bs[0], at) + Layout(bs[1..], at + |EncodeBlock(bs[0])|)
  }

  function LayoutOne(b: Block, at: nat): seq<(nat, Block)> {
    if b.Object? then [(at, b)] else []
  }

  lemma {:induction false} LayoutConcat(a: seq<Block>, b: seq<Block>, at: nat)
    ensures Layout(a + b, at) == Layout(a, at) + Layout(b, at + |Encode(a)|)
  {
    hide EncodeBlock, LayoutOne;
    if a == [] {
      assert a + b == b;
    } else {
      assert (a + b)[1..] == a[1..] + b;
      LayoutConcat(a[1..], b, at + |EncodeBlock(a[0])|);
    }
  }

  /** Replacing blocks by others of the same total size and the same objects keeps every object
      in its place. */
  lemma LayoutReplace(pre: seq<Block>, was: seq<Block>, now: seq<Block>, post: seq<Block>, at: nat)
    requires |Encode(was)| == |Encode(now)|
    requires Layout(was, at + |Encode(pre)|) == Layout(now, at + |Encode(pre)|)
    ensures Layout(pre + was + post, at) == Layout(pre + now + post, at)
  {
    hide Layout, Encode;
    EncodeConcat(pre, was);
    EncodeConcat(pre, now);
    LayoutConcat(pre, was, at);
    LayoutConcat(pre, now, at);
    LayoutConcat(pre + was, post, at);
    LayoutConcat(pre + now, post, at);
  }

  /** The index of the first object block with this id; |bs| when there is none. */
  function Find(bs: seq<Block>, id: u16): (k: nat)
    ensures k <= |bs|
    ensures k < |bs| ==> bs[k].Object? && bs[k].id == id
  {
    if bs == [] || (bs[0].Object? && bs[0].id == id) then 0 else 1 + Find(bs[1..], id)
  }

  predicate Has(bs: seq<Block>, id: u16) {
    Find(bs, id) < |bs|
  }

  /** The bytes that were last written to an object block. */
  function Stored(b: Block): seq<byte>
    requires b.Object?
  {
    b.data[..Min(b.used, |b.data|)]
  }

  /** What a reader of this id sees. The code cannot tell an object without stored bytes from a
      missing one. */
  function Get(bs: seq<Block>, id: u16): seq<byte> {
    var k := Find(bs, id);
    if k < |bs| then Stored(bs[k]) else []
  }

  // ---------- merging and disposing ----------

  /** One left-to-right pass that joins disposed blocks in pairs. A merged block is not
      compared with its next neighbour again. */
  function MergePass(bs: seq<Block>): seq<Block> {
    if |bs| < 2 then bs
    else if bs[0].Free? && bs[1].Free? then [Merged(bs[0], bs[1])] + MergePass(bs[2..])
    else [bs[0]] + MergePass(bs[1..])
  }

  /** Two disposed blocks as one: the header of the second becomes junk. */
  function Merged(a: Block, b: Block): (m: Block)
    requires a.Free? && b.Free?
    ensures m.Free?
  {
    Free(a.junk + EncodeBlock(b))
  }

  /** The first object with this id, if it has stored bytes, becomes a disposed block. */
  function Kill(bs: seq<Block>, id: u16): seq<Block> {
    if bs == [] then []
    else if bs[0].Object? && bs[0].id == id then (if Stored(bs[0]) == [] then bs else [Free(Body(bs[0]))] + bs[1..])
    else [bs[0]] + Kill(bs[1..], id)
  }

  function Dispose(bs: seq<Block>, id: u16): seq<Block> {
    MergePass(Kill(bs, id))
  }

  // ---------- allocation ----------

  /** The outcome of the search for room for a new object block. */
  datatype Place = NoRoom | Placed(pre: seq<Block>, obj: Block, post: seq<Block>)
  {
    function Chain(): seq<Block>
      requires Placed?
    {
      pre + [obj] + post
    }
  }

  /** First fit: the first disposed block with room for `want` bytes and the object fields. The
      rest of the block is split off unless it would be smaller than 8 bytes. */
  function Alloc(bs: seq<Block>, id: u16, want: nat): Place {
    if bs == [] then NoRoom
    else if bs[0].Free? && |bs[0].junk| >= want + 4 then Carve(bs[0].junk, id, want, bs[1..])
    else match Alloc(bs[1..], id, want)
      case NoRoom => NoRoom
      case Placed(pre, obj, post) => Placed([bs[0]] + pre, obj, post)
  }

  function Carve(junk: seq<byte>, id: u16, want: nat, rest: seq<Block>): Place
    requires |junk| >= want + 4
  {
    if |junk| < want + 12 then Placed([], Object((|junk| - 4) % 0x10000, id, junk[4..]), rest)
    else Placed([], Object(want % 0x10000, id, junk[4..want + 4]), [Free(junk[want + 7..])] + rest)
  }

  function Prefixed(front: seq<Block>, p: Place): Place {
    match p
    case NoRoom => NoRoom
    case Placed(pre, obj, post) => Placed(front + pre, obj, post)
  }

  /** The search passes over every block without room. */
  lemma {:induction false} AllocSkips(bs: seq<Block>, k: nat, id: u16, want: nat)
    requires k <= |bs| && forall j :: 0 <= j < k ==> !(bs[j].Free? && |bs[j].junk| >= want + 4)
    ensures Alloc(bs, id, want) == Prefixed(bs[..k], Alloc(bs[k..], id, want))
  {
    if k > 0 {
      hide Carve;
      AllocSkips(bs[1..], k - 1, id, want);
      SliceTail(bs, k);
      var p := Alloc(bs[k..], id, want);
      if p.Placed? {
        assert [bs[0]] + (bs[1..][..k - 1] + p.pre) == bs[..k] + p.pre;
      }
    } else {
      var p := Alloc(bs, id, want);
      assert bs[0..] == bs && (p.Placed? ==> bs[..0] + p.pre == p.pre);
    }
  }

  lemma AllocHere(junk: seq<byte>, post: seq<Block>, id: u16, want: nat)
    requires |junk| >= want + 4
    ensures Alloc([Free(junk)] + post, id, want) == Carve(junk, id, want, post)
    ensures Carve(junk, id, want, post).Placed? && Carve(junk, id, want, post).obj.Object?
    ensures Carve(junk, id, want, post).pre == []
  {
    assert ([Free(junk)] + post)[1..] == post;
  }

  /** A chain shorter than an object block has no room for one. */
  lemma {:induction false} AllocShort(bs: seq<Block>, id: u16, want: nat)
    requires |Encode(bs)| < want + 7
    ensures Alloc(bs, id, want) == NoRoom
  {
    if bs != [] {
      AllocShort(bs[1..], id, want);
    }
  }

  /** `c` is the chain `pre`, `post` with the `size` bytes between them filled by one or two blocks of which
      at most one is an object. */
  ghost predicate FillsGap(c: seq<Block>, pre: seq<Block>, size: nat, post: seq<Block>) {
    exists now ::
      c == pre + now + post && |Encode(now)| == size && |now| <= 2 && NoEmptyFree(now) && |Objects(now)| <= 1
  }

  /** `c` is `bs` with one disposed block replaced by blocks of the same total size, at most one
      of them an object. All other blocks keep their place and bytes. */
  ghost predicate OneMore(c: seq<Block>, bs: seq<Block>) {
    exists pre, f: Block, post :: bs == pre + [f] + post && f.Free? && FillsGap(c, pre, |EncodeBlock(f)|, post)
  }

  lemma OneBlock(b: Block, ids: set<int>)
    ensures |Encode([b])| == 3 + |Body(b)| && |Objects([b])| <= 1
    ensures NoEmptyFree([b]) <==> b.Object? || b.junk != []
    ensures Others([b], ids) == if b.Object? && b.id !in ids then [b] else []
  {
    hide Body;
    assert [b][1..] == [];
    assert Encode([b]) == EncodeBlock(b) + Encode([]);
    assert Objects([b]) == if b.Object? then [b] + Objects([]) else Objects([]);
  }

  lemma GapOne(pre: seq<Block>, b: Block, post: seq<Block>)
    requires Body(b) != []
    ensures FillsGap(pre + [b] + post, pre, 3 + |Body(b)|, post)
  {
    var now := [b];
    OneBlock(b, {});
    hide Encode, Objects, NoEmptyFree;
    assert pre + now + post == pre + [b] + post && |now| <= 2 && NoEmptyFree(now);
  }

  lemma GapTwo(pre: seq<Block>, o: Block, t: Block, post: seq<Block>)
    requires o.Object? && t.Free? && t.junk != []
    ensures pre + [o] + ([t] + post) == pre + [o, t] + post
    ensures FillsGap(pre + [o] + ([t] + post), pre, 6 + |Body(o)| + |Body(t)|, post)
  {
    hide Body, EncodeBlock;
    PairSizes(o, t);
    assert pre + [o] + ([t] + post) == pre + [o, t] + post;
  }

  lemma PairSizes(o: Block, t: Block)
    requires o.Object? && t.Free? && t.junk != []
    ensures |Encode([o, t])| == 6 + |Body(o)| + |Body(t)| && |Objects([o, t])| == 1 && NoEmptyFree([o, t])
  {
    assert [o, t][1..] == [t] && [t][1..] == [];
    assert |Encode([t])| == |EncodeBlock(t)| + |Encode([])|;
    assert Objects([t]) == Objects([]);
  }

  /** The objects whose ids are not in `ids`, in order. */
  function Others(bs: seq<Block>, ids: set<int>): seq<Block> {
    if bs == [] then []
    else if bs[0].Object? && bs[0].id !in ids then [bs[0]] + Others(bs[1..], ids)
    else Others(bs[1..], ids)
  }

  lemma {:induction false} OthersConcat(a: seq<Block>, b: seq<Block>, ids: set<int>)
    ensures Others(a + b, ids) == Others(a, ids) + Others(b, ids)
  {
    if a == [] {
      assert a + b == b;
    } else {
      assert (a + b)[1..] == a[1..] + b && (a + b)[0] == a[0];
      OthersConcat(a[1..], b, ids);
    }
  }

  lemma {:induction false} OthersFewer(bs: seq<Block>, ids: set<int>, more: set<int>)
    requires ids <= more
    ensures Others(Others(bs, ids), more) == Others(bs, more)
  {
    if bs != [] {
      OthersFewer(bs[1..], ids, more);
    }
  }

  /** Chains that agree on all objects but `ids` agree on all objects but more of them. */
  lemma OthersAgree(c: seq<Block>, bs: seq<Block>, ids: set<int>, more: set<int>)
    requires ids <= more && Others(c, ids) == Others(bs, ids)
    ensures Others(c, more) == Others(bs, more)
  {
    hide Others;
    OthersFewer(c, ids, more);
    OthersFewer(bs, ids, more);
  }

  lemma {:induction false} OthersOfObjects(bs: seq<Block>, ids: set<int>)
    ensures Others(Objects(bs), ids) == Others(bs, ids)
  {
    if bs != [] {
      OthersOfObjects(bs[1..], ids);
    }
  }

  function Bare(layout: seq<(nat, Block)>): seq<Block> {
    if layout == [] then [] else [layout[0].1] + Bare(layout[1..])
  }

  lemma {:induction false} LayoutObjects(bs: seq<Block>, at: nat)
    ensures Bare(Layout(bs, at)) == Objects(bs)
  {
    hide EncodeBlock;
    if bs != [] {
      LayoutObjects(bs[1..], at + |EncodeBlock(bs[0])|);
      assert Layout(bs, at) == LayoutOne(bs[0], at) + Layout(bs[1..], at + |EncodeBlock(bs[0])|);
      if bs[0].Object? {
        assert Layout(bs, at)[1..] == Layout(bs[1..], at + |EncodeBlock(bs[0])|);
      } else {
        assert Layout(bs, at) == Layout(bs[1..], at + |EncodeBlock(bs[0])|);
      }
    }
  }

  /** Objects in the same places are the same objects. */
  lemma SameLayoutSameOthers(c: seq<Block>, bs: seq<Block>, at: nat, ids: set<int>)
    requires Layout(c, at) == Layout(bs, at)
    ensures Objects(c) == Objects(bs) && Others(c, ids) == Others(bs, ids)
  {
    hide Others, Layout, Objects;
    LayoutObjects(c, at);
    LayoutObjects(bs, at);
    OthersOfObjects(c, ids);
    OthersOfObjects(bs, ids);
  }

  lemma SameObjectsSameOthers(c: seq<Block>, bs: seq<Block>, ids: set<int>)
    requires Objects(c) == Objects(bs)
    ensures Others(c, ids) == Others(bs, ids)
  {
    hide Others, Objects;
    OthersOfObjects(c, ids);
    OthersOfObjects(bs, ids);
  }

  lemma OneMoreOthers(c: seq<Block>, bs: seq<Block>) returns (id: u16)
    requires OneMore(c, bs)
    ensures Others(c, {id}) == Others(bs, {id})
  {
    var pre, f: Block, post :| bs == pre + [f] + post && f.Free? && FillsGap(c, pre, |EncodeBlock(f)|, post);
    var now :| c == pre + now + post && |Encode(now)| == |EncodeBlock(f)| && |now| <= 2 && NoEmptyFree(now)
               && |Objects(now)| <= 1;
    var objects := Objects(now);
    ObjectsAreObjects(now);
    id := if objects == [] then 0 else objects[0].id;
    OthersOfObjects(now, {id});
    assert Others(objects, {id}) == [] by {
      if objects != [] { assert objects[1..] == []; assert Others(objects, {id}) == Others([], {id}); }
    }
    assert Others([f], {id}) == Others([], {id});
    hide Others;
    OthersConcat(pre, now, {id});
    OthersConcat(pre, [f], {id});
    OthersConcat(pre + now, post, {id});
    OthersConcat(pre + [f], post, {id});
  }

  lemma {:induction false} ObjectsAreObjects(bs: seq<Block>)
    ensures forall j :: 0 <= j < |Objects(bs)| ==> Objects(bs)[j].Object?
  {
    if bs != [] {
      ObjectsAreObjects(bs[1..]);
    }
  }

  lemma {:induction false} KillSpares(bs: seq<Block>, id: u16)
    ensures Others(Kill(bs, id), {id}) == Others(bs, {id})
  {
    hide Body, Stored;
    if bs != [] && !(bs[0].Object? && bs[0].id == id) {
      KillSpares(bs[1..], id);
    }
  }

  /** A power-cut state of an operation on `own` does no harm beyond one more id: all objects but
      `own`, a half-made object of id zero and that one are as in `bs`. */
  ghost predicate Harmless(c: seq<Block>, own: u16, bs: seq<Block>) {
    exists id: u16 :: Others(c, {0, own, id}) == Others(bs, {0, own, id})
  }

  lemma HarmlessBut(c: seq<Block>, id: u16, cur: seq<Block>, own: u16, bs: seq<Block>)
    requires Others(c, {id}) == Others(cur, {id}) && Others(cur, {0, own}) == Others(bs, {0, own})
    ensures Harmless(c, own, bs)
  {
    OthersAgree(c, cur, {id}, {0, own, id});
    OthersAgree(cur, bs, {0, own}, {0, own, id});
  }

  lemma HarmlessSame(c: seq<Block>, own: u16, bs: seq<Block>)
    requires Others(c, {0, own}) == Others(bs, {0, own})
    ensures Harmless(c, own, bs)
  {
    OthersAgree(c, bs, {0, own}, {0, own, 0});
  }

  lemma HarmlessForOther(c: seq<Block>, cur: seq<Block>, own: u16, bs: seq<Block>)
    requires Harmless(c, 0, cur) && Others(cur, {0, own}) == Others(bs, {0, own})
    ensures Harmless(c, own, bs)
  {
    var id: u16 :| Others(c, {0, 0, id}) == Others(cur, {0, 0, id});
    OthersAgree(c, cur, {0, 0, id}, {0, own, id});
    OthersAgree(cur, bs, {0, own}, {0, own, id});
  }

  /** Exchanging a block whose id does not matter. */
  lemma OthersExchange(pre: seq<Block>, a: Block, b: Block, post: seq<Block>, ids: set<int>)
    requires (a.Object? ==> a.id in ids) && (b.Object? ==> b.id in ids)
    ensures Others(pre + [a] + post, ids) == Others(pre + [b] + post, ids)
  {
    assert Others([a], ids) == Others([], ids);
    assert Others([b], ids) == Others([], ids);
    hide Others;
    OthersConcat(pre, [a], ids);
    OthersConcat(pre, [b], ids);
    OthersConcat(pre + [a], post, ids);
    OthersConcat(pre + [b], post, ids);
  }

  /** `c` is `pre`, `post` with at most `width` blocks between them that hold no object but possibly `id`. */
  ghost predicate SparesAround(c: seq<Block>, pre: seq<Block>, id: u16, post: seq<Block>, width: nat) {
    exists now :: c == pre + now + post && |now| <= width && NoEmptyFree(now) && Others(now, {id}) == []
  }

  lemma SparesOne(pre: seq<Block>, b: Block, id: u16, post: seq<Block>, width: nat)
    requires (if b.Object? then b.id == id else b.junk != []) && width > 0
    ensures SparesAround(pre + [b] + post, pre, id, post, width)
  {
    var now := [b];
    OneBlock(b, {id});
    hide Others, NoEmptyFree;
    assert pre + now + post == pre + [b] + post && |now| <= width && NoEmptyFree(now);
  }

  lemma SparesPair(pre: seq<Block>, a: Block, b: Block, id: u16, post: seq<Block>)
    requires (if a.Object? then a.id == id else a.junk != []) && if b.Object? then b.id == id else b.junk != []
    ensures SparesAround(pre + [a, b] + post, pre, id, post, 2)
  {
    assert [a, b][1..] == [b] && [b][1..] == [];
    assert Others([b], {id}) == Others([], {id});
    assert Others([a, b], {id}) == Others([b], {id});
    assert NoEmptyFree([b]);
  }

  lemma SparesSame(c: seq<Block>, bs: seq<Block>, pre: seq<Block>, id: u16, post: seq<Block>, width: nat)
    requires SparesAround(c, pre, id, post, width) && SparesAround(bs, pre, id, post, width)
    ensures Others(c, {id}) == Others(bs, {id})
  {
    var x :| c == pre + x + post && |x| <= width && NoEmptyFree(x) && Others(x, {id}) == [];
    var y :| bs == pre + y + post && |y| <= width && NoEmptyFree(y) && Others(y, {id}) == [];
    hide Others;
    OthersConcat(pre, x, {id});
    OthersConcat(pre, y, {id});
    OthersConcat(pre + x, post, {id});
    OthersConcat(pre + y, post, {id});
  }

  /** The object that a disposed block turns into when only its type byte changes: the stale
      bytes become used size, id and data. */
  function AsObject(junk: seq<byte>): (b: Block)
    requires |junk| >= 4
  {
    Object(FromU16(junk[0], junk[1]), FromU16(junk[2], junk[3]), junk[4..])
  }

  lemma AsObjectBody(junk: seq<byte>)
    requires |junk| >= 4
    ensures Body(AsObject(junk)) == junk == Body(Free(junk))
  {
    BytesOfU16(junk[0], junk[1]);
    BytesOfU16(junk[2], junk[3]);
    FourBytes(junk);
    hide U16, FromU16;
  }

  lemma FourBytes(s: seq<byte>)
    requires |s| >= 4
    ensures s == [s[0], s[1]] + [s[2], s[3]] + s[4..]
  {
  }

  /** Writing the header of a disposed block into the stale bytes of another. */
  lemma TailBytes(junk: seq<byte>, at: nat)
    requires at + 3 <= |junk|
    ensures var tail := Free(junk[at + 3..]);
      && |junk[..at] + EncodeBlock(tail)| == |junk|
      && Splice(Splice(junk, at, [DISPOSED_BLOCK]), at + 1, U16(|tail.junk|)) == junk[..at] + EncodeBlock(tail)
  {
    SpliceTwice(junk, at, [DISPOSED_BLOCK], U16(|junk| - at - 3));
  }

  // ---------- defragmentation ----------

  /** The first disposed block is directly followed by an object. */
  predicate CanMove(bs: seq<Block>) {
    |bs| >= 2 && if bs[0].Free? then bs[1].Object? else CanMove(bs[1..])
  }

  /** The first disposed block and the object behind it swap places. The disposed block keeps
      its length and covers whatever bytes the copy left there. */
  function Move(bs: seq<Block>): seq<Block>
    requires CanMove(bs)
  {
    if bs[0].Free? then [bs[1], Free(Leftover(bs[0], bs[1]))] + bs[2..]
    else [bs[0]] + Move(bs[1..])
  }

  function Leftover(f: Block, o: Block): (junk: seq<byte>)
    requires f.Free?
    ensures |junk| == |f.junk|
  {
    (f.junk + EncodeBlock(o))[3 + |Body(o)|..]
  }

  /** The number of objects behind the first disposed block. */
  function Behind(bs: seq<Block>): nat {
    if bs == [] then 0
    else if bs[0].Free? then |Objects(bs[1..])|
    else Behind(bs[1..])
  }

  lemma {:induction false} MergeSkips(bs: seq<Block>, k: nat)
    requires k <= |bs| && forall j :: 0 <= j < k ==> bs[j].Object?
    ensures MergePass(bs) == bs[..k] + MergePass(bs[k..])
  {
    hide MergePass;
    if k > 0 {
      MergeSingle(bs);
      MergeSkips(bs[1..], k - 1);
      SliceTail(bs, k);
    } else {
      assert bs[..0] == [] && bs[0..] == bs;
    }
  }

  lemma MergeSingle(bs: seq<Block>)
    requires bs != [] && !(|bs| >= 2 && bs[0].Free? && bs[1].Free?)
    ensures MergePass(bs) == [bs[0]] + MergePass(bs[1..])
  {
  }

  /** A merge pass joins the last two blocks of the chain. */
  predicate MergesLast(bs: seq<Block>) {
    |bs| >= 2 && if bs[0].Free? && bs[1].Free? then |bs| == 2 || MergesLast(bs[2..]) else MergesLast(bs[1..])
  }

  /** The number of disposed blocks that the chain ends with. */
  function TailRun(bs: seq<Block>): (r: nat)
    ensures r <= |bs| && forall j :: |bs| - r <= j < |bs| ==> bs[j].Free?
    ensures r < |bs| ==> bs[|bs| - r - 1].Object?
  {
    if bs == [] then 0
    else var r := TailRun(bs[1..]); if r == |bs| - 1 && bs[0].Free? then |bs| else r
  }

  /** The last two blocks are joined exactly when the chain ends in an even number of disposed blocks. */
  lemma {:induction false} MergesLastIff(bs: seq<Block>)
    ensures MergesLast(bs) <==> TailRun(bs) > 0 && TailRun(bs) % 2 == 0
  {
    if |bs| >= 2 {
      if bs[0].Free? && bs[1].Free? {
        MergesLastIff(bs[2..]);
        assert bs[1..][1..] == bs[2..];
      } else {
        MergesLastIff(bs[1..]);
      }
    } else if bs != [] {
      assert bs[1..] == [];
    }
  }

  lemma {:induction false} MergesLastSkips(bs: seq<Block>, k: nat)
    requires k <= |bs| && forall j :: 0 <= j < k ==> bs[j].Object?
    ensures MergesLast(bs) == MergesLast(bs[k..])
  {
    if k > 0 {
      MergesLastSkips(bs[1..], k - 1);
      SliceTail(bs, k);
    } else {
      assert bs[0..] == bs;
    }
  }

  lemma SliceMiddle(bs: seq<Block>, k: nat, b: Block)
    requires 0 < k < |bs|
    ensures bs[1..][k - 1] == bs[k]
    ensures [bs[0]] + (bs[1..][..k - 1] + [b] + bs[1..][k - 1 + 1..]) == bs[..k] + [b] + bs[k + 1..]
  {
  }

  lemma SliceTail(bs: seq<Block>, k: nat)
    requires 0 < k <= |bs|
    ensures bs[1..][k - 1..] == bs[k..] && bs[..k] == [bs[0]] + bs[1..][..k - 1]
  {
  }

  lemma {:induction false} MergeKeepsObjects(bs: seq<Block>)
    ensures Objects(MergePass(bs)) == Objects(bs)
    ensures Behind(MergePass(bs)) == Behind(bs)
  {
    if |bs| >= 2 {
      if bs[0].Free? && bs[1].Free? {
        MergeKeepsObjects(bs[2..]);
        assert bs[1..][1..] == bs[2..];
        assert MergePass(bs)[1..] == MergePass(bs[2..]);
      } else {
        MergeKeepsObjects(bs[1..]);
        assert MergePass(bs)[1..] == MergePass(bs[1..]);
      }
    }
  }

  /** Moving keeps the objects and their order, and leaves one object fewer behind the first
      disposed block: this is why defragmentation ends. */
  lemma {:induction false} MoveProgress(bs: seq<Block>)
    requires CanMove(bs)
    ensures Objects(Move(bs)) == Objects(bs)
    ensures Behind(Move(bs)) == Behind(bs) - 1
  {
    if bs[0].Free? {
      assert bs[1..][1..] == bs[2..];
      assert Move(bs)[1..][1..] == bs[2..];
      assert Move(bs)[1..][0] == Free(Leftover(bs[0], bs[1]));
    } else {
      MoveProgress(bs[1..]);
      assert Move(bs)[1..] == Move(bs[1..]);
    }
  }

  // ---------- runs of disposed blocks ----------

  /** The number of disposed blocks that the chain starts with. */
  function LeadRun(bs: seq<Block>): nat {
    if bs == [] || bs[0].Object? then 0 else 1 + LeadRun(bs[1..])
  }

  /** The length of the longest run of neighbouring disposed blocks. */
  function MaxRun(bs: seq<Block>): nat {
    if bs == [] then 0 else Max(LeadRun(bs), MaxRun(bs[1..]))
  }

  /** A merge pass turns a run of r disposed blocks into one of r/2, rounded up. */
  lemma {:induction false} MergeHalvesRuns(bs: seq<Block>)
    ensures LeadRun(MergePass(bs)) == (LeadRun(bs) + 1) / 2
    ensures MaxRun(MergePass(bs)) == (MaxRun(bs) + 1) / 2
  {
    if |bs| >= 2 {
      if bs[0].Free? && bs[1].Free? {
        MergeHalvesRuns(bs[2..]);
        assert bs[1..][1..] == bs[2..];
        assert MergePass(bs)[1..] == MergePass(bs[2..]);
      } else {
        MergeHalvesRuns(bs[1..]);
        assert MergePass(bs)[1..] == MergePass(bs[1..]);
      }
    }
  }

  /** Without neighbouring disposed blocks, the block behind a disposed block is an object. */
  lemma {:induction false} ObjectBehind(bs: seq<Block>, k: nat)
    requires MaxRun(bs) <= 1 && k + 1 < |bs| && bs[k].Free?
    ensures bs[k + 1].Object?
  {
    if k > 0 {
      ObjectBehind(bs[1..], k - 1);
    } else {
      assert LeadRun(bs) == 1 + LeadRun(bs[1..]);
    }
  }

  lemma MoveStep(bs: seq<Block>)
    requires bs != [] && bs[0].Object?
    ensures CanMove(bs) <==> CanMove(bs[1..])
    ensures CanMove(bs) ==> Move(bs) == [bs[0]] + Move(bs[1..])
  {
  }

  /** Move, seen from the place of the first disposed block. */
  lemma {:induction false} MoveAt(bs: seq<Block>, k: nat)
    requires k < |bs| && bs[k].Free? && forall j :: 0 <= j < k ==> bs[j].Object?
    ensures CanMove(bs) <==> k + 1 < |bs| && bs[k + 1].Object?
    ensures CanMove(bs) ==> Move(bs) == bs[..k] + [bs[k + 1], Free(Leftover(bs[k], bs[k + 1]))] + bs[k + 2..]
  {
    hide Leftover;
    if k > 0 {
      hide CanMove, Move;
      SliceOne(bs, k);
      MoveAt(bs[1..], k - 1);
      MoveStep(bs);
      if CanMove(bs) {
        SlicePair(bs, k, bs[k + 1], Free(Leftover(bs[k], bs[k + 1])));
      }
    } else {
      assert bs[..0] == [];
    }
  }

  lemma SliceOne(bs: seq<Block>, k: nat)
    requires 0 < k < |bs|
    ensures bs[1..][k - 1] == bs[k] && |bs[1..]| == |bs| - 1
    ensures k + 1 < |bs| ==> bs[1..][k] == bs[k + 1]
    ensures forall j :: 0 <= j < k - 1 ==> bs[1..][j] == bs[j + 1]
  {
  }

  lemma SlicePair(bs: seq<Block>, k: nat, x: Block, y: Block)
    requires 0 < k && k + 1 < |bs|
    ensures [bs[0]] + (bs[1..][..k - 1] + [x, y] + bs[1..][k - 1 + 2..]) == bs[..k] + [x, y] + bs[k + 2..]
    ensures bs[1..][k - 1] == bs[k] && bs[1..][k - 1 + 1] == bs[k + 1]
  {
  }

  lemma {:induction false} NoFreeNoMove(bs: seq<Block>)
    requires forall j :: 0 <= j < |bs| ==> bs[j].Object?
    ensures !CanMove(bs)
  {
    if bs != [] {
      NoFreeNoMove(bs[1..]);
    }
  }

  predicate NoEmptyFree(bs: seq<Block>) {
    bs == [] || ((bs[0].Free? ==> bs[0].junk != []) && NoEmptyFree(bs[1..]))
  }

  lemma {:induction false} NoEmptyFreeAt(bs: seq<Block>, k: nat)
    requires NoEmptyFree(bs) && k < |bs| && bs[k].Free?
    ensures |bs[k].junk| > 0
  {
    if k > 0 {
      NoEmptyFreeAt(bs[1..], k - 1);
    }
  }

  lemma {:induction false} MergeNoEmptyFree(bs: seq<Block>)
    requires NoEmptyFree(bs)
    ensures NoEmptyFree(MergePass(bs))
  {
    if |bs| >= 2 {
      if bs[0].Free? && bs[1].Free? {
        assert bs[1..][1..] == bs[2..];
        MergeNoEmptyFree(bs[2..]);
        assert MergePass(bs)[1..] == MergePass(bs[2..]);
      } else {
        MergeNoEmptyFree(bs[1..]);
        assert MergePass(bs)[1..] == MergePass(bs[1..]);
      }
    }
  }

  /** Moving keeps runs short: the moved block can only touch the next disposed block. */
  lemma {:induction false} MoveRuns(bs: seq<Block>)
    requires CanMove(bs) && NoEmptyFree(bs) && MaxRun(bs) <= 1
    ensures MaxRun(Move(bs)) <= 2 && NoEmptyFree(Move(bs))
    ensures bs[0].Object? ==> LeadRun(Move(bs)) == 0
  {
    hide Leftover;
    var m := Move(bs);
    assert LeadRun(bs) <= 1 && MaxRun(bs[1..]) <= 1;
    if bs[0].Free? {
      var rest := bs[2..];
      assert bs[1..][1..] == rest && m[1..][1..] == rest && m[1].Free? && m[0].Object?;
      assert LeadRun(rest) <= MaxRun(rest) <= 1 by { LeadRunIsRun(rest); }
      assert LeadRun(m[1..]) == 1 + LeadRun(rest);
    } else {
      MoveRuns(bs[1..]);
      assert m[1..] == Move(bs[1..]);
    }
  }

  lemma {:induction false} MoveNoEmptyFree(bs: seq<Block>)
    requires CanMove(bs) && NoEmptyFree(bs)
    ensures NoEmptyFree(Move(bs))
  {
    if bs[0].Free? {
      assert bs[1..][1..] == bs[2..] && Move(bs)[1..][1..] == bs[2..];
    } else {
      MoveNoEmptyFree(bs[1..]);
      assert Move(bs)[1..] == Move(bs[1..]);
    }
  }

  lemma LeadRunIsRun(bs: seq<Block>)
    ensures LeadRun(bs) <= MaxRun(bs)
  {
  }

  lemma {:induction false} KillNoEmptyFree(bs: seq<Block>, id: u16)
    requires NoEmptyFree(bs)
    ensures NoEmptyFree(Kill(bs, id))
  {
    if bs != [] && !(bs[0].Object? && bs[0].id == id) {
      KillNoEmptyFree(bs[1..], id);
    }
  }

  /** Merge and move until no disposed block is followed by an object. */
  function Compact(bs: seq<Block>): seq<Block>
    decreases Behind(bs)
  {
    var m := MergePass(bs);
    MergeKeepsObjects(bs);
    if CanMove(m) then MoveProgress(m); Compact(Move(m)) else m
  }

  lemma CompactStep(bs: seq<Block>)
    ensures var m := MergePass(bs);
      if CanMove(m) then Compact(bs) == Compact(Move(m)) else Compact(bs) == m
  {
    hide MergePass, Move, CanMove;
  }

  lemma {:induction false} CompactKeepsObjects(bs: seq<Block>)
    ensures Objects(Compact(bs)) == Objects(bs)
    decreases Behind(bs)
  {
    hide MergePass, Move, CanMove, Behind;
    var m := MergePass(bs);
    MergeKeepsObjects(bs);
    CompactStep(bs);
    if CanMove(m) {
      MoveProgress(m);
      CompactKeepsObjects(Move(m));
    }
  }

  /** A chain of objects with at most one disposed block, at the end. */
  ghost predicate Compacted(bs: seq<Block>) {
    bs == Objects(bs) || (bs != [] && bs[|bs| - 1].Free? && bs == Objects(bs) + [bs[|bs| - 1]])
  }

  lemma {:induction false} StuckIsCompacted(bs: seq<Block>)
    requires MaxRun(bs) <= 1 && !CanMove(bs)
    ensures Compacted(bs)
  {
    if bs != [] {
      if bs[0].Free? {
        if |bs| > 1 {
          ObjectBehind(bs, 0);
        }
        assert Objects(bs) == Objects(bs[1..]);
        assert bs == [bs[0]];
      } else {
        StuckIsCompacted(bs[1..]);
        assert bs == [bs[0]] + bs[1..];
        if bs[1..] != Objects(bs[1..]) {
          assert bs[1..][|bs| - 2] == bs[|bs| - 1];
          assert bs == [bs[0]] + (Objects(bs[1..]) + [bs[|bs| - 1]]);
        }
      }
    }
  }

  /** Compacting ends, keeps all objects in order and leaves at most one disposed block, at the
      end, provided that no run is longer than two. */
  lemma {:induction false} CompactResult(bs: seq<Block>)
    requires MaxRun(bs) <= 2 && NoEmptyFree(bs)
    ensures Compacted(Compact(bs)) && Objects(Compact(bs)) == Objects(bs)
    decreases Behind(bs)
  {
    hide MergePass, Move, Compacted, CanMove, Behind, NoEmptyFree, MaxRun;
    var m := MergePass(bs);
    MergeKeepsObjects(bs);
    MergeHalvesRuns(bs);
    MergeNoEmptyFree(bs);
    CompactStep(bs);
    if CanMove(m) {
      MoveProgress(m);
      MoveRuns(m);
      CompactResult(Move(m));
    } else {
      StuckIsCompacted(m);
    }
  }

  /** Defragmentation of a chain without long runs: every object but a half-made one keeps id,
      bytes and order, and all free space ends up in one block. */
  lemma DefragResult(bs: seq<Block>)
    requires MaxRun(Kill(bs, 0)) <= 4 && NoEmptyFree(bs)
    ensures Compacted(Defrag(bs)) && Objects(Defrag(bs)) == Objects(Kill(bs, 0))
  {
    hide Compact, MergePass, Kill, MaxRun, NoEmptyFree, Compacted;
    MergeHalvesRuns(Kill(bs, 0));
    KillNoEmptyFree(bs, 0);
    MergeNoEmptyFree(Kill(bs, 0));
    MergeKeepsObjects(Kill(bs, 0));
    CompactResult(Dispose(bs, 0));
  }

  function Defrag(bs: seq<Block>): seq<Block> {
    Compact(Dispose(bs, 0))
  }

  /** Bytes that the code reports as free: every disposed block with its header, plus a header
      for the end of the chain when it ends in an object, minus one header. */
  function FreeSpace(bs: seq<Block>): int {
    FreeBytes(bs) + (if bs != [] && bs[|bs| - 1].Free? then 0 else 3) - 3
  }

  function FreeBytes(bs: seq<Block>): nat {
    if bs == [] then 0 else (if bs[0].Free? then 3 + |bs[0].junk| else 0) + FreeBytes(bs[1..])
  }
}
