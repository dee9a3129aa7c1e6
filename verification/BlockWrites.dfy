/** How overwriting one field of an encoded chain changes the chain it encodes. */
module BlockWrites {
  import opened Bytes
  import opened Blocks

  /** Read a block header at its place in the image. */
  lemma HeaderAt(head: seq<byte>, pre: seq<Block>, post: seq<Block>)
    requires post != []
    ensures var img, at := head + Encode(pre + post), |head| + |Encode(pre)|;
      && |img| == at + |Encode(post)| && |Encode(post)| == 3 + |Body(post[0])| + |Encode(post[1..])|
      && img[at] == Tag(post[0])
      && img[at + 1] == U16(|Body(post[0])|)[0] && img[at + 2] == U16(|Body(post[0])|)[1]
      && img[at + 3..at + 3 + |Body(post[0])|] == Body(post[0])
  {
    var b := post[0];
    ImageAt(head, pre, post);
    var h := [Tag(b)] + U16(|Body(b)|);
    var at := head + Encode(pre);
    assert EncodeBlock(b) == h + Body(b);
    ReadMiddle(at, h, Body(b) + Encode(post[1..]));
    ReadMiddle(at + h, Body(b), Encode(post[1..]));
    assert h[0] == Tag(b) && h[1] == U16(|Body(b)|)[0] && h[2] == U16(|Body(b)|)[1];
    Shift(at, h, Body(b), Encode(post[1..]));
  }

  /** Read the object fields behind a block header at their place in the image. */
  lemma FieldsAt(head: seq<byte>, pre: seq<Block>, post: seq<Block>)
    requires post != [] && post[0].Object?
    ensures var img, at, b := head + Encode(pre + post), |head| + |Encode(pre)|, post[0];
      && |img| >= at + 7 && |Body(b)| == 4 + |b.data|
      && FromU16(img[at + 3], img[at + 4]) == b.used
      && FromU16(img[at + 5], img[at + 6]) == b.id
      && |Encode(post)| == 7 + |b.data| + |Encode(post[1..])|
  {
    hide Encode;
    var img, at, b := head + Encode(pre + post), |head| + |Encode(pre)|, post[0];
    HeaderAt(head, pre, post);
    U16RoundTrip(b.used);
    U16RoundTrip(b.id);
    var s := Body(b);
    assert img[at + 3..at + 3 + |s|] == s;
    assert img[at + 3] == s[0] && img[at + 4] == s[1] && img[at + 5] == s[2] && img[at + 6] == s[3];
  }

  lemma ImageAt(head: seq<byte>, pre: seq<Block>, post: seq<Block>)
    requires post != []
    ensures head + Encode(pre + post) == head + Encode(pre) + EncodeBlock(post[0]) + Encode(post[1..])
  {
    assert pre + post == pre + [post[0]] + post[1..];
    ImageOf(head, pre, [post[0]], post[1..]);
    EncodeOne(post[0]);
  }

  lemma Shift(a: seq<byte>, b: seq<byte>, c: seq<byte>, d: seq<byte>)
    ensures a + (b + c) + d == a + b + (c + d)
    ensures a + (b + c) + d == a + b + c + d
  {
  }

  /** Stepping over one block at a block boundary. */
  lemma StepOver(pre: seq<Block>, post: seq<Block>)
    requires post != []
    ensures pre + [post[0]] + post[1..] == pre + post
    ensures |Encode(pre + [post[0]])| == |Encode(pre)| + 3 + |Body(post[0])|
    ensures |Encode(post)| == 3 + |Body(post[0])| + |Encode(post[1..])|
  {
    hide Encode, Body;
    EncodeConcat(pre, [post[0]]);
    EncodeOne(post[0]);
    EncodeHead(post);
    Rejoin(pre, post);
  }

  lemma Rejoin(pre: seq<Block>, post: seq<Block>)
    requires post != []
    ensures pre + [post[0]] + post[1..] == pre + post
  {
  }

  lemma EncodeHead(bs: seq<Block>)
    requires bs != []
    ensures |Encode(bs)| == 3 + |Body(bs[0])| + |Encode(bs[1..])|
  {
  }

  lemma EncodeOne(b: Block)
    ensures Encode([b]) == EncodeBlock(b) && |Encode([b])| == 3 + |Body(b)|
  {
    assert Encode([b]) == EncodeBlock(b) + Encode([]);
  }

  lemma EncodeTwo(a: Block, b: Block)
    ensures Encode([a, b]) == EncodeBlock(a) + EncodeBlock(b)
  {
    assert [a, b] == [a] + [b];
    EncodeConcat([a], [b]);
    EncodeOne(a);
    EncodeOne(b);
  }

  /** A local rewrite of some blocks is a rewrite of the whole image. */
  lemma Lift(head: seq<byte>, pre: seq<Block>, was: seq<Block>, now: seq<Block>, post: seq<Block>, at: nat,
      t: seq<byte>)
    requires at + |t| <= |Encode(was)| && Splice(Encode(was), at, t) == Encode(now)
    ensures |head| + |Encode(pre)| + at + |t| <= |head + Encode(pre + was + post)|
    ensures Splice(head + Encode(pre + was + post), |head| + |Encode(pre)| + at, t) == head + Encode(pre + now + post)
  {
    hide Encode;
    ImageOf(head, pre, was, post);
    ImageOf(head, pre, now, post);
    SpliceInside(head + Encode(pre + was + post), head + Encode(pre), Encode(was), Encode(post), at, t);
  }

  lemma ImageOf(head: seq<byte>, pre: seq<Block>, mid: seq<Block>, post: seq<Block>)
    ensures head + Encode(pre + mid + post) == head + Encode(pre) + Encode(mid) + Encode(post)
  {
    EncodeConcat(pre, mid);
    EncodeConcat(pre + mid, post);
    Regroup(head, Encode(pre), Encode(mid), Encode(post));
  }

  /** Overwriting the type byte. */
  lemma Retag(was: Block, now: Block)
    requires Body(was) == Body(now)
    ensures |Encode([was])| >= 1 && Splice(Encode([was]), 0, [Tag(now)]) == Encode([now])
  {
    EncodeOne(was);
    EncodeOne(now);
  }

  /** Overwriting the size field of a header. */
  lemma SpliceSize(tag: byte, was: seq<byte>, now: seq<byte>, rest: seq<byte>)
    requires |was| == |now| == 2
    ensures Splice([tag] + was + rest, 1, now) == [tag] + now + rest
  {
  }

  lemma Header(b: Block)
    ensures EncodeBlock(b) == [Tag(b)] + U16(|Body(b)|) + Body(b) && |U16(|Body(b)|)| == 2
  {
  }

  lemma Append(a: seq<byte>, b: seq<byte>, c: seq<byte>)
    ensures a + (b + c) == a + b + c
  {
  }

  /** Overwriting the size field of a disposed block so that it swallows the next block. */
  lemma Join(a: Block, b: Block)
    requires a.Free?
    ensures |Encode([a, b])| >= 3
    ensures Splice(Encode([a, b]), 1, U16(|a.junk| + 3 + |Body(b)|)) == Encode([Free(a.junk + EncodeBlock(b))])
  {
    var m := Free(a.junk + EncodeBlock(b));
    FreeBody(a.junk);
    FreeBody(m.junk);
    assert |Body(m)| == |a.junk| + 3 + |Body(b)| && Tag(a) == Tag(m);
    hide Encode, EncodeBlock, Body, U16, Splice;
    EncodeTwo(a, b);
    EncodeOne(m);
    Header(a);
    Header(m);
    Append([Tag(a)] + U16(|Body(a)|), a.junk, EncodeBlock(b));
    SpliceSize(Tag(a), U16(|Body(a)|), U16(|Body(m)|), m.junk);
  }

  /** Two disposed blocks and their merger take the same space and hold no object. */
  lemma SameSpace(a: Block, b: Block, at: nat)
    requires a.Free? && b.Free?
    ensures |Encode([a, b])| == |Encode([Merged(a, b)])| == 6 + |a.junk| + |b.junk|
    ensures Layout([a, b], at) == [] == Layout([Merged(a, b)], at)
  {
    EncodeTwo(a, b);
    EncodeOne(Merged(a, b));
    assert [a, b][1..] == [b] && [b][1..] == [] && [Merged(a, b)][1..] == [];
    assert forall n: nat :: Layout([b], n) == LayoutOne(b, n) + Layout([], n + |EncodeBlock(b)|);
  }

  /** Overwriting the size field of a block so that its tail becomes a block of its own. */
  lemma Split(was: Block, now: Block, tail: Block)
    requires Tag(was) == Tag(now) && Body(was) == Body(now) + EncodeBlock(tail)
    ensures |Encode([was])| >= 3
    ensures Splice(Encode([was]), 1, U16(|Body(now)|)) == Encode([now, tail])
  {
    hide Encode, EncodeBlock, Body, U16, Splice;
    EncodeOne(was);
    EncodeTwo(now, tail);
    Header(was);
    Header(now);
    Append([Tag(now)] + U16(|Body(now)|), Body(now), EncodeBlock(tail));
    SpliceSize(Tag(was), U16(|Body(was)|), U16(|Body(now)|), Body(was));
  }

  /** Overwriting bytes of a body. */
  lemma Rewrite(was: Block, now: Block, at: nat, t: seq<byte>)
    requires Tag(was) == Tag(now) && at + |t| <= |Body(was)| && Body(now) == Splice(Body(was), at, t)
    ensures 3 + at + |t| <= |Encode([was])|
    ensures Splice(Encode([was]), 3 + at, t) == Encode([now])
  {
    EncodeOne(was);
    EncodeOne(now);
    var h := [Tag(was)] + U16(|Body(was)|);
    assert EncodeBlock(was) == h + Body(was) + [];
    assert EncodeBlock(now) == h + Body(now) + [];
    SpliceInside(EncodeBlock(was), h, Body(was), [], at, t);
  }

  /** Overwriting a size field with the size it has. */
  lemma SameSize(b: Block)
    ensures |Encode([b])| >= 3 && Splice(Encode([b]), 1, U16(|Body(b)|)) == Encode([b])
  {
    EncodeOne(b);
  }

  lemma FieldBodies(used: u16, id: u16, o: Block)
    requires o.Object?
    ensures |Body(o)| == 4 + |o.data|
    ensures Body(Object(used, o.id, o.data)) == Splice(Body(o), 0, U16(used))
    ensures Body(Object(used, id, o.data)) == Splice(Body(Object(used, o.id, o.data)), 2, U16(id))
  {
  }
}
