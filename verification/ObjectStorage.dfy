/** The object store: blocks in EEPROM, found, allocated, moved and rewritten in place. */
module ObjectStorage {
  import opened Bytes
  import opened Blocks
  import opened BlockWrites
  import opened EepromStreams
  import opened StoreSpec
  import opened StoreLaws
  import opened DisposedRuns
  import opened PowerCuts
  import opened AllocationCuts
  import opened DefragCuts
  import Crc8

  /** Offset of the object area: two header bytes and thirty reserved bytes come first. */
  const OBJECTS := 32

  const REFERENCE_HEADER: u16 := 0x6901

  ghost predicate Formatted(image: seq<byte>) {
    |image| >= OBJECTS && image[0] == 0x01 && image[1] == 0x69
  }

  lemma FormattedHeader(image: seq<byte>)
    requires |image| >= OBJECTS
    ensures FromU16(image[0], image[1]) == REFERENCE_HEADER <==> Formatted(image)
    ensures image == image[..OBJECTS] + image[OBJECTS..]
  {
  }

  /** A cleared image with a block header at the start of the object area. */
  lemma FormattedImage(clear: seq<byte>, size: nat)
    requires |clear| == OBJECTS + 3 + size && size < 0x10000
    requires forall i :: OBJECTS <= i < |clear| ==> clear[i] == 0
    ensures var image := Splice(Splice(clear, OBJECTS, [DISPOSED_BLOCK]), OBJECTS + 1, U16(size));
      && image[..OBJECTS] == clear[..OBJECTS]
      && image[OBJECTS..] == Encode([Free(seq(size, _ => 0))])
  {
    var b := Free(seq(size, _ => 0));
    EncodeOne(b);
    SpliceTwice(clear, OBJECTS, [DISPOSED_BLOCK], U16(size));
    assert EncodeBlock(b) == [DISPOSED_BLOCK] + U16(size) + b.junk;
    assert clear[OBJECTS + 3..] == b.junk;
    hide Encode;
    var image := Splice(clear, OBJECTS, [DISPOSED_BLOCK] + U16(size));
    assert image == clear[..OBJECTS] + ([DISPOSED_BLOCK] + U16(size) + b.junk);
  }

  lemma FirstBytes(a: seq<byte>, b: seq<byte>)
    requires |a| >= OBJECTS && |b| >= OBJECTS && a[..OBJECTS] == b[..OBJECTS]
    ensures b[0] == a[0] && b[1] == a[1]
  {
    assert a[..OBJECTS][0] == b[..OBJECTS][0] && a[..OBJECTS][1] == b[..OBJECTS][1];
  }

  /** The blocks that a search for a type skips, and the rest of the chain from the hit on. */
  function Skipped(bs: seq<Block>, tag: byte): (k: nat)
    ensures k <= |bs|
  {
    if bs == [] || Tag(bs[0]) == tag then 0 else 1 + Skipped(bs[1..], tag)
  }

  class EepromObjectStorage {
    const rom: Eeprom
    const reader: EepromDataIn
    const writer: EepromDataOut
    /** Everything before the object area. */
    ghost var head: seq<byte>
    /** The chain that the object area encodes. */
    ghost var blocks: seq<Block>
    /** The chains encoded by the power-cut states logged by the EEPROM. */
    ghost var cuts: seq<seq<Block>>

    ghost predicate Valid()
      reads this, rom, rom.data, reader, writer
    {
      && reader.rom == rom && writer.rom == rom
      && |head| == OBJECTS && rom.data.Length < 0x10000
      && rom.Image() == head + Encode(blocks)
      && |cuts| == |rom.log|
      && forall i :: 0 <= i < |cuts| ==> rom.log[i] == head + Encode(cuts[i]) && |rom.log[i]| == rom.data.Length
    }

    /** Every power-cut state is a chain that fills the object area. */
    lemma CutsAreTiled()
      requires Valid()
      ensures forall i :: 0 <= i < |cuts| ==> |Encode(cuts[i])| == |Encode(blocks)| < 0x10000
    {
      hide Encode;
      forall i | 0 <= i < |cuts| ensures |Encode(cuts[i])| == |Encode(blocks)| {
        assert |rom.log[i]| == |rom.Image()|;
      }
    }

    /** The reader is at a block boundary. */
    ghost predicate At(pre: seq<Block>, post: seq<Block>)
      reads this, reader, reader.rom
    {
      && blocks == pre + post && reader.Inside()
      && reader.offset == OBJECTS + |Encode(pre)| && reader.length == |Encode(post)|
    }

    /** The reader is behind the header of the first block of `post`, or at the end. */
    ghost predicate Behind3(pre: seq<Block>, post: seq<Block>)
      reads this, reader, reader.rom
    {
      && blocks == pre + post && reader.Inside()
      && if post == [] then reader.offset == OBJECTS + |Encode(pre)| && reader.length == 0
         else reader.offset == OBJECTS + |Encode(pre)| + 3 && reader.length == |Encode(post)| - 3
    }

    /** Opens an EEPROM. A formatted one must hold a chain of blocks, which is found again
        unchanged; any other is cleared and becomes one big disposed block. */
    constructor (rom: Eeprom, ghost chain: seq<Block>)
      requires OBJECTS + 8 <= rom.data.Length < 0x10000
      requires Formatted(rom.Image()) ==> rom.Image()[OBJECTS..] == Encode(chain)
      modifies rom, rom.data
      ensures Valid() && this.rom == rom && cuts == [] && fresh(reader) && fresh(writer)
      ensures old(Formatted(rom.Image())) ==> blocks == chain && rom.Image() == old(rom.Image())
      ensures !old(Formatted(rom.Image())) ==> blocks == [Free(seq(rom.data.Length - OBJECTS - 3, _ => 0))]
    {
      this.rom := rom;
      reader := new EepromDataIn(rom);
      writer := new EepromDataOut(rom);
      new;
      Init(chain);
    }

    method Init(ghost chain: seq<Block>)
      requires reader.rom == rom && writer.rom == rom
      requires OBJECTS + 8 <= rom.data.Length < 0x10000
      requires Formatted(rom.Image()) ==> rom.Image()[OBJECTS..] == Encode(chain)
      modifies this, rom, rom.data, writer
      ensures Valid() && cuts == []
      ensures old(Formatted(rom.Image())) ==> blocks == chain && rom.Image() == old(rom.Image())
      ensures !old(Formatted(rom.Image())) ==> blocks == [Free(seq(rom.data.Length - OBJECTS - 3, _ => 0))]
    {
      var lo := rom.ReadByte(0);
      var hi := rom.ReadByte(1);
      FormattedHeader(rom.Image());
      if FromU16(lo, hi) != REFERENCE_HEADER {
        Format();
        blocks := [Free(seq(rom.data.Length - OBJECTS - BLOCK_HEADER, _ => 0))];
        FormattedHeader(rom.Image());
      } else {
        blocks := chain;
      }
      head := rom.Image()[..OBJECTS];
      rom.Forget();
      cuts := [];
    }

    /** Clears the EEPROM and makes its object area one big disposed block. */
    method Format()
      requires reader.rom == rom && writer.rom == rom
      requires OBJECTS + 8 <= rom.data.Length < 0x10000
      modifies rom, rom.data, writer
      ensures Formatted(rom.Image())
      ensures rom.Image()[OBJECTS..] == Encode([Free(seq(rom.data.Length - OBJECTS - 3, _ => 0))])
    {
      hide Encode, Splice;
      rom.Clear();
      rom.WriteByte(0, REFERENCE_HEADER % 0x100);
      rom.WriteByte(1, REFERENCE_HEADER / 0x100);
      var size := rom.data.Length - OBJECTS;
      ghost var clear := rom.Image();
      writer.Reset(OBJECTS, size);
      PutHeader(size - BLOCK_HEADER);
      FormattedImage(clear, size - BLOCK_HEADER);
      FirstBytes(clear, rom.Image());
    }

    method PutHeader(size: u16)
      requires writer.rom == rom && writer.Inside() && writer.length >= 3
      modifies rom, rom.data, writer
      ensures rom.Image()
        == Splice(Splice(old(rom.Image()), old(writer.offset), [DISPOSED_BLOCK]), old(writer.offset) + 1, U16(size))
    {
      var field := [DISPOSED_BLOCK];
      assert field[..1] == field && U16(size)[..2] == U16(size);
      hide Splice, U16;
      var _ := writer.Put(field);
      var _ := writer.Put(U16(size));
    }

    /** Wipes the EEPROM and formats it again. */
    method Clear()
      requires Valid() && OBJECTS + 8 <= rom.data.Length
      modifies this, rom, rom.data, writer
      ensures Valid() && cuts == []
      ensures blocks == [Free(seq(rom.data.Length - OBJECTS - 3, _ => 0))]
    {
      rom.Clear();
      Init([]);
    }

    method ResetReader()
      requires Valid()
      modifies reader
      ensures Valid() && At([], blocks)
    {
      reader.Reset(OBJECTS, rom.data.Length - OBJECTS);
      assert [] + blocks == blocks;
    }

    /** Reads one block header at a block boundary. */
    method ReadHeader(ghost pre: seq<Block>, ghost post: seq<Block>) returns (tag: byte, ok: bool, size: nat)
      requires Valid() && At(pre, post) && post != []
      modifies reader
      ensures Valid() && Behind3(pre, post) && ok
      ensures tag == Tag(post[0]) && size == |Body(post[0])|
    {
      hide Encode;
      HeaderAt(head, pre, post);
      var left: nat;
      tag := reader.Next();
      ok, size, left := reader.Get16(reader.length);
      U16RoundTrip(|Body(post[0])|);
    }

    method GetBlockReader(tag: byte, ghost pre: seq<Block>, ghost post: seq<Block>) returns (len: nat, ghost k: nat)
      requires Valid() && At(pre, post)
      modifies reader
      ensures Valid() && k == Skipped(post, tag)
      ensures Behind3(pre + post[..k], post[k..])
      ensures len == if k == |post| then 0 else |Body(post[k])|
    {
      hide Encode, Body;
      k := 0;
      assert pre + post[..0] == pre && post[0..] == post;
      while reader.length > 0
        invariant 0 <= k <= |post| && Skipped(post, tag) == k + Skipped(post[k..], tag)
        invariant Valid() && At(pre + post[..k], post[k..])
        decreases |post| - k
      {
        EncodeEmpty(post[k..]);
        var t, ok, size := ReadHeader(pre + post[..k], post[k..]);
        if !ok {
          break;
        }
        if t != tag {
          StepOver(pre + post[..k], post[k..]);
          SliceStep(pre, post, k);
          var _ := reader.Skip(size);
          k := k + 1;
          continue;
        }
        return size, k;
      }
      EncodeEmpty(post[k..]);
      len := 0;
    }

    /** The reader is at the data of the first object of `post`, or at the end. */
    ghost predicate AtData(pre: seq<Block>, post: seq<Block>)
      reads this, reader, reader.rom
    {
      && blocks == pre + post && reader.Inside()
      && if post == [] then reader.offset == OBJECTS + |Encode(pre)| && reader.length == 0
         else reader.offset == OBJECTS + |Encode(pre)| + 7 && reader.length == |Encode(post)| - 7
    }

    /** Reads used size and id of the object found by GetBlockReader. At the end of the chain both
        stay zero. */
    method ReadFields(len: nat, ghost pre: seq<Block>, ghost post: seq<Block>)
      returns (used: u16, id: u16, left: nat)
      requires Valid() && Behind3(pre, post)
      requires if post == [] then len == 0 else post[0].Object? && len == |Body(post[0])|
      modifies reader
      ensures Valid() && AtData(pre, post)
      ensures if post == [] then used == 0 && id == 0 && left == 0
              else used == post[0].used && id == post[0].id && left == |post[0].data|
    {
      hide Encode;
      if post != [] {
        FieldsAt(head, pre, post);
      }
      var ok: bool;
      ok, used, left := reader.Get16(len);
      ok, id, left := reader.Get16(left);
    }

    /** Goes to the data of the next object, or to the end of the chain. */
    method NextObject(ghost k: nat) returns (used: u16, id: u16, left: nat, ghost m: nat)
      requires Valid() && k <= |blocks| && At(blocks[..k], blocks[k..])
      modifies reader
      ensures Valid() && m == k + Skipped(blocks[k..], OBJECT_BLOCK)
      ensures m <= |blocks| && AtData(blocks[..m], blocks[m..])
      ensures if m == |blocks| then used == 0 && id == 0 && left == 0
              else blocks[m].Object? && used == blocks[m].used && id == blocks[m].id && left == |blocks[m].data|
    {
      hide Encode, Body, Skipped, Valid, At, Behind3, AtData;
      ghost var pre, post, j := blocks[..k], blocks[k..], 0;
      var len: nat;
      len, j := GetBlockReader(OBJECT_BLOCK, pre, post);
      SkippedHit(post, OBJECT_BLOCK);
      SliceSkip(blocks, k, j);
      used, id, left := ReadFields(len, pre + post[..j], post[j..]);
      m := k + j;
    }

    /** Skips the rest of an object block; at the end of the chain there is nothing to skip. */
    method SkipObject(left: nat, ghost k: nat) returns (ghost k': nat)
      requires Valid() && k <= |blocks| && AtData(blocks[..k], blocks[k..])
      requires if k == |blocks| then left == 0 else blocks[k].Object? && left == |blocks[k].data|
      modifies reader
      ensures Valid() && k' == Min(k + 1, |blocks|) && At(blocks[..k'], blocks[k'..])
    {
      hide Encode;
      if k < |blocks| {
        StepOver(blocks[..k], blocks[k..]);
        assert blocks[..k] + [blocks[k]] == blocks[..k + 1] && blocks[k..][1..] == blocks[k + 1..];
      }
      EncodeEmpty(blocks[k..]);
      var _ := reader.Skip(left);
      k' := Min(k + 1, |blocks|);
    }

    /** Goes to the data of the next object, and behind it unless it has the id. */
    method TryObject(id: u16, ghost k: nat) returns (hit: bool, used: u16, left: nat, ghost k': nat)
      requires Valid() && k < |blocks| && At(blocks[..k], blocks[k..]) && NoneBefore(blocks, k, id)
      modifies reader
      ensures Valid() && k <= k' <= |blocks|
      ensures if hit then k' == Find(blocks, id) && AtData(blocks[..k'], blocks[k'..])
              else k < k' && At(blocks[..k'], blocks[k'..]) && NoneBefore(blocks, k', id)
      ensures hit ==> if k' == |blocks| then left == 0 else used == blocks[k'].used && left == |blocks[k'].data|
    {
      hide Encode, Body, Find, Skipped, Valid, NoneBefore, At, AtData;
      ghost var bs, next := blocks, k + Skipped(blocks[k..], OBJECT_BLOCK);
      NoneBeforeSkipped(bs, k, id);
      var blockId;
      used, blockId, left, k' := NextObject(k);
      assert k' == next && NoneBefore(bs, k', id);
      hit := blockId == id;
      if hit {
        FoundHere(bs, k', id);
      } else {
        NoneBeforeNext(bs, k', id);
        k' := SkipObject(left, k');
      }
    }

    /** Goes to the data of the first object with this id, or to the end of the chain. */
    method FindObject(id: u16) returns (used: u16, left: nat, ghost k: nat)
      requires Valid()
      modifies reader
      ensures Valid() && k == Find(blocks, id) && AtData(blocks[..k], blocks[k..])
      ensures if k == |blocks| then left == 0 else used == blocks[k].used && left == |blocks[k].data|
    {
      hide Encode, Body, Find, Valid, NoneBefore, At, AtData;
      used, left, k := 0, 0, 0;
      ResetReader();
      FromStart();
      NoneBeforeStart(blocks, id);
      while reader.length > 0
        invariant 0 <= k <= |blocks| && Valid() && At(blocks[..k], blocks[k..])
        invariant NoneBefore(blocks, k, id)
        decreases |blocks| - k
      {
        NotAtEnd(k);
        var hit;
        hit, used, left, k := TryObject(id, k);
        if hit {
          return;
        }
      }
      ReachedEnd(k);
      FoundHere(blocks, k, id);
      left := 0;
    }

    lemma FromStart()
      requires At([], blocks)
      ensures At(blocks[..0], blocks[0..])
    {
      assert blocks[..0] == [] && blocks[0..] == blocks;
    }

    lemma ReachedEnd(k: nat)
      requires k <= |blocks| && At(blocks[..k], blocks[k..]) && reader.length == 0
      ensures k == |blocks| && AtData(blocks[..k], blocks[k..])
    {
      EncodeEmpty(blocks[k..]);
    }

    lemma NotAtEnd(k: nat)
      requires k <= |blocks| && At(blocks[..k], blocks[k..]) && reader.length > 0
      ensures k < |blocks|
    {
    }

    /** The length of the stream over an object's data: the stored part or all reserved bytes. */
    method GetObjectReader(id: u16, usedSize: bool) returns (len: nat, ghost k: nat)
      requires Valid()
      modifies reader
      ensures Valid() && k == Find(blocks, id) && AtData(blocks[..k], blocks[k..])
      ensures len == if k == |blocks| then 0
                     else if usedSize then Min(blocks[k].used, |blocks[k].data|) else |blocks[k].data|
    {
      hide Encode, Body, Find, Valid, AtData;
      var used;
      used, len, k := FindObject(id);
      if usedSize && used < len {
        len := used;
      }
    }

    // ---------- writing ----------

    /** Writes one field. The field lies in the blocks `was`, which then read as `now`. */
    method Put(field: seq<byte>, ghost pre: seq<Block>, ghost was: seq<Block>, ghost now: seq<Block>,
               ghost post: seq<Block>, ghost at: nat)
      requires Valid() && blocks == pre + was + post
      requires writer.Inside() && writer.offset == OBJECTS + |Encode(pre)| + at && |field| <= writer.length
      requires at + |field| <= |Encode(was)| && Splice(Encode(was), at, field) == Encode(now)
      modifies this`blocks, this`cuts, writer, rom, rom.data
      ensures Valid() && blocks == pre + now + post && cuts == old(cuts) + [blocks]
      ensures writer.Inside() && writer.offset == old(writer.offset) + |field|
      ensures writer.length == old(writer.length) - |field|
    {
      hide Encode;
      Lift(head, pre, was, now, post, at, field);
      var _ := writer.Put(field);
      assert field[..|field|] == field;
      blocks := pre + now + post;
      cuts := cuts + [blocks];
    }

    /** Every power-cut state since `from` has its objects where `layout` says. */
    ghost predicate CutsKeep(from: nat, layout: seq<(nat, Block)>)
      reads this
    {
      from <= |cuts| && forall i :: from <= i < |cuts| ==> Layout(cuts[i], OBJECTS) == layout
    }

    /** Every power-cut state since `from` has fewer places than `bs` where disposed blocks touch. */
    ghost predicate CutsCalmer(from: nat, bs: seq<Block>)
      reads this
    {
      from <= |cuts| && forall i :: from <= i < |cuts| ==> Calmer(cuts[i], bs)
    }

    /** Joins the disposed block at the reader with the disposed block behind it. */
    method MergeTwo(len: nat, ghost pre: seq<Block>, ghost a: Block, ghost post: seq<Block>)
      requires Valid() && a.Free? && len == |a.junk| && post != [] && post[0].Free?
      requires At(pre + [a], post)
      modifies this`blocks, this`cuts, reader, writer, rom, rom.data
      ensures Valid() && At(pre + [Merged(a, post[0])], post[1..])
      ensures cuts == old(cuts) + [blocks] && Layout(blocks, OBJECTS) == Layout(old(blocks), OBJECTS)
      ensures Calmer(blocks, old(blocks))
    {
      hide Encode, EncodeBlock, Layout, Calmer;
      ghost var b, rest := post[0], post[1..];
      var disposedDataStart := reader.offset - len;
      EncodeOne(a);
      StepOver(pre, [a]);
      StepOver(pre + [a], post);
      assert pre + [a] + post[..0] == pre + [a] && post[0..] == post;
      var len2, k := GetBlockReader(DISPOSED_BLOCK, pre + [a], post);
      writer.Reset(disposedDataStart - 2, 2);
      Join(a, b);
      SameSpace(a, b, OBJECTS + |Encode(pre)|);
      assert pre + [a] + post == pre + [a, b] + rest;
      Put(U16(len + len2 + BLOCK_HEADER), pre, [a, b], [Merged(a, b)], rest, 1);
      LayoutReplace(pre, [a, b], [Merged(a, b)], rest, OBJECTS);
      MergingIsCalmer(pre, a, b, rest);
      EncodeConcat(pre, [Merged(a, b)]);
      var _ := reader.Skip(len2);
    }

    /** Goes behind the next disposed block, or to the end of the chain. */
    method PassDisposed(ghost pre: seq<Block>, ghost post: seq<Block>) returns (len: nat, ghost k: nat)
      requires Valid() && At(pre, post)
      modifies reader
      ensures Valid() && k == Skipped(post, DISPOSED_BLOCK) && (k == |post| ==> len == 0)
      ensures k < |post| ==> post[k].Free? && len == |post[k].junk| && At(pre + post[..k] + [post[k]], post[k + 1..])
      ensures k == |post| ==> At(pre + post, [])
    {
      hide Encode, Skipped;
      len, k := GetBlockReader(DISPOSED_BLOCK, pre, post);
      SkippedHit(post, DISPOSED_BLOCK);
      EncodeEmpty([]);
      assert pre + post + [] == pre + post && post[..|post|] == post;
      if k < |post| {
        StepOver(pre + post[..k], post[k..]);
        SliceStep(pre, post, k);
        assert post == post[..k] + [post[k]] + post[k + 1..];
      }
      var _ := reader.Skip(len);
    }

    method PeekType(ghost pre: seq<Block>, ghost post: seq<Block>) returns (tag: byte)
      requires Valid() && At(pre, post) && post != []
      ensures tag == Tag(post[0])
    {
      hide Encode;
      HeaderAt(head, pre, post);
      tag := reader.Peek();
    }

    /** Handles the next disposed block of a merge pass. `last` when nothing comes behind it. */
    method MergeStep(ghost done: seq<Block>, ghost rest: seq<Block>)
      returns (merged: bool, last: bool, ghost done': seq<Block>, ghost rest': seq<Block>)
      requires Valid() && At(done, rest) && rest != []
      modifies this`blocks, this`cuts, reader, writer, rom, rom.data
      ensures Valid() && At(done', rest') && |rest'| < |rest| && (last ==> rest' == [])
      ensures done + MergePass(rest) == done' + MergePass(rest')
      ensures if last then !MergesLast(rest)
              else (rest' == [] ==> merged) && MergesLast(rest) == (rest' == [] || MergesLast(rest'))
      ensures |blocks| == |old(blocks)| - (if merged then 1 else 0)
      ensures Layout(blocks, OBJECTS) == Layout(old(blocks), OBJECTS)
      ensures if merged then cuts == old(cuts) + [blocks] && Calmer(blocks, old(blocks))
              else cuts == old(cuts) && blocks == old(blocks)
    {
      hide Encode, Body, EncodeBlock, Layout, MergePass, Skipped, Merged, Valid, Calmer, MergesLast;
      var len, k := PassDisposed(done, rest);
      MergeAround(rest, k);
      MergesLastAround(rest, k);
      EncodeEmpty([]);
      if reader.length == 0 {
        WholeRest(done, rest, k);
        return false, true, done + rest, [];
      }
      ghost var pre, a := done + rest[..k], rest[k];
      done', rest' := pre + [a], rest[k + 1..];
      LengthIs(done', rest');
      var next := PeekType(done', rest');
      merged, last := next == DISPOSED_BLOCK, false;
      if merged {
        MergeTwo(len, pre, a, rest');
        done', rest' := pre + [Merged(a, rest'[0])], rest'[1..];
      }
    }

    lemma WholeRest(done: seq<Block>, rest: seq<Block>, k: nat)
      requires k <= |rest| && reader.length == 0
      requires if k < |rest| then At(done + rest[..k] + [rest[k]], rest[k + 1..]) else At(done + rest, [])
      ensures k + 1 >= |rest| && At(done + rest, []) && MergePass([]) == []
      ensures done + rest + [] == done + rest
    {
      hide Encode;
      if k < |rest| {
        EncodeEmpty(rest[k + 1..]);
        assert rest == rest[..k] + [rest[k]];
        assert done + rest[..k] + [rest[k]] == done + rest;
      }
    }

    lemma LengthIs(pre: seq<Block>, post: seq<Block>)
      requires At(pre, post)
      ensures reader.length == 0 <==> post == []
    {
      EncodeEmpty(post);
    }

    /** One pass over all blocks that joins neighbouring disposed blocks in pairs. The answer is whether it joined the
        last two blocks of the chain, whatever it joined before. */
    method MergeDisposedBlocks() returns (didMerge: bool)
      requires Valid()
      modifies this`blocks, this`cuts, reader, writer, rom, rom.data
      ensures Valid() && blocks == MergePass(old(blocks)) && didMerge == MergesLast(old(blocks))
      ensures Layout(blocks, OBJECTS) == Layout(old(blocks), OBJECTS)
      ensures old(cuts) <= cuts && CutsKeep(|old(cuts)|, Layout(old(blocks), OBJECTS))
      ensures CutsCalmer(|old(cuts)|, old(blocks))
    {
      hide Encode, Body, EncodeBlock, Layout, MergePass, Valid, At, Calmer, MergesLast;
      ResetReader();
      didMerge := false;
      ghost var done, rest := [], blocks;
      assert [] + MergePass(rest) == MergePass(rest);
      LengthIs(done, rest);
      assert !MergesLast([]) by { NothingMerges(); }
      while reader.length > 0
        invariant Valid() && At(done, rest) && (reader.length > 0 <==> rest != [])
        invariant MergePass(old(blocks)) == done + MergePass(rest)
        invariant MergesLast(old(blocks)) == if rest == [] then didMerge else MergesLast(rest)
        invariant Layout(blocks, OBJECTS) == Layout(old(blocks), OBJECTS)
        invariant old(cuts) <= cuts && CutsKeep(|old(cuts)|, Layout(old(blocks), OBJECTS))
        invariant (blocks == old(blocks) || Calmer(blocks, old(blocks))) && CutsCalmer(|old(cuts)|, old(blocks))
        decreases |rest|
      {
        var merged, last;
        ghost var before := blocks;
        merged, last, done, rest := MergeStep(done, rest);
        CalmerStill(blocks, before, old(blocks));
        LengthIs(done, rest);
        if last {
          Finished(done, rest);
          return false;
        }
        didMerge := didMerge || merged;
      }
      Finished(done, rest);
    }

    lemma Finished(done: seq<Block>, rest: seq<Block>)
      requires At(done, rest) && rest == []
      ensures blocks == done + MergePass(rest)
    {
    }

    /** Every power-cut state since `from` is the chain after the type byte has been written, or one with fewer
        places where disposed blocks touch. */
    ghost predicate CutsDispose(from: nat, k: seq<Block>)
      reads this
    {
      from <= |cuts| && forall i :: from <= i < |cuts| ==> cuts[i] == k || Calmer(cuts[i], k)
    }

    /** Disposes of an object. An object without stored bytes is not found. */
    method DisposeObject(id: u16, mergeDisposed: bool) returns (found: bool)
      requires Valid()
      modifies this`blocks, this`cuts, reader, writer, rom, rom.data
      ensures Valid() && found == (Get(old(blocks), id) != [])
      ensures blocks == if mergeDisposed then Dispose(old(blocks), id) else Kill(old(blocks), id)
      ensures old(cuts) <= cuts && CutsSpare(|old(cuts)|, id, old(blocks))
      ensures CutsDispose(|old(cuts)|, Kill(old(blocks), id))
      ensures found ==> old(cuts) + [Kill(old(blocks), id)] <= cuts
    {
      hide Encode, Body, EncodeBlock, Layout, MergePass, Find, Valid, At, AtData, Kill, Others, Calmer;
      var len, k := GetObjectReader(id, true);
      found := false;
      KillAt(blocks, id, k);
      KillSpares(blocks, id);
      if len > 0 {
        MarkDisposed(k);
        found := true;
      }
      if mergeDisposed {
        ghost var from, cur := |cuts|, blocks;
        var _ := MergeDisposedBlocks();
        KeepIsSpare(from, id, cur, old(blocks));
      }
    }

    lemma KeepIsSpare(from: nat, id: u16, cur: seq<Block>, bs: seq<Block>)
      requires CutsKeep(from, Layout(cur, OBJECTS)) && Others(cur, {id}) == Others(bs, {id})
      ensures CutsSpare(from, id, bs)
    {
      forall i | from <= i < |cuts| ensures Others(cuts[i], {id}) == Others(bs, {id}) {
        SameLayoutSameOthers(cuts[i], cur, OBJECTS, {id});
      }
    }

    /** Overwrites the type byte of the object whose data the reader is at. */
    method MarkDisposed(ghost k: nat)
      requires Valid() && k < |blocks| && blocks[k].Object? && AtData(blocks[..k], blocks[k..])
      modifies this`blocks, this`cuts, rom, rom.data
      ensures Valid() && blocks == old(blocks)[..k] + [Free(Body(old(blocks)[k]))] + old(blocks)[k + 1..]
      ensures cuts == old(cuts) + [blocks]
    {
      hide Encode, Body, EncodeBlock, Splice;
      ghost var pre, was, now, post := blocks[..k], blocks[k], Free(Body(blocks[k])), blocks[k + 1..];
      FreeBody(Body(was));
      Retag(was, now);
      assert blocks == pre + [was] + post;
      Lift(head, pre, [was], [now], post, 0, [DISPOSED_BLOCK]);
      SpliceOne(rom.Image(), reader.offset - OBJECT_HEADER, DISPOSED_BLOCK);
      rom.WriteByte(reader.offset - OBJECT_HEADER, DISPOSED_BLOCK);
      rom.Mark();
      blocks := pre + [now] + post;
      cuts := cuts + [blocks];
    }

    /** The number of free bytes that the code reports. */
    method FreeSpace() returns (total: nat)
      requires Valid() && blocks != []
      modifies reader
      ensures Valid() && total == Blocks.FreeSpace(blocks)
    {
      hide Encode, Body, Skipped, Valid, At;
      total := 0;
      ResetReader();
      ghost var done, rest := [], blocks;
      LengthIs(done, rest);
      while reader.length > 0
        invariant Valid() && At(done, rest) && (reader.length == 0 <==> rest == [])
        invariant rest == [] ==> total >= BLOCK_HEADER
        invariant if rest == [] then total == Blocks.FreeSpace(blocks) + 3
                  else total + Blocks.FreeSpace(rest) == Blocks.FreeSpace(blocks)
        decreases |rest|
      {
        var len, k := PassDisposed(done, rest);
        SkippedHit(rest, DISPOSED_BLOCK);
        FreeSpaceSkips(rest, k);
        total := total + len;
        total := total + BLOCK_HEADER;
        if k < |rest| {
          done, rest := done + rest[..k] + [rest[k]], rest[k + 1..];
        } else {
          done, rest := done + rest, [];
        }
        LengthIs(done, rest);
      }
      total := total - BLOCK_HEADER;
    }

    /** Every power-cut state since `from` is `pre`, `post` with at most one object between them. */
    ghost predicate CutsFillGap(from: nat, pre: seq<Block>, size: nat, post: seq<Block>)
      reads this
    {
      from <= |cuts| && forall i :: from <= i < |cuts| ==> FillsGap(cuts[i], pre, size, post)
    }

    /** Writes used size and id of an object block; the writer is behind the block header. */
    method PutFields(used: u16, id: u16, ghost pre: seq<Block>, ghost o: Block, ghost post: seq<Block>)
      requires Valid() && o.Object? && blocks == pre + [o] + post
      requires writer.Inside() && writer.offset == OBJECTS + |Encode(pre)| + 3 && writer.length >= 4
      modifies this`blocks, this`cuts, writer, rom, rom.data
      ensures Valid() && blocks == pre + [Object(used, id, o.data)] + post
      ensures cuts == old(cuts) + [pre + [Object(used, o.id, o.data)] + post, blocks]
      ensures writer.Inside() && writer.offset == old(writer.offset) + 4 && writer.length == old(writer.length) - 4
    {
      hide Encode, Body, EncodeBlock, Valid, Splice;
      ghost var o1, o2 := Object(used, o.id, o.data), Object(used, id, o.data);
      FieldBodies(used, id, o);
      FieldBodies(used, id, o1);
      Rewrite(o, o1, 0, U16(used));
      Put(U16(used), pre, [o], [o1], post, 3);
      Rewrite(o1, o2, 2, U16(id));
      Put(U16(id), pre, [o1], [o2], post, 5);
    }

    /** Turns a whole disposed block into an object block. */
    method CarveWhole(size: nat, id: u16, ghost pre: seq<Block>, ghost junk: seq<byte>, ghost post: seq<Block>)
      requires Valid() && blocks == pre + [Free(junk)] + post && 4 <= |junk| == size < 0x10000
      requires reader.offset == OBJECTS + |Encode(pre)| + 3
      modifies this`blocks, this`cuts, writer, rom, rom.data
      ensures Valid() && blocks == pre + [Object(size - 4, id, junk[4..])] + post
      ensures writer.Inside() && writer.offset == OBJECTS + |Encode(pre)| + 7 && writer.length == size - 4
      ensures cuts == old(cuts) + WholeCuts(pre, junk, id, post) && CutsFillGap(|old(cuts)|, pre, 3 + |junk|, post)
    {
      hide Encode, Body, EncodeBlock, Splice, FillsGap;
      ghost var f, o := Free(junk), AsObject(junk);
      AsObjectBody(junk);
      FieldBodies(size - 4, id, o);
      FieldBodies(size - 4, id, Object(size - 4, o.id, o.data));
      EncodeOne(f);
      Space(pre, [f], post);
      Retag(f, o);
      SameSize(o);
      writer.Reset(reader.offset - BLOCK_HEADER, size + BLOCK_HEADER);
      Put([OBJECT_BLOCK], pre, [f], [o], post, 0);
      Put(U16(size), pre, [o], [o], post, 1);
      PutFields(size - 4, id, pre, o, post);
      GapOne(pre, o, post);
      GapOne(pre, Object(size - 4, o.id, o.data), post);
      GapOne(pre, Object(size - 4, id, o.data), post);
    }

    /** Writes the header of a disposed block into the stale bytes of another one. */
    method PutTail(at: nat, size: nat, ghost pre: seq<Block>, ghost junk: seq<byte>, ghost post: seq<Block>)
      requires Valid() && blocks == pre + [Free(junk)] + post && at + 3 + size == |junk|
      requires writer.Inside() && writer.offset == OBJECTS + |Encode(pre)| + 3 + at && writer.length >= 3
      modifies this`blocks, this`cuts, writer, rom, rom.data
      ensures Valid() && blocks == pre + [Free(junk[..at] + EncodeBlock(Free(junk[at + 3..])))] + post
      ensures cuts == old(cuts) + [pre + [Free(Splice(junk, at, [DISPOSED_BLOCK]))] + post, blocks]
    {
      hide Encode, EncodeBlock, Splice;
      ghost var j1 := Splice(junk, at, [DISPOSED_BLOCK]);
      ghost var j2 := Splice(j1, at + 1, U16(size));
      TailBytes(junk, at);
      EncodeOne(Free(junk));
      Rewrite(Free(junk), Free(j1), at, [DISPOSED_BLOCK]);
      Put([DISPOSED_BLOCK], pre, [Free(junk)], [Free(j1)], post, 3 + at);
      Rewrite(Free(j1), Free(j2), at + 1, U16(size));
      Put(U16(size), pre, [Free(j1)], [Free(j2)], post, 3 + at + 1);
    }

    /** Turns the front part of a disposed block into an object block. The header of the disposed
        block that remains behind it has been written already. */
    method CarveFront(start: nat, want: nat, id: u16, ghost pre: seq<Block>, ghost junk: seq<byte>,
                      ghost tail: Block, ghost post: seq<Block>)
      requires Valid() && tail.Free? && tail.junk != [] && |junk| == want + 4 < 0x10000
      requires blocks == pre + [Free(junk + EncodeBlock(tail))] + post
      requires start == OBJECTS + |Encode(pre)|
      modifies this`blocks, this`cuts, writer, rom, rom.data
      ensures Valid() && blocks == pre + [Object(want, id, junk[4..])] + ([tail] + post)
      ensures writer.Inside() && writer.offset == start + 7 && writer.length == want
      ensures cuts == old(cuts) + FrontCuts(pre, junk, tail, want, id, post)
      ensures CutsFillGap(|old(cuts)|, pre, 6 + |junk| + |tail.junk|, post)
    {
      hide Encode, Body, EncodeBlock, Splice, FillsGap, FrontCuts, FromU16;
      ghost var f, whole, x := Free(junk + EncodeBlock(tail)), AsObject(junk + EncodeBlock(tail)), AsObject(junk);
      AsObjectBody(junk);
      AsObjectBody(junk + EncodeBlock(tail));
      EncodeOne(f);
      EncodeOne(tail);
      FreeBody(tail.junk);
      Space(pre, [f], post);
      Retag(f, whole);
      writer.Reset(start, want + OBJECT_HEADER);
      Put([OBJECT_BLOCK], pre, [f], [whole], post, 0);
      Split(whole, x, tail);
      Put(U16(want + 4), pre, [whole], [x, tail], post, 1);
      GapOne(pre, whole, post);
      GapTwo(pre, x, tail, post);
      FieldBodies(want, id, x);
      FieldBodies(want, id, Object(want, x.id, x.data));
      PutFields(want, id, pre, x, [tail] + post);
      GapTwo(pre, Object(want, x.id, x.data), tail, post);
      GapTwo(pre, Object(want, id, x.data), tail, post);
      FrontInSteps(old(cuts), pre, junk, tail, want, id, post);
    }

    /** Carves an object block out of the disposed block behind whose header the reader is. */
    method CarveBlock(size: nat, want: nat, id: u16, ghost pre: seq<Block>, ghost junk: seq<byte>,
        ghost post: seq<Block>)
      returns (room: nat)
      requires Valid() && blocks == pre + [Free(junk)] + post
      requires |junk| == size && want + 4 <= size < 0x10000
      requires reader.offset == OBJECTS + |Encode(pre)| + 3
      modifies this`blocks, this`cuts, writer, rom, rom.data
      ensures Valid() && blocks == Prefixed(pre, Carve(junk, id, want, post)).Chain()
      ensures room == |Carve(junk, id, want, post).obj.data|
      ensures writer.Inside() && writer.offset == OBJECTS + |Encode(pre)| + 7 && writer.length == room
      ensures cuts == old(cuts) + CarveCuts(pre, junk, id, want, post)
      ensures CutsFillGap(|old(cuts)|, pre, 3 + |junk|, post)
    {
      hide Encode, Body, EncodeBlock, FillsGap, WholeCuts, FrontCuts, Splice, CarveCuts;
      ghost var place := Carve(junk, id, want, post);
      assert pre + place.pre == pre;
      if size < want + 4 + 8 {
        CarveWhole(size, id, pre, junk, post);
        WholeIsWhole(pre, junk, id, want, post);
        return size - 4;
      } else {
        var start := reader.offset - BLOCK_HEADER;
        var rest := size - (want + OBJECT_HEADER);
        ghost var tail := Free(junk[want + 7..]);
        EncodeOne(Free(junk));
        FreeBody(junk);
        Space(pre, [Free(junk)], post);
        writer.Reset(start + want + OBJECT_HEADER, BLOCK_HEADER);
        TailBytes(junk, want + 4);
        PutTail(want + 4, rest, pre, junk, post);
        ghost var front := junk[..want + 4];
        FreeBody(Splice(junk, want + 4, [DISPOSED_BLOCK]));
        FreeBody(front + EncodeBlock(tail));
        GapOne(pre, Free(Splice(junk, want + 4, [DISPOSED_BLOCK])), post);
        GapOne(pre, Free(front + EncodeBlock(tail)), post);
        assert front[4..] == junk[4..want + 4];
        CarveFront(start, want, id, pre, front, tail, post);
        SplitIsFront(pre, junk, id, want, post);
        return want;
      }
    }

    /** Every power-cut state since `from` is `bs` with at most one disposed block turned into an
        object block, possibly with a new disposed block behind it. */
    ghost predicate CutsOneMore(from: nat, bs: seq<Block>)
      reads this
    {
      from <= |cuts| && forall i :: from <= i < |cuts| ==> OneMore(cuts[i], bs)
    }

    lemma GapIsOneMore(from: nat, bs: seq<Block>, pre: seq<Block>, f: Block, post: seq<Block>)
      requires f.Free? && bs == pre + [f] + post && CutsFillGap(from, pre, 3 + |f.junk|, post)
      ensures CutsOneMore(from, bs)
    {
      hide Encode;
      assert |EncodeBlock(f)| == 3 + |f.junk|;
    }

    /** Goes behind the header of the next disposed block, or to the end of the chain. */
    method NextDisposed(ghost k: nat) returns (size: nat, ghost m: nat)
      requires Valid() && k <= |blocks| && At(blocks[..k], blocks[k..])
      modifies reader
      ensures Valid() && k <= m <= |blocks| && forall j :: k <= j < m ==> blocks[j].Object?
      ensures if m == |blocks| then size == 0 && At(blocks, [])
              else blocks[m].Free? && size == |blocks[m].junk| && Behind3(blocks[..m], blocks[m..])
    {
      hide Encode, Skipped, Valid;
      ghost var j;
      size, j := GetBlockReader(DISPOSED_BLOCK, blocks[..k], blocks[k..]);
      SkippedHit(blocks[k..], DISPOSED_BLOCK);
      SliceSkip(blocks, k, j);
      m := k + j;
      EncodeEmpty([]);
      assert blocks[..|blocks|] == blocks && blocks + [] == blocks;
      assert forall i :: k <= i < m ==> blocks[i] == blocks[k..][i - k];
    }

    /** Skips the body of a disposed block; at the end of the chain there is nothing to skip. */
    method SkipBody(size: nat, ghost k: nat) returns (ghost k': nat)
      requires Valid() && k <= |blocks|
      requires if k == |blocks| then size == 0 && At(blocks, [])
               else blocks[k].Free? && size == |blocks[k].junk| && Behind3(blocks[..k], blocks[k..])
      modifies reader
      ensures Valid() && k' == Min(k + 1, |blocks|) && At(blocks[..k'], blocks[k'..])
    {
      hide Encode;
      if k < |blocks| {
        StepOver(blocks[..k], blocks[k..]);
        assert blocks[..k] + [blocks[k]] == blocks[..k + 1] && blocks[k..][1..] == blocks[k + 1..];
      } else {
        AtEnd();
      }
      EncodeEmpty([]);
      var _ := reader.Skip(size);
      k' := Min(k + 1, |blocks|);
    }

    /** Finds the first disposed block of at least `needed` bytes; size zero when there is none. */
    method FindRoom(needed: nat) returns (size: nat, ghost m: nat)
      requires Valid() && needed > 0
      modifies reader
      ensures Valid() && m <= |blocks|
      ensures NoneFits(blocks, m, needed)
      ensures size > 0 ==> m < |blocks| && blocks[m].Free? && size == |blocks[m].junk| >= needed
                           && reader.offset == OBJECTS + |Encode(blocks[..m])| + 3
      ensures size == 0 ==> |Encode(blocks[m..])| < needed + 3
    {
      hide Encode, Valid, NoneFits;
      ResetReader();
      m := 0;
      assert blocks[..0] == [] && blocks[0..] == blocks;
      NoneFitsStep(blocks, 0, 0, needed);
      while reader.length >= needed + BLOCK_HEADER
        invariant 0 <= m <= |blocks| && Valid() && At(blocks[..m], blocks[m..])
        invariant NoneFits(blocks, m, needed)
        decreases |blocks| - m
      {
        NotAtEnd(m);
        ghost var k := m;
        size, m := NextDisposed(m);
        NoneFitsStep(blocks, k, m, needed);
        if size >= needed {
          return;
        }
        NoneFitsNext(blocks, m, needed);
        m := SkipBody(size, m);
      }
      size := 0;
    }

    /** Finds the first disposed block with room for an object of `objectSize` bytes and makes it
        an object block. Returns the room for data; none when no block is large enough. */
    method NewObjectWriter(id: u16, objectSize: nat) returns (room: nat)
      requires Valid() && objectSize + OBJECT_HEADER < 0x10000
      modifies this`blocks, this`cuts, reader, writer, rom, rom.data
      ensures Valid() && cuts == old(cuts) + AllocCuts(old(blocks), id, objectSize)
      ensures CutsOneMore(|old(cuts)|, old(blocks))
      ensures match Alloc(old(blocks), id, objectSize)
        case NoRoom => room == 0 && blocks == old(blocks) && cuts == old(cuts)
        case Placed(pre, obj, post) =>
          && blocks == pre + [obj] + post && obj.Object? && room == |obj.data|
          && writer.Inside() && writer.offset == OBJECTS + |Encode(pre)| + 7 && writer.length == room
    {
      hide Encode, Body, EncodeBlock, OneMore, FillsGap, Valid, Carve, Alloc, AllocCuts, CarveCuts;
      var size, m := FindRoom(objectSize + OBJECT_HEADER - BLOCK_HEADER);
      AllocSkips(blocks, m, id, objectSize);
      if size == 0 {
        AllocShort(blocks[m..], id, objectSize);
        NoCuts(blocks, m, id, objectSize);
        return 0;
      }
      ghost var pre, junk, post := blocks[..m], blocks[m].junk, blocks[m + 1..];
      SplitAt(blocks, m);
      AllocHere(junk, post, id, objectSize);
      CutsHere(pre, junk, post, id, objectSize);
      SmallBody(pre, junk, post);
      room := CarveBlock(size, objectSize, id, pre, junk, post);
      GapIsOneMore(|old(cuts)|, old(blocks), pre, Free(junk), post);
      assert pre + [] == pre;
    }

    // ---------- moving an object forward ----------

    /** Every power-cut state since `from` is `pre`, `post` with no other object than `id` between. */
    ghost predicate CutsSpareAround(from: nat, pre: seq<Block>, id: u16, post: seq<Block>, width: nat)
      reads this
    {
      from <= |cuts| && forall i :: from <= i < |cuts| ==> SparesAround(cuts[i], pre, id, post, width)
    }

    /** In every power-cut state since `from` one disposed block lies between `pre` and `post`. */
    ghost predicate CutsFree(from: nat, pre: seq<Block>, post: seq<Block>)
      reads this
    {
      from <= |cuts| && forall i :: from <= i < |cuts| ==> FreeBetween(cuts[i], pre, post)
    }

    /** Copies `n` bytes of the object body `body` to the front of the disposed block that covers
        it, from the reader to the writer. Source and target may overlap. */
    method CopyForward(n: nat, ghost pre: seq<Block>, ghost id: u16, ghost gap: seq<byte>, ghost body: seq<byte>,
                       ghost post: seq<Block>)
      requires Valid() && blocks == pre + [Free(gap + body)] + post && n == |body|
      requires reader.Inside() && reader.offset == OBJECTS + |Encode(pre)| + 3 + |gap| && reader.length >= n
      requires writer.Inside() && writer.offset == OBJECTS + |Encode(pre)| + 3 && writer.length >= n
      modifies this`blocks, this`cuts, reader, writer, rom, rom.data
      ensures Valid() && blocks == pre + [Free(body + (gap + body)[n..])] + post
      ensures writer.Inside() && writer.offset == OBJECTS + |Encode(pre)| + 3 + n
        && writer.length == old(writer.length) - n
      ensures old(cuts) <= cuts && CutsSpareAround(|old(cuts)|, pre, id, post, 2) && CutsFree(|old(cuts)|, pre, post)
    {
      hide Encode, EncodeBlock, Splice, SparesAround, Valid, FreeBetween;
      var length := n;
      ghost var i := 0;
      assert body[..0] + (gap + body)[0..] == gap + body;
      while length > 0 && reader.length > 0
        invariant length + i == n && Valid() && blocks == pre + [Free(body[..i] + (gap + body)[i..])] + post
        invariant reader.Inside() && reader.offset == OBJECTS + |Encode(pre)| + 3 + |gap| + i && reader.length >= length
        invariant writer.Inside() && writer.offset == OBJECTS + |Encode(pre)| + 3 + i
        invariant writer.length == old(writer.length) - i
        invariant old(cuts) <= cuts && CutsSpareAround(|old(cuts)|, pre, id, post, 2)
        invariant CutsFree(|old(cuts)|, pre, post)
      {
        CopyByte(pre, i, gap, body, post);
        OneFree(pre, Free(body[..i + 1] + (gap + body)[i + 1..]), post);
        SparesOne(pre, Free(body[..i + 1] + (gap + body)[i + 1..]), id, post, 2);
        i := i + 1;
        length := length - 1;
      }
      assert body[..n] == body;
    }

    method CopyByte(ghost pre: seq<Block>, ghost i: nat, ghost gap: seq<byte>, ghost body: seq<byte>,
        ghost post: seq<Block>)
      requires i < |body| && Valid() && blocks == pre + [Free(body[..i] + (gap + body)[i..])] + post
      requires reader.Inside() && reader.offset == OBJECTS + |Encode(pre)| + 3 + |gap| + i && reader.length > 0
      requires writer.Inside() && writer.offset == OBJECTS + |Encode(pre)| + 3 + i && writer.length > 0
      modifies this`blocks, this`cuts, reader, writer, rom, rom.data
      ensures Valid() && blocks == pre + [Free(body[..i + 1] + (gap + body)[i + 1..])] + post
      ensures reader.Inside() && reader.offset == old(reader.offset) + 1 && reader.length == old(reader.length) - 1
      ensures writer.Inside() && writer.offset == old(writer.offset) + 1 && writer.length == old(writer.length) - 1
      ensures cuts == old(cuts) + [blocks]
    {
      hide Encode, EncodeBlock, Splice;
      ghost var was, now := Free(body[..i] + (gap + body)[i..]), Free(body[..i + 1] + (gap + body)[i + 1..]);
      BodyAt(pre, was, post, |gap| + i);
      CopyStep(gap, body, i);
      var b := reader.Next();
      Rewrite(was, now, i, [b]);
      Put([b], pre, [was], [now], post, 3 + i);
    }

    /** A byte of a block body at its place in the image. */
    lemma BodyAt(pre: seq<Block>, b: Block, post: seq<Block>, j: nat)
      requires Valid() && blocks == pre + [b] + post && j < |Body(b)|
      ensures rom.data.Length > OBJECTS + |Encode(pre)| + 3 + j
      ensures rom.Image()[OBJECTS + |Encode(pre)| + 3 + j] == Body(b)[j]
    {
      hide Encode, Body;
      assert [b] + post != [] && ([b] + post)[0] == b;
      assert pre + [b] + post == pre + ([b] + post);
      HeaderAt(head, pre, [b] + post);
      var at := OBJECTS + |Encode(pre)| + 3;
      assert rom.Image()[at..at + |Body(b)|][j] == rom.Image()[at + j];
    }

    /** Swaps a disposed block with the object behind it. `start` is where the data of the disposed
        block starts, and the reader is at the data of the object block. The combined length goes first,
        then the object's bytes, then the header of the disposed rest, and the object header last. */
    method SwapBlocks(start: nat, disposedLength: nat, objectLength: nat,
                      ghost pre: seq<Block>, ghost f: Block, ghost o: Block, ghost post: seq<Block>)
      requires Valid() && f.Free? && f.junk != [] && o.Object? && blocks == pre + [f, o] + post
      requires disposedLength == |f.junk| && objectLength == |Body(o)|
      requires start == OBJECTS + |Encode(pre)| + 3
      requires reader.Inside() && reader.offset == start + disposedLength + 3 && reader.length >= objectLength
      modifies this`blocks, this`cuts, reader, writer, rom, rom.data
      ensures Valid() && blocks == pre + [o, Free(Leftover(f, o))] + post
      ensures old(cuts) <= cuts && CutsSpareAround(|old(cuts)|, pre, o.id, post, 2)
      ensures o.used <= |o.data| ==> MoveCuts(cuts[|old(cuts)|..], pre, o, Free(Leftover(f, o)), post)
    {
      hide Encode, EncodeBlock, Body, Splice, SparesAround, Leftover, FreeBetween, MidMove;
      ghost var gap, body, g := f.junk + [OBJECT_BLOCK] + U16(|Body(o)|), Body(o), Free(Leftover(f, o));
      GapBody(f, o);
      TwoSpace(pre, f, o, post);
      writer.Reset(start - 2, 2 + objectLength + BLOCK_HEADER);
      Join(f, o);
      Put(U16(disposedLength + objectLength + BLOCK_HEADER), pre, [f, o], [Free(gap + body)], post, 1);
      SparesOne(pre, Free(gap + body), o.id, post, 2);
      CopyForward(objectLength, pre, o.id, gap, body, post);
      ghost var copied := body + (gap + body)[|body|..];
      PutTail(objectLength, disposedLength, pre, copied, post);
      SparesOne(pre, Free(Splice(copied, objectLength, [DISPOSED_BLOCK])), o.id, post, 2);
      SparesOne(pre, Free(body + EncodeBlock(g)), o.id, post, 2);
      OneFree(pre, Free(gap + body), post);
      OneFree(pre, Free(Splice(copied, objectLength, [DISPOSED_BLOCK])), post);
      OneFree(pre, Free(body + EncodeBlock(g)), post);
      PutFront(start - BLOCK_HEADER, objectLength, pre, o, g, post);
      if o.used <= |o.data| {
        LongerIsMidMove(pre, o, EncodeBlock(g), post);
        MovedSafely(|old(cuts)|, pre, o, g, post);
      }
    }

    lemma MovedSafely(from: nat, pre: seq<Block>, o: Block, g: Block, post: seq<Block>)
      requires o.Object? && from < |cuts| && FreeBetween(cuts[from], pre, post)
      requires forall i :: from <= i < |cuts| ==>
        FreeBetween(cuts[i], pre, post) || MidMove(cuts[i], pre, o, post) || cuts[i] == pre + [o, g] + post
      ensures MoveCuts(cuts[from..], pre, o, g, post)
    {
      hide FreeBetween, MidMove;
      var cs := cuts[from..];
      forall i | 0 <= i < |cs| ensures MidMove(cs[i], pre, o, post) || cs[i] == pre + [o, g] + post {
        assert cs[i] == cuts[from + i];
        if FreeBetween(cs[i], pre, post) {
          FreeIsMidMove(cs[i], pre, o, post);
        }
      }
    }

    /** Turns the front of a disposed block, where the bytes of `o` have been copied, into `o`. */
    method PutFront(start: nat, size: nat, ghost pre: seq<Block>, ghost o: Block, ghost g: Block,
        ghost post: seq<Block>)
      requires Valid() && o.Object? && g.Free? && g.junk != []
      requires blocks == pre + [Free(Body(o) + EncodeBlock(g))] + post
      requires start == OBJECTS + |Encode(pre)| && size == |Body(o)|
      modifies this`blocks, this`cuts, writer, rom, rom.data
      ensures Valid() && blocks == pre + [o, g] + post
      ensures cuts == old(cuts) + [pre + [Object(o.used, o.id, o.data + EncodeBlock(g))] + post, blocks]
      ensures CutsSpareAround(|old(cuts)|, pre, o.id, post, 2)
    {
      hide Encode, EncodeBlock, Body, Splice, SparesAround;
      ghost var f := Free(Body(o) + EncodeBlock(g));
      ghost var whole := Object(o.used, o.id, o.data + EncodeBlock(g));
      LongerObject(o, g);
      EncodeOne(f);
      Space(pre, [f], post);
      writer.Reset(start, BLOCK_HEADER);
      Retag(f, whole);
      Put([OBJECT_BLOCK], pre, [f], [whole], post, 0);
      Split(whole, o, g);
      Put(U16(size), pre, [whole], [o, g], post, 1);
      SparesOne(pre, whole, o.id, post, 2);
      SparesPair(pre, o, g, o.id, post);
    }

    lemma TwoSpace(pre: seq<Block>, a: Block, b: Block, post: seq<Block>)
      requires Valid() && blocks == pre + [a, b] + post
      ensures OBJECTS + |Encode(pre)| + 6 + |Body(a)| + |Body(b)| <= rom.data.Length
    {
      hide Encode, Body;
      Space(pre, [a, b], post);
      EncodeTwo(a, b);
      EncodeOne(a);
      EncodeOne(b);
    }

    /** Every power-cut state since `from` has the same objects as `bs`, except possibly `id`. */
    ghost predicate CutsSpare(from: nat, id: u16, bs: seq<Block>)
      reads this
    {
      from <= |cuts| && forall i :: from <= i < |cuts| ==> Others(cuts[i], {id}) == Others(bs, {id})
    }

    lemma SpareAroundIsSpare(from: nat, bs: seq<Block>, pre: seq<Block>, f: Block, o: Block, post: seq<Block>)
      requires f.Free? && f.junk != [] && o.Object? && bs == pre + [f, o] + post
      requires CutsSpareAround(from, pre, o.id, post, 2)
      ensures CutsSpare(from, o.id, bs)
    {
      SparesPair(pre, f, o, o.id, post);
      forall i | from <= i < |cuts| ensures Others(cuts[i], {o.id}) == Others(bs, {o.id}) {
        SparesSame(cuts[i], bs, pre, o.id, post, 2);
      }
    }

    /** Every power-cut state since `from` is `bs` in the middle of a move. */
    ghost predicate CutsMoving(from: nat, bs: seq<Block>)
      reads this
    {
      from <= |cuts| && forall i :: from <= i < |cuts| ==> Moving(cuts[i], bs)
    }

    lemma SpareAroundIsMoving(from: nat, bs: seq<Block>, pre: seq<Block>, f: Block, o: Block, post: seq<Block>)
      requires f.Free? && o.Object? && bs == pre + [f, o] + post && CutsSpareAround(from, pre, o.id, post, 2)
      ensures CutsMoving(from, bs)
    {
      hide SparesAround;
    }

    /** Moves the first disposed block one object backwards, if an object lies behind it. It must then lie
        directly behind it. Power cuts lose at most that object. */
    method MoveDisposedBackwards() returns (moved: bool, ghost victim: u16)
      requires Valid() && NoEmptyFree(blocks) && (Behind(blocks) == 0 || CanMove(blocks))
      modifies this`blocks, this`cuts, reader, writer, rom, rom.data
      ensures Valid() && moved == CanMove(old(blocks))
      ensures if moved then blocks == Move(old(blocks)) else blocks == old(blocks) && cuts == old(cuts)
      ensures old(cuts) <= cuts && CutsSpare(|old(cuts)|, victim, old(blocks)) && CutsMoving(|old(cuts)|, old(blocks))
      ensures moved && Sized(old(blocks)) ==> OneMove(cuts[|old(cuts)|..], old(blocks), blocks)
    {
      hide Encode, EncodeBlock, Body, Valid, Leftover, CanMove, Move, CutsSpareAround, Others, NoEmptyFree, At, Behind,
        Behind3, Moving, OneMove, MoveCuts, Sized;
      victim := 0;
      ResetReader();
      FromStart();
      var disposedLength, m := NextDisposed(0);
      var disposedStart := reader.offset;
      FirstIsFree(blocks, m);
      if disposedLength == 0 {
        return false, 0;
      }
      StartIs(m);
      var k := SkipBody(disposedLength, m);
      var objectLength := NextObjectBlock(m + 1);
      if objectLength == 0 {
        return false, 0;
      }
      ghost var pre, f, o, post := blocks[..m], blocks[m], blocks[m + 1], blocks[m + 2..];
      SwapBlocks(disposedStart, disposedLength, objectLength, pre, f, o, post);
      SpareAroundIsSpare(|old(cuts)|, old(blocks), pre, f, o, post);
      SpareAroundIsMoving(|old(cuts)|, old(blocks), pre, f, o, post);
      IsMoved(cuts[|old(cuts)|..], old(blocks), pre, f, o, Free(Leftover(f, o)), post);
      return true, o.id;
    }

    /** The same operation where more disposed blocks `mid` lie between the first one and the next object. It takes
        the object for the neighbour, so the area holds these bytes afterwards and possibly no chain any more. */
    method MoveAcrossDisposed() returns (moved: bool, ghost pre: seq<Block>, ghost f: Block, ghost mid: seq<Block>,
                                         ghost o: Block, ghost post: seq<Block>)
      requires Valid() && NoEmptyFree(blocks) && Behind(blocks) > 0 && !CanMove(blocks)
      modifies reader, writer, rom, rom.data
      ensures moved && blocks == pre + [f] + mid + [o] + post && f.Free? && o.Object? && mid != []
      ensures (forall b :: b in pre ==> b.Object?) && forall b :: b in mid ==> b.Free?
      ensures rom.Image() == head + Encode(pre) + MisplacedMove(f, mid, o) + Encode(post)
    {
      hide Encode, EncodeBlock, Body, Valid, CanMove, NoEmptyFree, Behind, Behind3, MovedBytes, MisplacedMove;
      var disposedStart, disposedLength, m := FirstOfMany();
      var objectLength;
      objectLength, mid, o, post := ObjectAcross(disposedLength, m);
      pre, f := blocks[..m], blocks[m];
      PlacesAre(pre, f, mid, o, post);
      MisplacedInside(head + Encode(pre), f, mid, o, Encode(post));
      SwapBytes(disposedStart, disposedLength, objectLength);
      // Both lengths are positive here: the two early ends of a move are not taken.
      moved := true;
    }

    /** Goes behind the header of the first disposed block, where another one follows. */
    method FirstOfMany() returns (start: nat, length: nat, ghost m: nat)
      requires Valid() && NoEmptyFree(blocks) && Behind(blocks) > 0 && !CanMove(blocks)
      modifies reader
      ensures Valid() && m + 1 < |blocks| && blocks[m].Free? && blocks[m + 1].Free? && length == |blocks[m].junk| > 0
      ensures (forall j :: 0 <= j < m ==> blocks[j].Object?) && Objects(blocks[m + 1..]) != []
      ensures Behind3(blocks[..m], blocks[m..]) && start == OBJECTS + |Encode(blocks[..m])| + 3
    {
      hide Encode, EncodeBlock, Body, CanMove, NoEmptyFree, At, Behind, Behind3, Objects;
      ResetReader();
      FromStart();
      length, m := NextDisposed(0);
      StuckAt(blocks, m);
      StartIs(m);
      start := reader.offset;
    }

    /** Skips the disposed block and goes behind the header of the next object. */
    method ObjectAcross(disposedLength: nat, ghost m: nat)
      returns (length: nat, ghost mid: seq<Block>, ghost o: Block, ghost post: seq<Block>)
      requires Valid() && m + 1 < |blocks| && blocks[m].Free? && blocks[m + 1].Free? && Objects(blocks[m + 1..]) != []
      requires (forall j :: 0 <= j < m ==> blocks[j].Object?) && disposedLength == |blocks[m].junk|
      requires Behind3(blocks[..m], blocks[m..])
      modifies reader
      ensures Valid() && mid != [] && o.Object? && length == |Body(o)| > 0
      ensures (forall b :: b in blocks[..m] ==> b.Object?) && forall b :: b in mid ==> b.Free?
      ensures blocks == blocks[..m] + [blocks[m]] + mid + [o] + post
      ensures Behind3(blocks[..m] + [blocks[m]] + mid, [o] + post)
    {
      hide Encode, EncodeBlock, Body, At, Skipped, Objects, Valid;
      var k := SkipBody(disposedLength, m);
      ghost var j;
      length, j := GetBlockReader(OBJECT_BLOCK, blocks[..m + 1], blocks[m + 1..]);
      StuckParts(blocks, m, j);
      mid, o, post := blocks[m + 1..][..j], blocks[m + 1..][j], blocks[m + 1..][j + 1..];
    }

    /** The writes of a move. `start` is where the data of the disposed block starts, the reader is at the object. */
    method SwapBytes(start: nat, disposedLength: nat, objectLength: nat)
      requires reader.rom == rom && writer.rom == rom && rom.data.Length < 0x10000
      requires reader.Inside() && start + disposedLength + 3 <= reader.offset && objectLength <= reader.length
      requires start >= 3
      modifies reader, writer, rom, rom.data
      ensures rom.Image() == MovedBytes(old(rom.Image()), start, disposedLength, old(reader.offset), objectLength)
    {
      hide Splice;
      ghost var img, at := rom.Image(), reader.offset;
      writer.Reset(start - 2, 2 + objectLength + BLOCK_HEADER);
      PutField(U16(disposedLength + objectLength + BLOCK_HEADER));
      SpliceBefore(img, start - 2, U16(disposedLength + objectLength + 3), at, objectLength);
      CopyBytes(objectLength);
      PutBlockHeader(DISPOSED_BLOCK, disposedLength);
      writer.Reset(start - BLOCK_HEADER, BLOCK_HEADER);
      PutBlockHeader(OBJECT_BLOCK, objectLength);
    }

    method PutBlockHeader(tag: byte, size: nat)
      requires writer.rom == rom && writer.Inside() && 3 <= writer.length
      modifies writer, rom, rom.data
      ensures rom.Image() == Splice(old(rom.Image()), old(writer.offset), [tag] + U16(size))
    {
      hide Splice;
      ghost var img, at := rom.Image(), writer.offset;
      PutField([tag]);
      PutField(U16(size));
      SpliceTwice(img, at, [tag], U16(size));
    }

    method PutField(field: seq<byte>)
      requires writer.rom == rom && writer.Inside() && |field| <= writer.length
      modifies writer, rom, rom.data
      ensures writer.Inside() && writer.offset == old(writer.offset) + |field|
      ensures writer.length == old(writer.length) - |field|
      ensures rom.Image() == Splice(old(rom.Image()), old(writer.offset), field)
    {
      hide Splice;
      assert field[..|field|] == field;
      var _ := writer.Put(field);
    }

    /** Copies `n` bytes from the reader to the writer, which stays behind it. */
    method CopyBytes(n: nat)
      requires reader.rom == rom && writer.rom == rom && reader.Inside() && writer.Inside()
      requires n <= reader.length && n <= writer.length && writer.offset < reader.offset
      modifies reader, writer, rom, rom.data
      ensures reader.Inside() && writer.Inside() && writer.offset == old(writer.offset) + n
      ensures writer.length == old(writer.length) - n
      ensures var img, at := old(rom.Image()), old(reader.offset);
        rom.Image() == Splice(img, old(writer.offset), img[at..at + n])
    {
      hide Splice;
      var length := n;
      ghost var i, img, from, to := 0, rom.Image(), reader.offset, writer.offset;
      SpliceNothing(img, to, img[from..from]);
      while length > 0 && reader.length > 0
        invariant length + i == n && reader.Inside() && writer.Inside()
        invariant reader.offset == from + i && reader.length == old(reader.length) - i
        invariant writer.offset == to + i && writer.length == old(writer.length) - i
        invariant rom.Image() == Splice(img, to, img[from..from + i])
      {
        CopiedByte(img, to, from, i);
        var b := reader.Next();
        var _ := writer.Write(b);
        i := i + 1;
        length := length - 1;
      }
    }

    /** The reader is behind the header of the object, and the blocks between are in front of it. */
    lemma IsMoved(cs: seq<seq<Block>>, bs: seq<Block>, pre: seq<Block>, f: Block, o: Block, g: Block, post: seq<Block>)
      requires f.Free? && o.Object? && g.Free? && bs == pre + [f, o] + post
      requires (forall j :: 0 <= j < |pre| ==> pre[j].Object?) && (o.used <= |o.data| ==> MoveCuts(cs, pre, o, g, post))
      ensures Sized(bs) ==> OneMove(cs, bs, pre + [o, g] + post)
    {
      hide MoveCuts, Sized;
      assert bs == (pre + [f]) + [o] + post;
      SizedAround(pre + [f], o, post);
    }

    lemma PlacesAre(pre: seq<Block>, f: Block, mid: seq<Block>, o: Block, post: seq<Block>)
      requires Valid() && f.Free? && Behind3(pre + [f] + mid, [o] + post)
      ensures rom.Image() == head + Encode(pre) + (EncodeBlock(f) + Encode(mid) + EncodeBlock(o)) + Encode(post)
      ensures |head| == OBJECTS && rom.data.Length < 0x10000 && reader.rom == rom && writer.rom == rom
      ensures reader.Inside()
      ensures reader.offset == |head + Encode(pre)| + 3 + |f.junk| + |Encode(mid)| + 3 && reader.length >= |Body(o)|
    {
      hide Encode, EncodeBlock, Body;
      MiddleImage(head, pre, f, mid, o, post);
      EncodeHead([o] + post);
    }

    lemma StartIs(m: nat)
      requires m < |blocks| && Behind3(blocks[..m], blocks[m..])
      ensures reader.offset == OBJECTS + |Encode(blocks[..m])| + 3
    {
    }

    /** The length of the object block at the reader; zero when no object follows. */
    method NextObjectBlock(ghost k: nat) returns (size: nat)
      requires Valid() && k <= |blocks| && At(blocks[..k], blocks[k..])
      requires (k < |blocks| && blocks[k].Object?) || forall j :: k <= j < |blocks| ==> blocks[j].Free?
      modifies reader
      ensures Valid() && (size > 0 <==> k < |blocks| && blocks[k].Object?)
      ensures k < |blocks| && blocks[k].Object? ==>
        && size == |Body(blocks[k])| && reader.Inside() && reader.length >= size
        && (k > 0 ==> reader.offset == OBJECTS + |Encode(blocks[..k - 1])| + 3 + |Body(blocks[k - 1])| + 3)
    {
      hide Encode, EncodeBlock, Valid;
      ghost var j;
      size, j := GetBlockReader(OBJECT_BLOCK, blocks[..k], blocks[k..]);
      SkippedHit(blocks[k..], OBJECT_BLOCK);
      assert forall i :: k <= i < |blocks| ==> blocks[i] == blocks[k..][i - k];
      if k < |blocks| && blocks[k].Object? {
        assert j == 0 && blocks[k..][0..] == blocks[k..] && blocks[..k] + blocks[k..][..0] == blocks[..k];
        EncodeHead(blocks[k..]);
        if k > 0 {
          assert blocks[..k] == blocks[..k - 1] + [blocks[k - 1]];
          StepOver(blocks[..k - 1], [blocks[k - 1]]);
        }
      }
    }

    // ---------- defragmentation ----------

    /** Every power-cut state since `from` has the objects of `bs`, except possibly `own`, a
        half-made object and one object more. */
    ghost predicate CutsHarmless(from: nat, own: u16, bs: seq<Block>)
      reads this
    {
      from <= |cuts| && forall i :: from <= i < |cuts| ==> Harmless(cuts[i], own, bs)
    }

    lemma KeepIsHarmless(from: nat, cur: seq<Block>, own: u16, bs: seq<Block>)
      requires CutsKeep(from, Layout(cur, OBJECTS)) && Others(cur, {0, own}) == Others(bs, {0, own})
      ensures CutsHarmless(from, own, bs)
    {
      hide Others, Layout, Harmless;
      forall i | from <= i < |cuts| ensures Harmless(cuts[i], own, bs) {
        SameLayoutSameOthers(cuts[i], cur, OBJECTS, {0});
        HarmlessBut(cuts[i], 0, cur, own, bs);
      }
    }

    lemma SpareIsHarmless(from: nat, id: u16, cur: seq<Block>, own: u16, bs: seq<Block>)
      requires CutsSpare(from, id, cur) && Others(cur, {0, own}) == Others(bs, {0, own})
      ensures CutsHarmless(from, own, bs)
    {
      hide Others, Harmless;
      forall i | from <= i < |cuts| ensures Harmless(cuts[i], own, bs) {
        HarmlessBut(cuts[i], id, cur, own, bs);
      }
    }

    /** Every power-cut state since `from` has the objects of `bs`, except possibly `own` and half-made ones. */
    ghost predicate CutsOwn(from: nat, own: u16, bs: seq<Block>)
      reads this
    {
      from <= |cuts| && forall i :: from <= i < |cuts| ==> Others(cuts[i], {0, own}) == Others(bs, {0, own})
    }

    lemma SpareIsOwn(from: nat, own: u16, cur: seq<Block>, bs: seq<Block>)
      requires CutsSpare(from, own, cur) && Others(cur, {0, own}) == Others(bs, {0, own})
      ensures CutsOwn(from, own, bs)
    {
      hide Others;
      forall i | from <= i < |cuts| ensures Others(cuts[i], {0, own}) == Others(bs, {0, own}) {
        OthersAgree(cuts[i], cur, {own}, {0, own});
      }
    }

    lemma OwnIsHarmless(from: nat, own: u16, bs: seq<Block>)
      requires CutsOwn(from, own, bs)
      ensures CutsHarmless(from, own, bs)
    {
      hide Others, Harmless;
      forall i | from <= i < |cuts| ensures Harmless(cuts[i], own, bs) {
        HarmlessSame(cuts[i], own, bs);
      }
    }

    /** The cuts of a store in two parts: the allocation, and what comes after it. */
    lemma StoreInParts(before: seq<seq<Block>>, first: seq<seq<Block>>, bs: seq<Block>, id: u16, h: Handler)
      requires before + first <= cuts && CutsOwn(|before + first|, id, bs)
      requires first == if |h.payload| + 1 <= Capacity(bs, id) then [] else AllocCuts(bs, 0, Provision(|h.payload| + 1))
      ensures StoreCuts(cuts[|before|..], bs, id, h)
    {
      hide Others, AllocCuts, Capacity;
      var cs := cuts[|before|..];
      assert first <= cs;
      assert forall i :: |first| <= i < |cs| ==> cs[i] == cuts[|before| + i];
    }

    /** The same after a defragmentation. */
    lemma DefragInParts(before: seq<seq<Block>>, first: seq<seq<Block>>, bs: seq<Block>, id: u16, h: Handler)
      requires var second := AllocCuts(Blocks.Defrag(bs), id, Provision(|h.payload| + 1));
        before + first + second <= cuts && CutsOwn(|before + first + second|, id, bs)
      requires AllSame(first, bs, {0, id}) <==> AllLossless(Movers(bs), {0, id})
      ensures StoreCutsAfterDefrag(cuts[|before|..], bs, id, h)
    {
      hide Others, AllocCuts, AllSame, AllLossless, Movers, Blocks.Defrag;
      var cs, second := cuts[|before|..], AllocCuts(Blocks.Defrag(bs), id, Provision(|h.payload| + 1));
      assert before + first + second == before + (first + second);
      assert first + second <= cs;
      assert forall i :: |first + second| <= i < |cs| ==> cs[i] == cuts[|before| + i];
      assert StoreCutsBehind(first, cs, bs, id, h);
    }

    lemma OneMoreIsHarmless(from: nat, cur: seq<Block>, own: u16, bs: seq<Block>)
      requires CutsOneMore(from, cur) && Others(cur, {0, own}) == Others(bs, {0, own})
      ensures CutsHarmless(from, own, bs)
    {
      hide Others, Harmless, OneMore;
      forall i | from <= i < |cuts| ensures Harmless(cuts[i], own, bs) {
        var id := OneMoreOthers(cuts[i], cur);
        HarmlessBut(cuts[i], id, cur, own, bs);
      }
    }

    /** After every power-cut state since `from` defragmentation is right. */
    ghost predicate CutsCalm(from: nat)
      reads this
    {
      from <= |cuts| && forall i :: from <= i < |cuts| ==> Calm(cuts[i], 3)
    }

    lemma CalmerIsCalm(from: nat, bs: seq<Block>)
      requires CutsCalmer(from, bs) && Calm(bs, 4)
      ensures CutsCalm(from)
    {
      hide Adjacent, Kill, NoEmptyFree;
    }

    lemma DisposedIsCalm(from: nat, k: seq<Block>)
      requires CutsDispose(from, k) && Calm(k, 3)
      ensures CutsCalm(from)
    {
      hide Adjacent, Kill, NoEmptyFree;
    }

    lemma MovingIsAllCalm(from: nat, bs: seq<Block>)
      requires CutsMoving(from, bs) && Settled(bs) && Adjacent(bs) == 0
      ensures CutsCalm(from)
    {
      hide Adjacent, Calm, NoEmptyFree, Moving, Has;
      forall i | from <= i < |cuts| ensures Calm(cuts[i], 3) {
        MovingIsCalm(cuts[i], bs);
      }
    }

    lemma OneMoreIsAllCalm(from: nat, bs: seq<Block>)
      requires CutsOneMore(from, bs) && Settled(bs)
      ensures CutsCalm(from)
    {
      hide Adjacent, Calm, NoEmptyFree, OneMore, Has;
      forall i | from <= i < |cuts| ensures Calm(cuts[i], 3) {
        OneMoreIsCalm(cuts[i], bs, 3);
      }
    }

    /** One round: merge, then move. */
    method DefragRound(ghost bs: seq<Block>, ghost own: u16, ghost mine: set<int>) returns (moved: bool)
      requires Valid() && TameFrom(blocks, 2, 2) && NoEmptyFree(blocks)
      requires Others(blocks, {0, own}) == Others(bs, {0, own})
      modifies this`blocks, this`cuts, reader, writer, rom, rom.data
      ensures Valid() && NoEmptyFree(blocks) && (moved ==> TameFrom(blocks, 2, 2))
      ensures Others(blocks, {0, own}) == Others(bs, {0, own})
      ensures if moved then Compact(old(blocks)) == Compact(blocks) && Behind(blocks) < Behind(old(blocks))
              else Compact(old(blocks)) == blocks
      ensures old(cuts) <= cuts && CutsHarmless(|old(cuts)|, own, bs)
      ensures Settled(old(blocks)) ==> Settled(blocks) && CutsCalm(|old(cuts)|)
      ensures Tidied(old(blocks)) ==> Rounds(cuts[|old(cuts)|..], old(blocks), blocks, mine)
      ensures !moved ==> Behind(blocks) == 0
    {
      hide Encode, EncodeBlock, Body, Layout, Others, Harmless, MergePass, Move, CanMove, TameFrom, NoEmptyFree, Behind,
        Compact, Valid, Settled, Adjacent, Calm, Calmer, Moving, Tidied, Rounds, OneMove;
      ghost var b := blocks;
      var _ := MergeDisposedBlocks();
      ghost var m, from, merged := blocks, |cuts|, cuts;
      KeepObjects(|old(cuts)|, b);
      SameLayoutSameOthers(m, b, OBJECTS, {0, own});
      KeepIsHarmless(|old(cuts)|, b, own, bs);
      if Settled(b) {
        MergeSettles(b);
        CalmIsMore(b, 1, 4);
        CalmerIsCalm(|old(cuts)|, b);
      }
      MergeTamesFrom(b, 1, 1);
      MoveTames(m);
      MergeNoEmptyFree(b);
      MergeKeepsObjects(b);
      CompactStep(b);
      ghost var victim;
      moved, victim := MoveDisposedBackwards();
      SpareIsHarmless(from, victim, m, own, bs);
      if Settled(b) {
        MovingIsAllCalm(from, m);
        if moved {
          MoveSettles(m);
        }
      }
      if moved {
        MoveNoEmptyFree(m);
        MoveProgress(m);
        SameObjectsSameOthers(blocks, m, {0, own});
      }
      if Tidied(b) {
        TidiedIsSized(b);
        InTwoParts(old(cuts), merged, cuts);
        RoundLaw(merged[|old(cuts)|..], cuts[from..], b, blocks, moved, mine);
      }
    }

    lemma KeepObjects(from: nat, bs: seq<Block>)
      requires CutsKeep(from, Layout(bs, OBJECTS))
      ensures forall i :: 0 <= i < |cuts[from..]| ==> Objects(cuts[from..][i]) == Objects(bs)
    {
      hide Layout, Objects, Others;
      forall i | 0 <= i < |cuts[from..]| ensures Objects(cuts[from..][i]) == Objects(bs) {
        SameLayoutSameOthers(cuts[from + i], bs, OBJECTS, {});
      }
    }

    /** Brings all objects to the front and all free space to the end. */
    method Defrag(ghost mine: set<int>)
      requires Valid() && NoEmptyFree(blocks) && Defragmentable(blocks) && 0 in mine
      modifies this`blocks, this`cuts, reader, writer, rom, rom.data
      ensures Valid() && blocks == Blocks.Defrag(old(blocks))
      ensures old(cuts) <= cuts && CutsHarmless(|old(cuts)|, 0, old(blocks))
      ensures Settled(old(blocks)) ==> Settled(blocks) && CutsCalm(|old(cuts)|)
      ensures Inv(old(blocks)) ==>
        (AllSame(cuts[|old(cuts)|..], old(blocks), mine) <==> AllLossless(Movers(old(blocks)), mine))
    {
      hide Encode, EncodeBlock, Body, Layout, Others, Harmless, MergePass, TameFrom, NoEmptyFree, Behind, Compact,
        Valid, Kill, Settled, Adjacent, Calm, Calmer, Inv, Tidied, Rounds, AllSame, AllLossless, Movers;
      ghost var bs := blocks;
      var _ := DisposeObject(0, true);
      SparedFirst(|old(cuts)|, bs, mine);
      if Settled(bs) {
        MergeSettles(bs);
        CalmIsMore(bs, 1, 3);
        DisposedIsCalm(|old(cuts)|, bs);
      }
      SpareIsHarmless(|old(cuts)|, 0, bs, 0, bs);
      MergeTamesFrom(Kill(bs, 0), 2, 2);
      KillNoEmptyFree(bs, 0);
      MergeNoEmptyFree(Kill(bs, 0));
      MergeKeepsObjects(Kill(bs, 0));
      SameObjectsSameOthers(blocks, Kill(bs, 0), {0, 0});
      KillSpares(bs, 0);
      OthersAgree(Kill(bs, 0), bs, {0}, {0, 0});
      var moved := true;
      while moved
        invariant Valid() && NoEmptyFree(blocks) && (moved ==> TameFrom(blocks, 2, 2))
        invariant Others(blocks, {0, 0}) == Others(bs, {0, 0})
        invariant if moved then Compact(blocks) == Blocks.Defrag(bs) else blocks == Blocks.Defrag(bs)
        invariant old(cuts) <= cuts && CutsHarmless(|old(cuts)|, 0, bs)
        invariant Settled(bs) ==> Settled(blocks) && CutsCalm(|old(cuts)|)
        invariant Inv(bs) ==> Tidied(blocks) && Rounds(cuts[|old(cuts)|..], bs, blocks, mine)
        invariant !moved ==> Behind(blocks) == 0
        decreases moved, Behind(blocks)
      {
        ghost var before, cur := cuts, blocks;
        moved := DefragRound(bs, 0, mine);
        if Inv(bs) {
          InTwoParts(old(cuts), before, cuts);
          RoundsThenRounds(before[|old(cuts)|..], cuts[|before|..], bs, cur, blocks, mine);
          TidiedAfter(cuts[|old(cuts)|..], bs, blocks, mine);
        }
      }
      if Inv(bs) {
        AllRounds(cuts[|old(cuts)|..], bs, blocks, mine);
      }
    }

    lemma SparedFirst(from: nat, bs: seq<Block>, mine: set<int>)
      requires CutsSpare(from, 0, bs) && 0 in mine
      ensures Inv(bs) ==> Tidied(Dispose(bs, 0)) && Rounds(cuts[from..], bs, Dispose(bs, 0), mine)
    {
      hide Others, Rounds, Dispose, Sized, Unique, Encode;
      if Inv(bs) {
        FirstRound(cuts[from..], bs, mine);
        TidiedAfter(cuts[from..], bs, Dispose(bs, 0), mine);
      }
    }

    // ---------- storing ----------

    /** The object after `i` bytes of the record have been streamed to it; a writer without room
        refuses them all. */
    ghost function Partial(o: Block, record: seq<byte>, i: nat, refused: bool): Block
      requires o.Object? && i <= |record| <= |o.data|
    {
      if refused then o else Object(o.used, o.id, record[..i] + o.data[i..])
    }

    /** The stream over the object data, `i` bytes of `record` in. */
    ghost predicate Streaming(pre: seq<Block>, o: Block, record: seq<byte>, i: nat, refused: bool, post: seq<Block>)
      reads this, rom, rom.data, reader, writer, writer.rom
    {
      && Valid() && o.Object? && i <= |record| <= |o.data|
      && blocks == pre + [Partial(o, record, i, refused)] + post
      && writer.Inside()
      && if refused then writer.offset == OBJECTS + |Encode(pre)| + 7 && writer.length == 0
         else writer.offset == OBJECTS + |Encode(pre)| + 7 + i && writer.length >= |o.data| - i
    }

    /** Streams one byte of an object's data through a region of `room` bytes. */
    method StreamByte(value: byte, room: nat, ghost pre: seq<Block>, ghost o: Block, ghost record: seq<byte>,
                      ghost i: nat, ghost refused: bool, ghost post: seq<Block>) returns (ok: bool)
      requires Streaming(pre, o, record, i, refused, post) && i < |record| && value == record[i] && room > 0
      modifies this`blocks, this`cuts, writer, rom, rom.data
      ensures Streaming(pre, o, record, i + 1, refused, post) && ok == !refused
      ensures cuts == if refused then old(cuts) else old(cuts) + [blocks]
    {
      hide Encode, EncodeBlock, Body, Splice, Partial;
      PartialStep(o, record, i, refused);
      ok := false;
      if room > 0 {
        if writer.length > 0 {
          ghost var was, now := Partial(o, record, i, refused), Partial(o, record, i + 1, refused);
          Rewrite(was, now, 4 + i, [value]);
          Put([value], pre, [was], [now], post, 3 + 4 + i);
          ok := true;
        } else {
          ok := writer.Write(value);
        }
      }
    }

    lemma PartialStep(o: Block, record: seq<byte>, i: nat, refused: bool)
      requires o.Object? && i < |record| <= |o.data|
      ensures var was, now := Partial(o, record, i, refused), Partial(o, record, i + 1, refused);
        && (refused ==> was == now)
        && (!refused ==> Tag(was) == Tag(now) && 4 + i + 1 <= |Body(was)|
                         && Body(now) == Splice(Body(was), 4 + i, [record[i]]))
    {
      var was, now := Partial(o, record, i, refused), Partial(o, record, i + 1, refused);
      if !refused {
        var fields := U16(o.used) + U16(o.id);
        assert |fields| == 4;
        assert record[..i + 1] == record[..i] + [record[i]];
        assert now.data == Splice(was.data, i, [record[i]]);
        SpliceInside(Body(was), fields, was.data, [], i, [record[i]]);
      }
    }

    /** Runs the handler on the CRC stream in front of the region. */
    method StreamPayload(seed: byte, h: Handler, room: nat, ghost pre: seq<Block>, ghost o: Block,
                         ghost record: seq<byte>, ghost refused: bool, ghost post: seq<Block>)
      returns (crc: byte, left: nat)
      requires Streaming(pre, o, record, 0, refused, post) && h.payload < record && room == |o.data|
      modifies this`blocks, this`cuts, writer, rom, rom.data
      ensures Streaming(pre, o, record, |h.payload|, refused, post)
      ensures crc == Crc8.Fold(seed, h.payload) && left == room - |h.payload|
      ensures old(cuts) <= cuts && CutsSpareAround(|old(cuts)|, pre, o.id, post, 1)
    {
      hide Encode, EncodeBlock, Body, Partial, SparesAround, Streaming, Crc8.Fold;
      crc, left := seed, room;
      var i := 0;
      Crc8.FoldNone(seed, h.payload);
      StreamingRoom(pre, o, record, 0, refused, post);
      while i < |h.payload|
        invariant 0 <= i <= |h.payload| && left == room - i && crc == Crc8.Fold(seed, h.payload[..i])
        invariant Streaming(pre, o, record, i, refused, post)
        invariant old(cuts) <= cuts && CutsSpareAround(|old(cuts)|, pre, o.id, post, 1)
      {
        Crc8.FoldNext(seed, h.payload, i);
        crc := Crc8.Step(crc, h.payload[i]);
        var _ := StreamByte(h.payload[i], left, pre, o, record, i, refused, post);
        StreamingRoom(pre, o, record, i + 1, refused, post);
        left := left - 1;
        i := i + 1;
      }
      assert h.payload[..i] == h.payload;
    }

    lemma StreamingRoom(pre: seq<Block>, o: Block, record: seq<byte>, i: nat, refused: bool, post: seq<Block>)
      requires Streaming(pre, o, record, i, refused, post)
      ensures o.Object? && i <= |record| <= |o.data| && SparesAround(blocks, pre, o.id, post, 1)
    {
      hide SparesAround;
      SparesOne(pre, Partial(o, record, i, refused), o.id, post, 1);
    }

    /** Streams the handler's bytes and the CRC byte into an object block. The CRC also covers the
        id, which is not part of the stream. */
    method WriteWithCrc(id: u16, h: Handler, room: nat, ghost pre: seq<Block>, ghost o: Block, ghost refused: bool,
                        ghost post: seq<Block>) returns (res: CboxError)
      requires Streaming(pre, o, Record(id, h), 0, refused, post) && room == |o.data|
      modifies this`blocks, this`cuts, writer, rom, rom.data
      ensures Streaming(pre, o, Record(id, h), |h.payload| + 1, refused, post)
      ensures res == if refused then PersistedStorageWriteError else h.final
      ensures old(cuts) <= cuts && CutsSpareAround(|old(cuts)|, pre, o.id, post, 1)
    {
      hide Encode, EncodeBlock, Body, Partial, SparesAround, Streaming, Record, Crc8.Step, Crc8.Fold, U16;
      ghost var record := Record(id, h);
      RecordParts(id, h);
      var seed := Crc8.Step(Crc8.Step(0, U16(id)[0]), U16(id)[1]);
      StreamingRoom(pre, o, record, 0, refused, post);
      var crc, left := StreamPayload(seed, h, room, pre, o, record, refused, post);
      if h.final != Ok {
        crc := Crc8.Invalidated(crc);
      }
      var crcWritten := StreamByte(crc, left, pre, o, record, |h.payload|, refused, post);
      StreamingRoom(pre, o, record, |h.payload| + 1, refused, post);
      if !crcWritten {
        return PersistedStorageWriteError;
      }
      return h.final;
    }

    /** Every power-cut state since `from` differs from the chain in one block between `pre` and `post`. */
    ghost predicate CutsWriting(from: nat, pre: seq<Block>, post: seq<Block>)
      reads this
    {
      from <= |cuts| && forall i :: from <= i < |cuts| ==> Writing(cuts[i], pre, post)
    }

    lemma StreamingIsWriting(from: nat, pre: seq<Block>, id: u16, post: seq<Block>)
      requires CutsSpareAround(from, pre, id, post, 1)
      ensures CutsWriting(from, pre, post)
    {
      hide SparesAround;
    }

    lemma WritingIsAllCalm(from: nat, pre: seq<Block>, post: seq<Block>)
      requires CutsWriting(from, pre, post) && Around(pre, post)
      ensures CutsCalm(from)
    {
      hide Around, Calm, Writing;
      forall i | from <= i < |cuts| ensures Calm(cuts[i], 3) {
        WritingIsCalm(cuts[i], pre, post);
      }
    }

    /** Streams the data of an object to its block and completes the object fields. */
    method StoreAt(dataLocation: nat, id: u16, h: Handler, room: nat, ghost pre: seq<Block>, ghost o: Block,
                   ghost refused: bool, ghost post: seq<Block>, ghost bs: seq<Block>) returns (res: CboxError)
      requires Streaming(pre, o, Record(id, h), 0, refused, post) && room == |o.data|
      requires o.id == 0 || o.id == id
      requires dataLocation == OBJECTS + |Encode(pre)| + 7
      requires Others(blocks, {0, id}) == Others(bs, {0, id})
      modifies this`blocks, this`cuts, writer, rom, rom.data
      ensures Valid() && |Record(id, h)| <= |o.data|
      ensures blocks == pre + [if refused then Object(0, id, o.data) else Filled(o, id, Record(id, h))] + post
      ensures res == if refused then PersistedStorageWriteError else h.final
      ensures old(cuts) <= cuts && CutsOwn(|old(cuts)|, id, bs) && CutsWriting(|old(cuts)|, pre, post)
    {
      hide Encode, EncodeBlock, Body, SparesAround, Others, Record, Partial, Writing;
      ghost var record, cur := Record(id, h), blocks;
      RecordParts(id, h);
      res := WriteWithCrc(id, h, room, pre, o, refused, post);
      var actualSize := writer.offset - dataLocation;
      ghost var streamed, o1 := cuts, Partial(o, record, |h.payload| + 1, refused);
      StreamedSafely(|old(cuts)|, cur, pre, o, record, refused, post, id, bs);
      StreamingIsWriting(|old(cuts)|, pre, o.id, post);
      PartialDone(o, record, refused, id);
      EncodeOne(o1);
      SmallObject(pre, o1, post);
      writer.Reset(dataLocation - (OBJECT_HEADER - BLOCK_HEADER), 4);
      PutFields(actualSize, id, pre, o1, post);
      ghost var a, b := Object(actualSize, o1.id, o1.data), Object(actualSize, id, o1.data);
      OthersExchange(pre, o, a, post, {0, id});
      OthersExchange(pre, o, b, post, {0, id});
      WritingOne(pre, a, post);
      WritingOne(pre, b, post);
    }

    /** The cuts made while data is streamed into `o` do no harm. */
    lemma StreamedSafely(from: nat, cur: seq<Block>, pre: seq<Block>, o: Block, record: seq<byte>, refused: bool,
                         post: seq<Block>, own: u16, bs: seq<Block>)
      requires o.Object? && (o.id == 0 || o.id == own) && |record| <= |o.data|
      requires cur == pre + [Partial(o, record, 0, refused)] + post
      requires CutsSpareAround(from, pre, o.id, post, 1) && Others(cur, {0, own}) == Others(bs, {0, own})
      ensures cur == pre + [o] + post && CutsOwn(from, own, bs)
    {
      hide SparesAround, Others;
      PartialNone(o, record, refused);
      SparesOne(pre, o, o.id, post, 1);
      forall i | from <= i < |cuts| ensures Others(cuts[i], {0, own}) == Others(bs, {0, own}) {
        SparesSame(cuts[i], cur, pre, o.id, post, 1);
        OthersAgree(cuts[i], cur, {o.id}, {0, own});
      }
    }

    lemma PartialNone(o: Block, record: seq<byte>, refused: bool)
      requires o.Object? && |record| <= |o.data|
      ensures Partial(o, record, 0, refused) == o
    {
    }

    lemma PartialDone(o: Block, record: seq<byte>, refused: bool, id: u16)
      requires o.Object? && |record| <= |o.data|
      ensures var b := Partial(o, record, |record|, refused);
        && b.Object? && b.id == o.id && |b.data| == |o.data| && |Body(b)| >= 4
        && (refused ==> b.data == o.data)
        && (!refused && |record| < 0x10000 ==> Object(|record|, id, b.data) == Filled(o, id, record))
    {
    }

    lemma SmallObject(pre: seq<Block>, o: Block, post: seq<Block>)
      requires Valid() && o.Object? && blocks == pre + [o] + post
      ensures |o.data| < 0x10000 && OBJECTS + |Encode(pre)| + 7 + |o.data| <= rom.data.Length
    {
      hide Encode, Valid;
      Space(pre, [o], post);
      EncodeOne(o);
      assert |Body(o)| == 4 + |o.data|;
      LengthBound();
    }

    lemma LengthBound()
      requires Valid()
      ensures rom.data.Length < 0x10000
    {
    }

    /** After every power-cut state since `from` but possibly `k` defragmentation is right. */
    ghost predicate CutsButOne(from: nat, k: seq<Block>)
      reads this
    {
      from <= |cuts| && forall i :: from <= i < |cuts| ==> Calm(cuts[i], 3) || cuts[i] == k
    }

    lemma DisposeButOne(from: nat, k: seq<Block>)
      requires CutsDispose(from, k) && Calm(k, 4)
      ensures CutsButOne(from, k)
    {
      hide Adjacent, Kill, NoEmptyFree;
    }

    /** Disposes of the old block of an object whose new block is `o`. */
    method DisposeOld(id: u16, ghost pre: seq<Block>, ghost o: Block, ghost post: seq<Block>, ghost bs: seq<Block>)
      requires Valid() && blocks == pre + [o] + post && o.Object?
      requires id != 0 && if o.id == id then Has(pre, id) else o.id == 0
      requires Others(blocks, {0, id}) == Others(bs, {0, id})
      modifies this`blocks, this`cuts, reader, writer, rom, rom.data
      ensures Valid() && Others(blocks, {0, id}) == Others(bs, {0, id})
      ensures blocks == if Has(pre, id) then Dispose(pre, id) + [o] + MergePass(post)
                        else MergePass(pre) + [o] + Dispose(post, id)
      ensures |Encode(Dispose(pre, id))| == |Encode(MergePass(pre))| == |Encode(pre)|
      ensures old(cuts) <= cuts && CutsOwn(|old(cuts)|, id, bs)
      ensures NewPlace(pre, post) ==> CutsButOne(|old(cuts)|, Kill(old(blocks), id))
    {
      hide Encode, Others, Dispose, MergePass, Has, Calm, Kill, NewPlace;
      ghost var cur := blocks;
      DisposeAround(pre, o, post, id);
      var _ := DisposeObject(id, true);
      SpareIsOwn(|old(cuts)|, id, cur, bs);
      DisposeSpares(cur, id);
      if NewPlace(pre, post) {
        OldIsCalm(pre, o, post, id);
        DisposeButOne(|old(cuts)|, Kill(cur, id));
      }
    }

    /** Stores an object in its new block `o`, after disposing of its old block if there is one.
        The writer is reset to `eepromBlockSize` bytes when an old block was disposed of. */
    method StoreNew(id: u16, h: Handler, room: nat, eepromBlockSize: nat, isRelocate: bool,
                    ghost pre: seq<Block>, ghost o: Block, ghost post: seq<Block>, ghost bs: seq<Block>)
      returns (res: CboxError)
      requires Valid() && blocks == pre + [o] + post && o.Object? && room == |o.data| > |h.payload|
      requires writer.Inside() && writer.offset == OBJECTS + |Encode(pre)| + 7 && writer.length == room
      requires id != 0 && if o.id == id then isRelocate ==> Has(pre, id) else o.id == 0
      requires eepromBlockSize == room || eepromBlockSize == 0
      requires Others(blocks, {0, id}) == Others(bs, {0, id})
      modifies this`blocks, this`cuts, reader, writer, rom, rom.data
      ensures Valid() && |Record(id, h)| <= |o.data|
      ensures var lost := isRelocate && eepromBlockSize == 0;
        && res == (if lost then PersistedStorageWriteError else h.final)
        && var x := if lost then Object(0, id, o.data) else Filled(o, id, Record(id, h));
           blocks == if !isRelocate then pre + [x] + post
                     else if Has(pre, id) then Dispose(pre, id) + [x] + MergePass(post)
                     else MergePass(pre) + [x] + Dispose(post, id)
      ensures old(cuts) <= cuts && CutsOwn(|old(cuts)|, id, bs)
      ensures NewPlace(pre, post) ==>
        if isRelocate then CutsButOne(|old(cuts)|, Kill(old(blocks), id)) else CutsCalm(|old(cuts)|)
    {
      hide Encode, EncodeBlock, Body, Others, Record, Partial, Dispose, MergePass, Has, Filled, SparesAround,
        Calm, Calmer, Kill, Writing, NewPlace, Around;
      var dataLocation := writer.offset;
      ghost var before, after, refused := pre, post, false;
      RecordParts(id, h);
      if isRelocate {
        DisposeOld(id, pre, o, post, bs);
        before := if Has(pre, id) then Dispose(pre, id) else MergePass(pre);
        after := if Has(pre, id) then MergePass(post) else Dispose(post, id);
        SmallObject(before, o, after);
        writer.Reset(dataLocation, eepromBlockSize);
        refused := eepromBlockSize == 0;
      }
      PartialNone(o, Record(id, h), refused);
      ghost var from := |cuts|;
      res := StoreAt(dataLocation, id, h, room, before, o, refused, after, bs);
      if NewPlace(pre, post) {
        NewPlaceAround(pre, o, post, id, isRelocate);
        WritingIsAllCalm(from, before, after);
      }
    }

    /** Makes a new block for an object that does not fit where it is. */
    method AllocateObject(id: u16, h: Handler, isRelocate: bool) returns (res: CboxError)
      requires Valid() && InRange(h) && id != 0 && blocks != []
      requires NoEmptyFree(blocks) && Defragmentable(blocks)
      requires isRelocate == (Capacity(blocks, id) > 0) && h.dryRun == Ok && |h.payload| + 1 > Capacity(blocks, id)
      modifies this`blocks, this`cuts, reader, writer, rom, rom.data
      ensures Valid() && Outcome(blocks, res) == Allocate(old(blocks), id, h)
      ensures old(cuts) <= cuts && CutsHarmless(|old(cuts)|, id, old(blocks))
      ensures Settled(old(blocks)) ==> CutsButOne(|old(cuts)|, Midway(old(blocks), id, h))
      ensures CutsOfStore(cuts[|old(cuts)|..], old(blocks), id, h)
    {
      hide Encode, EncodeBlock, Body, Others, Harmless, Record, Dispose, MergePass, Has, Filled, Alloc, Blocks.Defrag,
        Blocks.FreeSpace, Defragmentable, NoEmptyFree, Kill, Capacity, Find, Settled, NewPlace, Calm, AllocCuts,
        StoreCuts, StoreCutsAfterDefrag, Inv, InOneGo, AfterDefrag;
      ghost var bs := blocks;
      AllocPaths(bs, id, h);
      var dataSize := |h.payload| + 1;
      var overProvision := Max(dataSize / 8, 4);
      var requestedSize := dataSize + overProvision;
      var room := NewObjectWriter(0, requestedSize);
      OneMoreIsHarmless(|old(cuts)|, bs, id, bs);
      if Settled(bs) {
        OneMoreIsAllCalm(|old(cuts)|, bs);
      }
      AllocFits(bs, 0, requestedSize);
      var eepromBlockSize := room;
      if room >= requestedSize {
        ghost var p := Alloc(bs, 0, requestedSize);
        OthersAgree(p.Chain(), bs, {0}, {0, id});
        if Settled(bs) {
          AllocPlace(bs, 0, requestedSize);
        }
        ghost var from := |cuts|;
        res := StoreNew(id, h, room, eepromBlockSize, isRelocate, p.pre, p.obj, p.post, bs);
        OwnIsHarmless(from, id, bs);
        StoreInParts(old(cuts), AllocCuts(bs, 0, requestedSize), bs, id, h);
        return;
      }
      var free := FreeSpace();
      if free < requestedSize + (OBJECT_HEADER - BLOCK_HEADER) {
        return InsufficientPersistentStorage;
      }
      res := AllocateDefragged(id, h, requestedSize, isRelocate, eepromBlockSize);
    }

    /** Makes room by a defragmentation and tries again. */
    method AllocateDefragged(id: u16, h: Handler, requestedSize: nat, isRelocate: bool, eepromBlockSize: nat)
      returns (res: CboxError)
      requires Valid() && InRange(h) && requestedSize == Provision(|h.payload| + 1) && eepromBlockSize == 0
      requires id != 0 && NoEmptyFree(blocks) && Defragmentable(blocks) && |Encode(blocks)| < 0x10000
      requires isRelocate == (Capacity(blocks, id) > 0)
      modifies this`blocks, this`cuts, reader, writer, rom, rom.data
      ensures Valid()
      ensures match Alloc(Blocks.Defrag(old(blocks)), id, requestedSize)
        case NoRoom => blocks == Blocks.Defrag(old(blocks)) && res == InsufficientPersistentStorage
        case Placed(pre, o, post) =>
          if isRelocate then blocks == LoseData(pre, o, post, id) && res == PersistedStorageWriteError
          else blocks == Fill(pre, o, post, id, Record(id, h)) && res == h.final
      ensures old(cuts) <= cuts && CutsHarmless(|old(cuts)|, id, old(blocks))
      ensures Settled(old(blocks)) ==> CutsCalm(|old(cuts)|)
      ensures Inv(old(blocks)) ==> StoreCutsAfterDefrag(cuts[|old(cuts)|..], old(blocks), id, h)
    {
      hide Encode, EncodeBlock, Body, Others, Harmless, Record, Dispose, MergePass, Filled, Alloc, Blocks.Defrag,
        Defragmentable, NoEmptyFree, Capacity, Settled, Calm, AllocCuts, StoreCutsAfterDefrag, Inv, AllSame,
        AllLossless, Movers, LoseData, Fill;
      ghost var bs := blocks;
      Defrag({0, id});
      ZeroIsHarmless(|old(cuts)|, id, bs);
      ghost var first := cuts[|old(cuts)|..];
      res := AllocateAgain(id, h, requestedSize, isRelocate, eepromBlockSize, bs);
      if Inv(bs) {
        DefragInParts(old(cuts), first, bs, id, h);
      }
    }

    /** The second attempt, after a defragmentation of `bs`. */
    method AllocateAgain(id: u16, h: Handler, requestedSize: nat, isRelocate: bool, eepromBlockSize: nat,
                         ghost bs: seq<Block>) returns (res: CboxError)
      requires Valid() && InRange(h) && requestedSize == Provision(|h.payload| + 1) && eepromBlockSize == 0
      requires id != 0 && |Encode(bs)| < 0x10000 && blocks == Blocks.Defrag(bs) && Defragmentable(bs)
      requires isRelocate == (Capacity(bs, id) > 0)
      modifies this`blocks, this`cuts, reader, writer, rom, rom.data
      ensures Valid()
      ensures match Alloc(old(blocks), id, requestedSize)
        case NoRoom => blocks == old(blocks) && res == InsufficientPersistentStorage
        case Placed(pre, o, post) =>
          if isRelocate then blocks == LoseData(pre, o, post, id) && res == PersistedStorageWriteError
          else blocks == Fill(pre, o, post, id, Record(id, h)) && res == h.final
      ensures old(cuts) <= cuts && CutsHarmless(|old(cuts)|, id, bs)
      ensures Settled(old(blocks)) ==> CutsCalm(|old(cuts)|)
      ensures var second := AllocCuts(old(blocks), id, requestedSize);
        old(cuts) + second <= cuts && CutsOwn(|old(cuts) + second|, id, bs)
    {
      hide Encode, EncodeBlock, Body, Others, Harmless, Record, Dispose, MergePass, Has, Filled, Alloc, Blocks.Defrag,
        Defragmentable, Kill, Capacity, Find, Settled, NewPlace, Calm, AllocCuts;
      ghost var d := blocks;
      DefragSpares(bs, id);
      var room := NewObjectWriter(id, requestedSize);
      AllocFits(d, id, requestedSize);
      OneMoreIsHarmless(|old(cuts)|, d, id, bs);
      if Settled(d) {
        OneMoreIsAllCalm(|old(cuts)|, d);
      }
      if room < requestedSize {
        return InsufficientPersistentStorage;
      }
      ghost var p := Alloc(d, id, requestedSize);
      OthersAgree(p.Chain(), d, {id}, {0, id});
      if isRelocate {
        CapacityHas(bs, id);
        DefragIff(bs);
        OldIsInFront(bs, id, requestedSize);
      }
      if Settled(d) {
        AllocPlace(d, id, requestedSize);
        if isRelocate {
          MidwayAfterDefrag(p.pre, p.obj, p.post, id);
        }
      }
      ghost var from := |cuts|;
      res := StoreNew(id, h, room, eepromBlockSize, isRelocate, p.pre, p.obj, p.post, bs);
      OwnIsHarmless(from, id, bs);
    }

    lemma ZeroIsHarmless(from: nat, own: u16, bs: seq<Block>)
      requires CutsHarmless(from, 0, bs)
      ensures CutsHarmless(from, own, bs)
    {
      hide Harmless;
      forall i | from <= i < |cuts| ensures Harmless(cuts[i], own, bs) {
        HarmlessForOther(cuts[i], bs, own, bs);
      }
    }

    /** Saves what the handler streams under the given id: over the old data when it fits, else in
        a new block. Power cuts at any time leave a chain of blocks in which every object but this
        one, a half-made one and at most one more is untouched. */
    method StoreObject(id: u16, h: Handler) returns (res: CboxError)
      requires Valid() && InRange(h) && blocks != []
      requires NoEmptyFree(blocks) && Defragmentable(blocks)
      modifies this`blocks, this`cuts, reader, writer, rom, rom.data
      ensures Valid() && Outcome(blocks, res) == Store(old(blocks), id, h)
      ensures old(cuts) <= cuts && CutsHarmless(|old(cuts)|, id, old(blocks))
      ensures Settled(old(blocks)) ==> CutsButOne(|old(cuts)|, Midway(old(blocks), id, h))
      ensures CutsOfStore(cuts[|old(cuts)|..], old(blocks), id, h)
    {
      hide Encode, EncodeBlock, Body, Others, Harmless, Record, Filled, Allocate, Defragmentable, NoEmptyFree, Kill,
        Find, SparesAround, Settled, Around, Calm, Writing, Midway, AllocCuts, StoreCuts, Alloc, Blocks.Defrag,
        Blocks.FreeSpace, StoreCutsAfterDefrag, Inv, InOneGo, AfterDefrag;
      QuickPaths(blocks, id, h);
      if id == 0 {
        return InvalidObjectId;
      }
      var dataSize := |h.payload| + 1;
      if h.dryRun == PersistingNotNeeded {
        return Ok;
      }
      if h.dryRun != Ok {
        return h.dryRun;
      }
      var blockSize, k := GetObjectReader(id, false);
      if dataSize <= blockSize {
        ghost var bs, pre, o, post := blocks, blocks[..k], blocks[k], blocks[k + 1..];
        SplitAt(blocks, k);
        SmallObject(pre, o, post);
        DataLength(k);
        writer.Reset(reader.offset, reader.length);
        RecordParts(id, h);
        PartialNone(o, Record(id, h), false);
        res := StoreAt(writer.offset, id, h, blockSize, pre, o, false, post, bs);
        OwnIsHarmless(|old(cuts)|, id, bs);
        StoreInParts(old(cuts), [], bs, id, h);
        if Settled(bs) {
          AroundObject(pre, o, post);
          WritingIsAllCalm(|old(cuts)|, pre, post);
        }
      } else {
        res := AllocateObject(id, h, blockSize > 0);
      }
    }

    lemma DataLength(k: nat)
      requires Valid() && k < |blocks| && blocks[k].Object? && AtData(blocks[..k], blocks[k..])
      ensures reader.length >= |blocks[k].data|
    {
      EncodeHead(blocks[k..]);
    }

    // ---------- retrieving ----------

    /** Reads `len` bytes of a block's data. */
    method ReadData(len: nat, ghost k: nat) returns (data: seq<byte>)
      requires Valid() && k < |blocks| && blocks[k].Object? && AtData(blocks[..k], blocks[k..])
        && len <= |blocks[k].data|
      modifies reader
      ensures Valid() && data == blocks[k].data[..len]
      ensures reader.Inside() && reader.offset == old(reader.offset) + len && reader.length == old(reader.length) - len
    {
      hide Encode, EncodeBlock, Body;
      data := [];
      ghost var start, o := reader.offset, blocks[k];
      DataLength(k);
      while |data| < len
        invariant |data| <= len && Valid() && reader.Inside() && data == o.data[..|data|]
        invariant reader.offset == start + |data| && reader.length == old(reader.length) - |data|
      {
        DataAt(k, |data|);
        var b := reader.Next();
        data := data + [b];
      }
    }

    lemma DataAt(k: nat, j: nat)
      requires Valid() && k < |blocks| && blocks[k].Object? && j < |blocks[k].data|
      ensures rom.data.Length > OBJECTS + |Encode(blocks[..k])| + 7 + j
      ensures rom.Image()[OBJECTS + |Encode(blocks[..k])| + 7 + j] == blocks[k].data[j]
    {
      hide Encode;
      SplitAt(blocks, k);
      var s := Body(blocks[k]);
      assert s[4 + j] == blocks[k].data[j];
      BodyAt(blocks[..k], blocks[k], blocks[k + 1..], 4 + j);
    }

    /** Passes the stored bytes of an object, with their CRC, to a handler. */
    method RetrieveObject(id: u16) returns (res: CboxError, data: seq<byte>)
      requires Valid()
      modifies reader
      ensures Valid() && data == Get(blocks, id)
      ensures res == if Get(blocks, id) == [] then PersistedObjectNotFound else Ok
    {
      hide Encode, Body, Find;
      var len, k := GetObjectReader(id, true);
      if len == 0 {
        return PersistedObjectNotFound, [];
      }
      data := ReadData(len, k);
      res := Ok;
    }

    /** Passes the stored bytes of every object, in the order of the blocks, to a handler. Only when the handler
        reports a stream error the loop stops; its other failures are ignored. */
    method RetrieveObjects(stops: (u16, seq<byte>) -> bool) returns (res: CboxError, found: seq<(u16, seq<byte>)>)
      requires Valid()
      modifies reader
      ensures Valid() && found <= Listing(blocks)
      ensures if res == Ok then found == Listing(blocks) && Unstopped(found, stops)
              else res == PersistedBlockStreamError && found != [] && var (id, data) := found[|found| - 1];
                   stops(id, data) && Unstopped(found[..|found| - 1], stops)
    {
      hide Encode, EncodeBlock, Body, Valid, At, Behind3, Listing, Unstopped;
      found := [];
      ResetReader();
      FromStart();
      ghost var k := 0;
      ListingStart(blocks);
      LengthIs(blocks[..0], blocks[0..]);
      NoneStops(stops);
      while reader.length > 0
        invariant 0 <= k <= |blocks| && Valid() && At(blocks[..k], blocks[k..])
          && (reader.length == 0 <==> k == |blocks|)
        invariant found == Listing(blocks[..k]) && Unstopped(found, stops)
        decreases |blocks| - k
      {
        var ok, item := RetrieveNext(k);
        if !ok {
          return InvalidPersistedBlockType, found;
        }
        ListingNext(blocks, k);
        ListingPrefix(blocks, k + 1);
        NextHeard(found, item, stops);
        found := found + item;
        if item != [] && stops(item[0].0, item[0].1) {
          return PersistedBlockStreamError, found;
        }
        k := k + 1;
        LengthIs(blocks[..k], blocks[k..]);
      }
      ListingStart(blocks);
      res := Ok;
    }

    /** Reads one block at a block boundary. */
    method RetrieveNext(ghost k: nat) returns (ok: bool, item: seq<(u16, seq<byte>)>)
      requires Valid() && k < |blocks| && At(blocks[..k], blocks[k..])
      modifies reader
      ensures Valid() && At(blocks[..k + 1], blocks[k + 1..]) && ok && item == ListingOne(blocks[k])
    {
      hide Encode, EncodeBlock, Body, Valid, At, Behind3;
      var tag, got, size := ReadHeader(blocks[..k], blocks[k..]);
      item := [];
      if tag == OBJECT_BLOCK {
        var used, id, left := ReadFields(size, blocks[..k], blocks[k..]);
        var data := ReadData(Min(used, left), k);
        item := [(id, data)];
        SkipRest(left - Min(used, left), left, k);
      } else if tag == DISPOSED_BLOCK {
        FreeBody(blocks[k].junk);
        SkipWhole(size, k);
      } else {
        return false, [];
      }
      ok := true;
    }

    method SkipRest(rest: nat, ghost left: nat, ghost k: nat)
      requires Valid() && k < |blocks| && blocks[k].Object? && left == |blocks[k].data| && rest <= left
      requires reader.Inside() && reader.offset == OBJECTS + |Encode(blocks[..k])| + 7 + left - rest
      requires reader.length == |Encode(blocks[k..])| - 7 - left + rest
      modifies reader
      ensures Valid() && At(blocks[..k + 1], blocks[k + 1..])
    {
      hide Encode;
      StepOver(blocks[..k], blocks[k..]);
      assert blocks[..k] + [blocks[k]] == blocks[..k + 1] && blocks[k..][1..] == blocks[k + 1..];
      var _ := reader.Skip(rest);
    }

    method SkipWhole(size: nat, ghost k: nat)
      requires Valid() && k < |blocks| && Behind3(blocks[..k], blocks[k..]) && size == |Body(blocks[k])|
      modifies reader
      ensures Valid() && At(blocks[..k + 1], blocks[k + 1..])
    {
      hide Encode, Body;
      StepOver(blocks[..k], blocks[k..]);
      assert blocks[..k] + [blocks[k]] == blocks[..k + 1] && blocks[k..][1..] == blocks[k + 1..];
      var _ := reader.Skip(size);
    }

    lemma Space(pre: seq<Block>, mid: seq<Block>, post: seq<Block>)
      requires Valid() && blocks == pre + mid + post
      ensures OBJECTS + |Encode(pre)| + |Encode(mid)| + |Encode(post)| == rom.data.Length
    {
      ImageOf(head, pre, mid, post);
    }

    lemma SmallBody(pre: seq<Block>, junk: seq<byte>, post: seq<Block>)
      requires Valid() && blocks == pre + [Free(junk)] + post
      ensures |junk| < 0x10000
    {
      Space(pre, [Free(junk)], post);
      EncodeOne(Free(junk));
    }

    lemma AtEnd()
      requires At(blocks, [])
      ensures blocks[..|blocks|] == blocks && blocks[|blocks|..] == []
    {
    }
  }

  ghost predicate NoneFits(bs: seq<Block>, k: nat, needed: nat) {
    k <= |bs| && forall j :: 0 <= j < k ==> !(bs[j].Free? && |bs[j].junk| >= needed)
  }

  lemma NoneFitsStep(bs: seq<Block>, k: nat, m: nat, needed: nat)
    requires k <= m <= |bs| && (k > 0 ==> NoneFits(bs, k, needed))
    requires forall j :: k <= j < m ==> bs[j].Object? || |bs[j].junk| < needed
    ensures NoneFits(bs, m, needed)
  {
  }

  lemma NoneFitsNext(bs: seq<Block>, m: nat, needed: nat)
    requires NoneFits(bs, m, needed) && (m < |bs| ==> bs[m].Free? && |bs[m].junk| < needed)
    ensures NoneFits(bs, Min(m + 1, |bs|), needed)
  {
  }

  lemma CalmerStill(c: seq<Block>, b: seq<Block>, a: seq<Block>)
    requires (c == b || Calmer(c, b)) && (b == a || Calmer(b, a))
    ensures c == a || Calmer(c, a)
    ensures Calmer(c, b) ==> Calmer(c, a)
  {
    hide Adjacent, Kill, NoEmptyFree;
  }

  /** One step of the overlapping copy: the source byte has not been overwritten yet. */
  lemma CopyStep(gap: seq<byte>, body: seq<byte>, i: nat)
    requires i < |body|
    ensures var was, now := body[..i] + (gap + body)[i..], body[..i + 1] + (gap + body)[i + 1..];
      && |was| == |gap| + |body| && was[|gap| + i] == body[i] && now == Splice(was, i, [body[i]])
  {
    var was, now := body[..i] + (gap + body)[i..], body[..i + 1] + (gap + body)[i + 1..];
    assert was[..i] == body[..i] && was[i + 1..] == (gap + body)[i + 1..];
    assert body[..i + 1] == body[..i] + [body[i]];
  }

  /** The body of the combined block in front of the copy, and what the copy leaves behind. */
  lemma GapBody(f: Block, o: Block)
    requires f.Free? && o.Object?
    ensures var gap, body := f.junk + [OBJECT_BLOCK] + U16(|Body(o)|), Body(o);
      && |gap| == |f.junk| + 3 && gap + body == f.junk + EncodeBlock(o) && |Body(f)| == |f.junk|
      && body + EncodeBlock(Free(Leftover(f, o))) != []
      && |(gap + body)[|body|..]| == |gap|
      && (body + (gap + body)[|body|..])[..|body|] == body
      && (body + (gap + body)[|body|..])[|body| + 3..] == Leftover(f, o)
  {
    hide Body;
    FreeBody(f.junk);
    var gap, body := f.junk + [OBJECT_BLOCK] + U16(|Body(o)|), Body(o);
    assert gap + body == f.junk + EncodeBlock(o);
    var rest := (gap + body)[|body|..];
    assert (body + rest)[|body| + 3..] == rest[3..] == (gap + body)[|body| + 3..];
  }

  lemma LongerObject(o: Block, g: Block)
    requires o.Object?
    ensures var whole := Object(o.used, o.id, o.data + EncodeBlock(g));
      && Body(whole) == Body(o) + EncodeBlock(g) == Body(Free(Body(o) + EncodeBlock(g)))
  {
    hide EncodeBlock;
  }

  /** Overwriting leaves what lies behind as it is. */
  lemma SpliceBefore(s: seq<byte>, at: nat, t: seq<byte>, from: nat, n: nat)
    requires at + |t| <= from && from + n <= |s|
    ensures Splice(s, at, t)[from..from + n] == s[from..from + n]
  {
  }

  /** What has been appended in two steps. */
  lemma InTwoParts(a: seq<seq<Block>>, b: seq<seq<Block>>, c: seq<seq<Block>>)
    requires a <= b <= c
    ensures c[|a|..] == b[|a|..] + c[|b|..]
  {
  }

  lemma OneFree(pre: seq<Block>, x: Block, post: seq<Block>)
    requires x.Free?
    ensures FreeBetween(pre + [x] + post, pre, post)
  {
  }

  lemma SpliceOne(s: seq<byte>, at: nat, b: byte)
    requires at < |s|
    ensures Splice(s, at, [b]) == s[at := b]
  {
  }

  lemma SpliceNothing(s: seq<byte>, at: nat, t: seq<byte>)
    requires at <= |s| && t == []
    ensures Splice(s, at, t) == s
  {
  }

  /** One more byte of a stretch that is copied forward. */
  lemma CopiedByte(img: seq<byte>, to: nat, from: nat, i: nat)
    requires to < from && from + i < |img|
    ensures var s := Splice(img, to, img[from..from + i]);
      s[from + i] == img[from + i] && s[to + i := img[from + i]] == Splice(img, to, img[from..from + i + 1])
  {
  }

  /** Where a move goes wrong: the first disposed block is not empty, and a disposed block comes next. */
  lemma StuckAt(bs: seq<Block>, m: nat)
    requires m <= |bs| && NoEmptyFree(bs) && Behind(bs) > 0 && !CanMove(bs)
    requires (forall j :: 0 <= j < m ==> bs[j].Object?) && (m < |bs| ==> bs[m].Free?)
    ensures m + 1 < |bs| && |bs[m].junk| > 0 && |Body(bs[m])| == |bs[m].junk| && bs[m + 1].Free?
    ensures Objects(bs[m + 1..]) != []
  {
    hide CanMove, Objects;
    BehindAt(bs, m);
    if m < |bs| {
      NoEmptyFreeAt(bs, m);
      MoveAt(bs, m);
      SomeObject(bs[m + 1..]);
    }
  }

  lemma {:induction false} BehindAt(bs: seq<Block>, m: nat)
    requires m <= |bs| && (forall j :: 0 <= j < m ==> bs[j].Object?) && (m < |bs| ==> bs[m].Free?)
    ensures Behind(bs) == if m == |bs| then 0 else |Objects(bs[m + 1..])|
  {
    hide Objects;
    if m > 0 {
      BehindAt(bs[1..], m - 1);
      if m < |bs| {
        assert bs[1..][m..] == bs[m + 1..];
      }
    }
  }

  lemma SomeObject(bs: seq<Block>)
    ensures Objects(bs) != [] ==> bs != []
  {
  }

  lemma {:induction false} NoObjects(bs: seq<Block>)
    requires forall j :: 0 <= j < |bs| ==> bs[j].Free?
    ensures Objects(bs) == []
  {
    if bs != [] {
      NoObjects(bs[1..]);
    }
  }

  /** The blocks that the search for an object passes are disposed, and there are some. */
  lemma StuckParts(bs: seq<Block>, m: nat, j: nat)
    requires m + 1 < |bs| && bs[m + 1].Free? && Objects(bs[m + 1..]) != [] && j == Skipped(bs[m + 1..], OBJECT_BLOCK)
    requires forall i :: 0 <= i < m ==> bs[i].Object?
    ensures 0 < j < |bs[m + 1..]| && bs[m + 1..][j].Object? && |Body(bs[m + 1..][j])| >= 4
    ensures forall b :: b in bs[m + 1..][..j] ==> b.Free?
    ensures bs[..m + 1] == bs[..m] + [bs[m]] && bs[m + 1..][j..] == [bs[m + 1..][j]] + bs[m + 1..][j + 1..]
    ensures bs == bs[..m] + [bs[m]] + bs[m + 1..][..j] + [bs[m + 1..][j]] + bs[m + 1..][j + 1..]
  {
    hide Skipped, Objects, Body;
    var rest := bs[m + 1..];
    SkippedHit(rest, OBJECT_BLOCK);
    SkippedMost(rest, OBJECT_BLOCK);
    if j == |rest| {
      NoObjects(rest);
      assert false;
    }
    FourBodyBytes(rest[j]);
    FivePieces(bs, m, j);
  }

  lemma FourBodyBytes(o: Block)
    ensures o.Object? ==> |Body(o)| >= 4
  {
  }

  lemma FivePieces(bs: seq<Block>, m: nat, j: nat)
    requires m < |bs| && j < |bs[m + 1..]|
    ensures bs[..m + 1] == bs[..m] + [bs[m]] && bs[m + 1..][j..] == [bs[m + 1..][j]] + bs[m + 1..][j + 1..]
    ensures bs == bs[..m] + [bs[m]] + bs[m + 1..][..j] + [bs[m + 1..][j]] + bs[m + 1..][j + 1..]
  {
    var rest := bs[m + 1..];
    assert rest == rest[..j] + [rest[j]] + rest[j + 1..];
    assert bs == bs[..m] + [bs[m]] + rest;
    FivePartsRegroup(bs[..m], bs[m], rest[..j], rest[j], rest[j + 1..]);
  }

  lemma FivePartsRegroup(a: seq<Block>, f: Block, b: seq<Block>, o: Block, c: seq<Block>)
    ensures a + [f] + (b + [o] + c) == a + [f] + b + [o] + c
  {
  }

  /** The image around a disposed block, blocks between and an object. */
  lemma MiddleImage(head: seq<byte>, pre: seq<Block>, f: Block, mid: seq<Block>, o: Block, post: seq<Block>)
    requires f.Free?
    ensures head + Encode(pre + [f] + mid + ([o] + post))
      == head + Encode(pre) + (EncodeBlock(f) + Encode(mid) + EncodeBlock(o)) + Encode(post)
    ensures |Encode(pre + [f] + mid)| == |Encode(pre)| + 3 + |f.junk| + |Encode(mid)|
  {
    hide Encode, EncodeBlock, Body;
    assert pre + [f] + mid + ([o] + post) == pre + ([f] + mid + [o]) + post;
    ImageOf(head, pre, [f] + mid + [o], post);
    EncodeConcat([f] + mid, [o]);
    EncodeConcat([f], mid);
    EncodeConcat(pre, [f]);
    EncodeConcat(pre + [f], mid);
    EncodeOne(f);
    EncodeOne(o);
    FreeBody(f.junk);
  }

  lemma SkippedMost(bs: seq<Block>, tag: byte)
    ensures Skipped(bs, tag) <= |bs| && (bs != [] && Tag(bs[0]) != tag ==> Skipped(bs, tag) > 0)
  {
  }

  lemma FirstIsFree(bs: seq<Block>, m: nat)
    requires m <= |bs| && NoEmptyFree(bs) && (Behind(bs) == 0 || CanMove(bs))
    requires (forall j :: 0 <= j < m ==> bs[j].Object?) && (m < |bs| ==> bs[m].Free?)
    ensures m < |bs| ==> |bs[m].junk| > 0 && |Body(bs[m])| == |bs[m].junk|
    ensures m == |bs| ==> !CanMove(bs)
    ensures m < |bs| && !CanMove(bs) ==> forall j :: m < j < |bs| ==> bs[j].Free?
    ensures CanMove(bs) ==> m + 1 < |bs| && bs[m + 1].Object?
    ensures CanMove(bs) ==> Move(bs) == bs[..m] + [bs[m + 1], Free(Leftover(bs[m], bs[m + 1]))] + bs[m + 2..]
    ensures CanMove(bs) ==> bs == bs[..m] + [bs[m], bs[m + 1]] + bs[m + 2..]
  {
    hide CanMove, Move, Leftover, NoEmptyFree, Behind;
    if m == |bs| {
      NoFreeNoMove(bs);
    } else {
      NoEmptyFreeAt(bs, m);
      MoveAt(bs, m);
      if !CanMove(bs) {
        NothingBehind(bs, m);
      }
    }
  }

  lemma {:induction false} NothingBehind(bs: seq<Block>, m: nat)
    requires m < |bs| && bs[m].Free? && (forall j :: 0 <= j < m ==> bs[j].Object?) && Behind(bs) == 0
    ensures forall j :: m < j < |bs| ==> bs[j].Free?
  {
    if m > 0 {
      SliceOne(bs, m);
      NothingBehind(bs[1..], m - 1);
      assert forall j :: m < j < |bs| ==> bs[j] == bs[1..][j - 1];
    } else {
      AllFree(bs[1..]);
      assert forall j :: 0 < j < |bs| ==> bs[j] == bs[1..][j - 1];
    }
  }

  lemma {:induction false} AllFree(bs: seq<Block>)
    requires Objects(bs) == []
    ensures forall j :: 0 <= j < |bs| ==> bs[j].Free?
  {
    if bs != [] {
      AllFree(bs[1..]);
      assert forall j :: 0 < j < |bs| ==> bs[j] == bs[1..][j - 1];
    }
  }

  /** The CRC of the id seeds the CRC of the data, and the CRC byte comes last. */
  lemma RecordParts(id: u16, h: Handler)
    ensures |U16(id)| == 2
    ensures var seed := Crc8.Step(Crc8.Step(0, U16(id)[0]), U16(id)[1]);
      && |Record(id, h)| == |h.payload| + 1 && h.payload < Record(id, h)
      && Record(id, h)[|h.payload|]
         == if h.final == Ok then Crc8.Fold(seed, h.payload) else Crc8.Invalidated(Crc8.Fold(seed, h.payload))
  {
    hide Crc8.Step;
    var s := U16(id);
    Crc8.FoldNext(0, s, 0);
    Crc8.FoldNext(0, s, 1);
    assert s[..2] == s && s[..1] == [s[0]] && s[..0] == [];
    assert Crc8.Fold(0, []) == 0;
  }

  /** The handler reports no stream error for any of these objects. */
  predicate Unstopped(found: seq<(u16, seq<byte>)>, stops: (u16, seq<byte>) -> bool) {
    forall i :: 0 <= i < |found| ==> !stops(found[i].0, found[i].1)
  }

  lemma NoneStops(stops: (u16, seq<byte>) -> bool)
    ensures Unstopped([], stops)
  {
  }

  lemma NextHeard(found: seq<(u16, seq<byte>)>, item: seq<(u16, seq<byte>)>, stops: (u16, seq<byte>) -> bool)
    requires Unstopped(found, stops) && |item| <= 1
    ensures item == [] || !stops(item[0].0, item[0].1) ==> Unstopped(found + item, stops)
    ensures item != [] ==> (found + item)[|found + item| - 1] == item[0]
    ensures item != [] ==> (found + item)[..|found + item| - 1] == found
  {
  }

  lemma ListingPrefix(bs: seq<Block>, k: nat)
    requires k <= |bs|
    ensures Listing(bs[..k]) <= Listing(bs)
  {
    ListingConcat(bs[..k], bs[k..]);
    assert bs[..k] + bs[k..] == bs;
  }

  lemma ListingStart(bs: seq<Block>)
    ensures Listing(bs[..0]) == [] && bs[..|bs|] == bs
  {
  }

  lemma ListingNext(bs: seq<Block>, k: nat)
    requires k < |bs|
    ensures Listing(bs[..k + 1]) == Listing(bs[..k]) + ListingOne(bs[k])
  {
    hide ListingOne;
    ListingConcat(bs[..k], [bs[k]]);
    assert bs[..k] + [bs[k]] == bs[..k + 1];
    assert Listing([bs[k]]) == ListingOne(bs[k]) + Listing([]);
  }

  lemma SplitAt(bs: seq<Block>, k: nat)
    requires k < |bs|
    ensures bs == bs[..k] + [bs[k]] + bs[k + 1..] && bs[k..] == [bs[k]] + bs[k + 1..]
  {
  }

  lemma {:induction false} FreeSpaceSkips(bs: seq<Block>, k: nat)
    requires bs != [] && k <= |bs| && forall j :: 0 <= j < k ==> bs[j].Object?
    requires k < |bs| ==> bs[k].Free?
    ensures Blocks.FreeSpace(bs) ==
      if k == |bs| then 0 else if k + 1 == |bs| then |bs[k].junk|
      else 3 + |bs[k].junk| + Blocks.FreeSpace(bs[k + 1..])
  {
    if |bs| > 1 {
      assert bs[1..][|bs| - 2] == bs[|bs| - 1];
      if k > 0 {
        FreeSpaceSkips(bs[1..], k - 1);
        if k < |bs| {
          assert bs[1..][k - 1] == bs[k] && bs[1..][k - 1 + 1..] == bs[k + 1..];
        }
      }
    }
  }

  /** Kill acts on the first object with the id, if it has stored bytes. */
  lemma KillAt(bs: seq<Block>, id: u16, k: nat)
    requires k == Find(bs, id)
    ensures k <= |bs| && (k < |bs| ==> bs[k].Object?)
    ensures Get(bs, id) != [] <==> k < |bs| && Min(bs[k].used, |bs[k].data|) > 0
    ensures Kill(bs, id) == if Get(bs, id) == [] then bs else bs[..k] + [Free(Body(bs[k]))] + bs[k + 1..]
  {
    KillFirst(bs, id, k);
    hide Body, Find, Kill;
  }

  lemma {:induction false} KillFirst(bs: seq<Block>, id: u16, k: nat)
    requires k == Find(bs, id)
    ensures k == |bs| ==> Kill(bs, id) == bs
    ensures k < |bs| ==>
      && bs[k].Object?
      && Kill(bs, id) == if Stored(bs[k]) == [] then bs else bs[..k] + [Free(Body(bs[k]))] + bs[k + 1..]
  {
    if bs != [] {
      hide Body, Stored, Kill;
      KillStep(bs, id);
      if bs[0].Object? && bs[0].id == id {
        assert bs[..0] == [] && [] + [Free(Body(bs[0]))] == [Free(Body(bs[0]))];
      } else {
        KillFirst(bs[1..], id, k - 1);
        assert [bs[0]] + bs[1..] == bs;
        if k < |bs| {
          SliceMiddle(bs, k, Free(Body(bs[k])));
        }
      }
    }
  }

  /** What a merge pass does up to the first disposed block and the block behind it. */
  lemma MergeAround(bs: seq<Block>, k: nat)
    requires k == Skipped(bs, DISPOSED_BLOCK)
    ensures k <= |bs| && (k + 1 >= |bs| ==> MergePass(bs) == bs)
    ensures k + 1 < |bs| && bs[k + 1].Free?
            ==> bs[k].Free? && MergePass(bs) == bs[..k] + [Merged(bs[k], bs[k + 1])] + MergePass(bs[k + 1..][1..])
    ensures k + 1 < |bs| && bs[k + 1].Object? ==> MergePass(bs) == bs[..k] + [bs[k]] + MergePass(bs[k + 1..])
  {
    hide MergePass, Skipped, Merged;
    SkippedHit(bs, DISPOSED_BLOCK);
    SkippedMerge(bs, k);
    var rest := bs[k..];
    MergeFront(rest);
    SliceCut2(bs, k);
  }

  lemma NothingMerges()
    ensures !MergesLast([])
  {
  }

  /** The same for the question whether the pass joins the last two blocks. */
  lemma MergesLastAround(bs: seq<Block>, k: nat)
    requires k == Skipped(bs, DISPOSED_BLOCK)
    ensures k <= |bs| && (k + 1 >= |bs| ==> !MergesLast(bs)) && !MergesLast([])
    ensures k + 1 < |bs| && bs[k + 1].Free? ==>
      bs[k].Free? && MergesLast(bs) == (bs[k + 1..][1..] == [] || MergesLast(bs[k + 1..][1..]))
    ensures k + 1 < |bs| && bs[k + 1].Object? ==> bs[k + 1..] != [] && MergesLast(bs) == MergesLast(bs[k + 1..])
  {
    hide Skipped;
    SkippedHit(bs, DISPOSED_BLOCK);
    MergesLastSkips(bs, k);
    assert k + 1 < |bs| ==> bs[k..][1..] == bs[k + 1..] && bs[k..][2..] == bs[k + 1..][1..];
  }

  lemma SkippedMerge(bs: seq<Block>, k: nat)
    requires k == Skipped(bs, DISPOSED_BLOCK)
    ensures k <= |bs| && MergePass(bs) == bs[..k] + MergePass(bs[k..])
    ensures k < |bs| ==> bs[k].Free?
  {
    hide MergePass;
    SkippedHit(bs, DISPOSED_BLOCK);
    MergeSkips(bs, k);
  }

  /** A merge pass on a chain that begins with a disposed block. */
  lemma MergeFront(rest: seq<Block>)
    requires rest != [] ==> rest[0].Free?
    ensures |rest| < 2 ==> MergePass(rest) == rest
    ensures |rest| >= 2 && rest[1].Free? ==> MergePass(rest) == [Merged(rest[0], rest[1])] + MergePass(rest[2..])
    ensures |rest| >= 2 && rest[1].Object? ==> MergePass(rest) == [rest[0]] + MergePass(rest[1..])
  {
    hide Merged;
    if |rest| == 1 {
      assert rest == [rest[0]] + [];
    }
  }

  lemma SliceCut2(bs: seq<Block>, k: nat)
    requires k <= |bs|
    ensures bs == bs[..k] + bs[k..]
    ensures k + 1 < |bs| ==> bs[k..][1..] == bs[k + 1..] && bs[k..][2..] == bs[k + 1..][1..]
    ensures k + 1 < |bs| ==> bs[k..][0] == bs[k] && bs[k..][1] == bs[k + 1]
  {
  }

  /** The search for an id may go on at block k. */
  ghost predicate NoneBefore(bs: seq<Block>, k: nat, id: u16) {
    k <= |bs| && Find(bs, id) == k + Find(bs[k..], id)
  }

  lemma NoneBeforeStart(bs: seq<Block>, id: u16)
    ensures NoneBefore(bs, 0, id)
  {
    assert bs[0..] == bs;
  }

  lemma NoneBeforeSkipped(bs: seq<Block>, k: nat, id: u16)
    requires NoneBefore(bs, k, id)
    ensures NoneBefore(bs, k + Skipped(bs[k..], OBJECT_BLOCK), id)
  {
    hide Find;
    var j := Skipped(bs[k..], OBJECT_BLOCK);
    FindSkips(bs[k..], id);
    SliceSkip(bs, k, j);
  }

  lemma NoneBeforeNext(bs: seq<Block>, k: nat, id: u16)
    requires NoneBefore(bs, k, id) && (k < |bs| ==> bs[k].Object? && bs[k].id != id)
    ensures NoneBefore(bs, Min(k + 1, |bs|), id)
  {
    if k < |bs| {
      assert bs[k..][1..] == bs[k + 1..];
    }
  }

  lemma FoundHere(bs: seq<Block>, k: nat, id: u16)
    requires NoneBefore(bs, k, id) && (k < |bs| ==> bs[k].Object? && bs[k].id == id)
    ensures Find(bs, id) == k
  {
  }

  lemma {:induction false} FindSkips(bs: seq<Block>, id: u16)
    ensures Find(bs, id) == Skipped(bs, OBJECT_BLOCK) + Find(bs[Skipped(bs, OBJECT_BLOCK)..], id)
  {
    if bs != [] && bs[0].Free? {
      FindSkips(bs[1..], id);
      var k := Skipped(bs[1..], OBJECT_BLOCK);
      assert bs[1..][k..] == bs[k + 1..];
    }
  }

  lemma {:induction false} SkippedHit(bs: seq<Block>, tag: byte)
    ensures Skipped(bs, tag) < |bs| ==> Tag(bs[Skipped(bs, tag)]) == tag
    ensures forall j :: 0 <= j < Skipped(bs, tag) ==> Tag(bs[j]) != tag
  {
    if bs != [] && Tag(bs[0]) != tag {
      SkippedHit(bs[1..], tag);
    }
  }

  lemma SliceSkip(bs: seq<Block>, k: nat, j: nat)
    requires k + j <= |bs|
    ensures bs[..k] + bs[k..][..j] == bs[..k + j] && bs[k..][j..] == bs[k + j..]
  {
  }

  lemma EncodeEmpty(bs: seq<Block>)
    ensures |Encode(bs)| == 0 <==> bs == []
  {
  }

  lemma SliceStep(pre: seq<Block>, post: seq<Block>, k: nat)
    requires k < |post|
    ensures pre + post[..k] + [post[k..][0]] == pre + post[..k + 1]
    ensures post[k..][1..] == post[k + 1..]
  {
  }
}
