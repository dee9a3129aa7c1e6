/** Bytes, little-endian 16-bit fields and in-place overwriting of a stretch of bytes. */
module Bytes {

  type byte = x: int | 0 <= x < 0x100
  type u16 = x: int | 0 <= x < 0x10000

  /** The two bytes that `put(uint16_t)` streams: low byte first. */
  function U16(n: nat): seq<byte> {
    [n % 0x100, n / 0x100 % 0x100]
  }

  function FromU16(lo: byte, hi: byte): u16 {
    lo + 0x100 * hi
  }

  lemma U16RoundTrip(n: u16)
    ensures FromU16(U16(n)[0], U16(n)[1]) == n
  {
  }

  lemma BytesOfU16(lo: byte, hi: byte)
    ensures U16(FromU16(lo, hi)) == [lo, hi]
  {
  }

  function Min(a: int, b: int): int {
    if a <= b then a else b
  }

  function Max(a: int, b: int): int {
    if a >= b then a else b
  }

  /** `s` with the bytes from `at` on overwritten by `t`. */
  function Splice(s: seq<byte>, at: nat, t: seq<byte>): (r: seq<byte>)
    requires at + |t| <= |s|
    ensures |r| == |s|
  {
    s[..at] + t + s[at + |t|..]
  }

  /** Overwriting inside the middle part of a concatenation touches only that part. */
  lemma SpliceInside(s: seq<byte>, pre: seq<byte>, mid: seq<byte>, post: seq<byte>, at: nat, t: seq<byte>)
    requires s == pre + mid + post && at + |t| <= |mid|
    ensures |pre| + at + |t| <= |s|
    ensures Splice(s, |pre| + at, t) == pre + Splice(mid, at, t) + post
  {
    assert s[..|pre| + at] == pre + mid[..at];
    assert s[|pre| + at + |t|..] == mid[at + |t|..] + post;
  }

  lemma Regroup(head: seq<byte>, a: seq<byte>, b: seq<byte>, c: seq<byte>)
    ensures head + (a + b + c) == head + a + b + c
  {
  }

  /** Reading inside the middle part of a concatenation. */
  lemma ReadMiddle(pre: seq<byte>, mid: seq<byte>, post: seq<byte>)
    ensures forall j :: 0 <= j < |mid| ==> (pre + mid + post)[|pre| + j] == mid[j]
    ensures (pre + mid + post)[|pre|..|pre| + |mid|] == mid
  {
  }

  /** Two adjacent overwrites are one. */
  lemma SpliceTwice(s: seq<byte>, at: nat, t: seq<byte>, u: seq<byte>)
    requires at + |t| + |u| <= |s|
    ensures Splice(Splice(s, at, t), at + |t|, u) == Splice(s, at, t + u)
  {
  }
}
