/**
 The addresses on a 1-Wire bus as a binary trie: paths, branches, the order of a depth-first walk
 and the branch at which the next walk turns (Maxim Application Note 187, 1-Wire Search Algorithm).
 */
module RomOrder {

  /** A 64-bit address, least significant bit first. */
  type Rom = r: seq<bool> | |r| == 64 witness seq(64, _ => false)

  /** Some address starts with this path. */
  ghost predicate Live(roms: seq<Rom>, path: seq<bool>) {
    exists k :: 0 <= k < |roms| && path <= roms[k]
  }

  /** At bit i the addresses that share the path of `r` branch, and `r` took the zero. */
  ghost predicate Turn(roms: seq<Rom>, r: Rom, i: nat) {
    i < 64 && !r[i] && Live(roms, r[..i] + [true])
  }

  /** The last turn among the first n bits; 64 when there is none. */
  ghost predicate LastTurn(roms: seq<Rom>, r: Rom, n: nat, last: nat) {
    && n <= 64
    && (last == 64 || (last < n && Turn(roms, r, last)))
    && forall i :: 0 <= i < n && Turn(roms, r, i) ==> last != 64 && i <= last
  }

  /** The direction in which a walk goes at a branch: along the previous address up to its last
      turn and inside the locked bits, then one at the turn itself, then zero. */
  function Prefers(previous: Rom, lastTurn: nat, locked: nat, i: nat): bool
    requires i < 64
  {
    if i < lastTurn || i < locked then previous[i] else i == lastTurn
  }

  /** The first n bits of `r` are where a walk goes. */
  ghost predicate Walked(roms: seq<Rom>, previous: Rom, lastTurn: nat, locked: nat, r: seq<bool>, n: nat) {
    && n <= |r| <= 64
    && forall i :: 0 <= i < n ==> WalkedAt(roms, previous, lastTurn, locked, r, i)
  }

  ghost predicate WalkedAt(roms: seq<Rom>, previous: Rom, lastTurn: nat, locked: nat, r: seq<bool>, i: nat)
    requires i < |r| <= 64
  {
    && Live(roms, r[..i] + [r[i]])
    && (Live(roms, r[..i] + [!r[i]]) ==> r[i] == Prefers(previous, lastTurn, locked, i))
  }

  // ---------- order ----------

  /** The first bit in which two addresses differ. */
  function Differs(a: Rom, b: Rom, from: nat): (k: nat)
    requires from <= 64 && a[..from] == b[..from]
    ensures from <= k <= 64 && a[..k] == b[..k]
    ensures k < 64 ==> a[k] != b[k]
    ensures k == 64 <==> a == b
    decreases 64 - from
  {
    if from == 64 || a[from] != b[from] then from
    else
      assert a[..from + 1] == b[..from + 1];
      Differs(a, b, from + 1)
  }

  /** Lexicographic order from the least significant bit on. */
  predicate Less(a: Rom, b: Rom) {
    var k := Differs(a, b, 0);
    k < 64 && !a[k] && b[k]
  }

  lemma SamePrefix(a: Rom, b: Rom, k: nat)
    requires k <= 64 && a[..k] == b[..k]
    ensures forall i :: 0 <= i < k ==> a[i] == b[i]
  {
    forall i | 0 <= i < k ensures a[i] == b[i] {
      assert a[..k][i] == b[..k][i];
    }
  }

  lemma LessAt(a: Rom, b: Rom, k: nat)
    requires k < 64 && a[..k] == b[..k] && a[k] != b[k]
    ensures Less(a, b) <==> b[k]
    ensures Differs(a, b, 0) == k
  {
    var d := Differs(a, b, 0);
    SamePrefix(a, b, k);
    SamePrefix(a, b, d);
  }

  lemma Trichotomy(a: Rom, b: Rom)
    ensures a == b || Less(a, b) || Less(b, a)
    ensures !(Less(a, b) && Less(b, a)) && (a == b ==> !Less(a, b))
  {
    var k := Differs(a, b, 0);
    if k < 64 {
      LessAt(a, b, k);
      LessAt(b, a, k);
    }
  }

  lemma LessTransitive(a: Rom, b: Rom, c: Rom)
    requires Less(a, b) && Less(b, c)
    ensures Less(a, c)
  {
    var k, m := Differs(a, b, 0), Differs(b, c, 0);
    var n := if k < m then k else m;
    assert a[..n] == a[..k][..n] == b[..n] == b[..m][..n] == c[..n];
    if k < m {
      assert b[..m][k] == c[..m][k];
    } else if m < k {
      assert a[..k][m] == b[..k][m];
    }
    LessAt(a, c, n);
  }

  ghost predicate Ascending(order: seq<Rom>) {
    forall i, j :: 0 <= i < j < |order| ==> Less(order[i], order[j])
  }

  /** `order` lists, in ascending order, the addresses that start with `family`. */
  ghost predicate Lists(order: seq<Rom>, roms: seq<Rom>, family: seq<bool>) {
    && Ascending(order)
    && forall r: Rom :: r in order <==> r in roms && family <= r
  }

  // ---------- where a walk leads ----------

  lemma LiveBy(roms: seq<Rom>, r: Rom, i: nat)
    requires r in roms && i < 64
    ensures Live(roms, r[..i] + [r[i]])
  {
    var k :| 0 <= k < |roms| && roms[k] == r;
    assert r[..i] + [r[i]] == r[..i + 1] <= roms[k];
  }

  lemma WalkEnds(roms: seq<Rom>, previous: Rom, lastTurn: nat, locked: nat, r: Rom)
    requires Walked(roms, previous, lastTurn, locked, r, 64)
    ensures r in roms
  {
    assert WalkedAt(roms, previous, lastTurn, locked, r, 63);
    assert r[..63] + [r[63]] == r;
    var k :| 0 <= k < |roms| && r <= roms[k];
    assert r == roms[k];
  }

  /** A walk follows a live path as long as it prefers it. */
  lemma {:induction false} WalkFollows(roms: seq<Rom>, previous: Rom, lastTurn: nat, locked: nat, r: Rom, guide: Rom,
      n: nat)
    requires Walked(roms, previous, lastTurn, locked, r, 64) && guide in roms && n <= 64
    requires forall i :: 0 <= i < n ==> Prefers(previous, lastTurn, locked, i) == guide[i]
    ensures r[..n] == guide[..n]
  {
    if n > 0 {
      WalkFollows(roms, previous, lastTurn, locked, r, guide, n - 1);
      LiveBy(roms, guide, n - 1);
      assert WalkedAt(roms, previous, lastTurn, locked, r, n - 1);
      assert r[..n] == r[..n - 1] + [r[n - 1]] && guide[..n] == guide[..n - 1] + [guide[n - 1]];
    }
  }

  /** Where a walk prefers zeros, no other address with the same start comes before its result. */
  lemma WalkIsLeast(roms: seq<Rom>, previous: Rom, lastTurn: nat, locked: nat, r: Rom, other: Rom, n: nat)
    requires Walked(roms, previous, lastTurn, locked, r, 64) && other in roms && n <= 64
    requires forall i :: n <= i < 64 ==> !Prefers(previous, lastTurn, locked, i)
    requires r[..n] == other[..n]
    ensures r == other || Less(r, other)
  {
    var k := Differs(r, other, n);
    if k < 64 {
      assert WalkedAt(roms, previous, lastTurn, locked, r, k);
      LiveBy(roms, other, k);
      assert other[k] == !r[k];
      LessAt(r, other, k);
    }
  }

  /** The first walk finds the least address of the group that it ends in. */
  lemma FirstWalk(roms: seq<Rom>, start: Rom, locked: nat, r: Rom, order: seq<Rom>)
    requires Walked(roms, start, 64, locked, r, 64) && locked <= 64
    requires forall i :: locked <= i < 64 ==> !start[i]
    requires Lists(order, roms, r[..locked])
    ensures order != [] && r == order[0]
  {
    WalkEnds(roms, start, 64, locked, r);
    assert r[..locked] <= r;
    assert r in order;
    var first := order[0];
    assert first in order && r[..locked] <= first;
    assert r[..locked] == first[..locked];
    WalkIsLeast(roms, start, 64, locked, r, first, locked);
    Trichotomy(r, first);
    var k :| 0 <= k < |order| && order[k] == r;
  }

  /** A walk that turns at the last turn of an address finds the next address in order. */
  lemma NextWalk(roms: seq<Rom>, previous: Rom, lastTurn: nat, locked: nat, r: Rom, order: seq<Rom>, k: nat)
    requires Walked(roms, previous, lastTurn, locked, r, 64) && locked <= lastTurn < 64
    requires LastTurn(roms, previous, 64, lastTurn)
    requires k < |order| && order[k] == previous && Lists(order, roms, previous[..locked])
    ensures k + 1 < |order| && order[k + 1] == r
  {
    assert previous in order;
    WalkEnds(roms, previous, lastTurn, locked, r);
    WalkFollows(roms, previous, lastTurn, locked, r, previous, lastTurn);
    assert WalkedAt(roms, previous, lastTurn, locked, r, lastTurn);
    LiveBy(roms, previous, lastTurn);
    assert r[..lastTurn] == previous[..lastTurn] && r[lastTurn];
    LessAt(previous, r, lastTurn);
    assert r[..locked] == r[..lastTurn][..locked] == previous[..lastTurn][..locked] == previous[..locked];
    assert previous[..locked] <= r;
    var m :| 0 <= m < |order| && order[m] == r;
    if m <= k {
      Trichotomy(previous, r);
    }
    if m > k + 1 {
      NoneBetween(roms, previous, lastTurn, locked, r, order[k + 1]);
      assert order[k + 1] in order;
      Trichotomy(order[k + 1], r);
    }
  }

  lemma NoneBetween(roms: seq<Rom>, previous: Rom, lastTurn: nat, locked: nat, r: Rom, other: Rom)
    requires Walked(roms, previous, lastTurn, locked, r, 64) && locked <= lastTurn < 64
    requires LastTurn(roms, previous, 64, lastTurn)
    requires r[..lastTurn] == previous[..lastTurn] && r[lastTurn]
    requires other in roms && Less(previous, other)
    ensures other == r || Less(r, other)
  {
    var j := Differs(previous, other, 0);
    LiveBy(roms, other, j);
    assert Turn(roms, previous, j);
    if j < lastTurn {
      assert r[..j] == r[..lastTurn][..j] == previous[..lastTurn][..j] == other[..j];
      assert r[..lastTurn][j] == previous[..lastTurn][j];
      LessAt(r, other, j);
    } else {
      assert r[..lastTurn + 1] == r[..lastTurn] + [true] == other[..lastTurn] + [true] == other[..lastTurn + 1];
      WalkIsLeast(roms, previous, lastTurn, locked, r, other, lastTurn + 1);
    }
  }

  /** An address is the last of its family exactly when it has no turn behind the locked bits. */
  lemma LastOfFamily(roms: seq<Rom>, r: Rom, lastTurn: nat, locked: nat, order: seq<Rom>, k: nat)
    requires LastTurn(roms, r, 64, lastTurn) && locked <= 64
    requires k < |order| && order[k] == r && Lists(order, roms, r[..locked])
    ensures lastTurn <= 64
    ensures k + 1 == |order| <==> lastTurn == 64 || lastTurn < locked
  {
    if k + 1 < |order| {
      var b := order[k + 1];
      assert b in order && r[..locked] <= b;
      var j := Differs(r, b, 0);
      assert b[..locked] == r[..locked];
      SamePrefix(r, b, locked);
      LiveBy(roms, b, j);
      assert Turn(roms, r, j);
    } else if locked <= lastTurn < 64 {
      var m :| 0 <= m < |roms| && r[..lastTurn] + [true] <= roms[m];
      var b := roms[m];
      assert b[..lastTurn] == r[..lastTurn] && b[lastTurn];
      assert b[..locked] == b[..lastTurn][..locked] == r[..lastTurn][..locked] == r[..locked];
      assert r[..locked] <= b;
      assert b in order;
      LessAt(r, b, lastTurn);
      var n :| 0 <= n < |order| && order[n] == b;
      Trichotomy(r, b);
    }
  }

  // ---------- one step of a walk ----------

  lemma LiveBranches(roms: seq<Rom>, path: seq<bool>)
    requires |path| < 64 && Live(roms, path)
    ensures Live(roms, path + [true]) || Live(roms, path + [false])
  {
    var k :| 0 <= k < |roms| && path <= roms[k];
    if roms[k][|path|] {
      assert path + [true] <= roms[k];
    } else {
      assert path + [false] <= roms[k];
    }
  }

  /** The first bits decide where a walk has been. */
  lemma SameStart(roms: seq<Rom>, previous: Rom, lastTurn: nat, locked: nat, r: Rom, s: Rom, n: nat, last: nat)
    requires n <= 64 && r[..n] == s[..n]
    requires Walked(roms, previous, lastTurn, locked, r, n) && LastTurn(roms, r, n, last)
    ensures Walked(roms, previous, lastTurn, locked, s, n) && LastTurn(roms, s, n, last)
  {
    SamePrefix(r, s, n);
    forall i | 0 <= i < n
      ensures WalkedAt(roms, previous, lastTurn, locked, s, i) && (Turn(roms, s, i) <==> Turn(roms, r, i))
    {
      assert r[..i] == r[..n][..i] == s[..n][..i] == s[..i];
      assert WalkedAt(roms, previous, lastTurn, locked, r, i);
    }
  }

  /** Taking the forced or preferred bit continues the walk, and remembers a zero at a branch. */
  lemma WalkStep(roms: seq<Rom>, previous: Rom, lastTurn: nat, locked: nat, r: Rom, i: nat, direction: bool, last: nat)
    requires i < 64 && Walked(roms, previous, lastTurn, locked, r, i) && LastTurn(roms, r, i, last)
      && Live(roms, r[..i])
    requires direction == if Live(roms, r[..i] + [true]) && Live(roms, r[..i] + [false])
                          then Prefers(previous, lastTurn, locked, i) else Live(roms, r[..i] + [true])
    ensures var s := r[i := direction];
      && s[..i + 1] == r[..i] + [direction] && Live(roms, s[..i + 1])
      && Walked(roms, previous, lastTurn, locked, s, i + 1)
      && var both := Live(roms, r[..i] + [true]) && Live(roms, r[..i] + [false]);
         LastTurn(roms, s, i + 1, if both && !direction then i else last)
  {
    var s := r[i := direction];
    assert s[..i] == r[..i] && s[..i + 1] == r[..i] + [direction];
    LiveBranches(roms, r[..i]);
    SameStart(roms, previous, lastTurn, locked, r, s, i, last);
    assert WalkedAt(roms, previous, lastTurn, locked, s, i);
    assert Turn(roms, s, i) <==> !direction && Live(roms, r[..i] + [true]);
  }

  // ---------- every group has its list ----------

  /** The place of an address in an ascending list. */
  function Rank(order: seq<Rom>, r: Rom): (k: nat)
    ensures k <= |order|
  {
    if order == [] || !Less(order[0], r) then 0 else 1 + Rank(order[1..], r)
  }

  lemma {:induction false} RankSplits(order: seq<Rom>, r: Rom)
    requires Ascending(order) && r !in order
    ensures var k := Rank(order, r);
      && (forall i :: 0 <= i < k ==> Less(order[i], r))
      && (forall i :: k <= i < |order| ==> Less(r, order[i]))
  {
    if order != [] {
      var rest := order[1..];
      assert forall i, j :: 0 <= i < j < |rest| ==> rest[i] == order[i + 1] && rest[j] == order[j + 1];
      if Less(order[0], r) {
        RankSplits(rest, r);
        assert forall i :: 1 <= i < |order| ==> order[i] == rest[i - 1];
      } else {
        Trichotomy(order[0], r);
        forall i | 0 <= i < |order| ensures Less(r, order[i]) {
          if i > 0 {
            LessTransitive(r, order[0], order[i]);
          }
        }
      }
    }
  }

  ghost function Insert(order: seq<Rom>, r: Rom): seq<Rom> {
    var k := Rank(order, r);
    order[..k] + [r] + order[k..]
  }

  lemma InsertKeepsOrder(order: seq<Rom>, r: Rom)
    requires Ascending(order) && r !in order
    ensures Ascending(Insert(order, r))
    ensures forall a: Rom :: a in Insert(order, r) <==> a in order || a == r
  {
    hide Less, Rank;
    var k, s := Rank(order, r), Insert(order, r);
    RankSplits(order, r);
    assert forall i :: 0 <= i < k ==> s[i] == order[i];
    assert forall i :: k < i < |s| ==> s[i] == order[i - 1];
    assert s[k] == r;
    forall a: Rom ensures a in s <==> a in order || a == r {
      if a in order {
        var i :| 0 <= i < |order| && order[i] == a;
        assert s[if i < k then i else i + 1] == a;
      }
    }
  }

  lemma {:induction false} ListOf(roms: seq<Rom>, family: seq<bool>) returns (order: seq<Rom>)
    ensures Lists(order, roms, family)
  {
    if roms == [] {
      order := [];
    } else {
      var rest, r := roms[1..], roms[0];
      order := ListOf(rest, family);
      assert forall a: Rom :: a in roms <==> a == r || a in rest;
      if family <= r && r !in order {
        InsertKeepsOrder(order, r);
        order := Insert(order, r);
      }
    }
  }

  /** There is only one list of a group: enumeration has one right answer. */
  lemma ListIsUnique(a: seq<Rom>, b: seq<Rom>, roms: seq<Rom>, family: seq<bool>)
    requires Lists(a, roms, family) && Lists(b, roms, family)
    ensures a == b
  {
    SameMembers(a, b);
  }

  lemma {:induction false} SameMembers(a: seq<Rom>, b: seq<Rom>)
    requires Ascending(a) && Ascending(b) && forall r: Rom :: r in a <==> r in b
    ensures a == b
  {
    hide Less;
    if a != [] {
      SomeMember(b, a);
      SameHead(a, b);
      var x, y := a[1..], b[1..];
      TailAscends(a);
      TailAscends(b);
      forall r: Rom ensures r in x <==> r in y {
        NotFirst(a, r);
        NotFirst(b, r);
      }
      SameMembers(x, y);
      assert a == [a[0]] + x && b == [b[0]] + y;
    } else if b != [] {
      SomeMember(a, b);
    }
  }

  lemma SomeMember(a: seq<Rom>, b: seq<Rom>)
    requires b != [] && forall r: Rom :: r in a <==> r in b
    ensures a != []
  {
    assert b[0] in b;
  }

  lemma SameHead(a: seq<Rom>, b: seq<Rom>)
    requires Ascending(a) && Ascending(b) && forall r: Rom :: r in a <==> r in b
    requires a != [] && b != []
    ensures a[0] == b[0]
  {
    hide Less;
    assert a[0] in b && b[0] in a;
    var i :| 0 <= i < |b| && b[i] == a[0];
    var j :| 0 <= j < |a| && a[j] == b[0];
    Trichotomy(a[0], b[0]);
  }

  lemma TailAscends(a: seq<Rom>)
    requires Ascending(a) && a != []
    ensures Ascending(a[1..])
  {
    hide Less;
    var x := a[1..];
    assert forall i, j :: 0 <= i < j < |x| ==> x[i] == a[i + 1] && x[j] == a[j + 1];
  }

  lemma NotFirst(a: seq<Rom>, r: Rom)
    requires Ascending(a) && a != []
    ensures r in a[1..] <==> r in a && r != a[0]
  {
    hide Less;
    Trichotomy(a[0], a[0]);
  }
}
