/** The 32-bit millisecond clock and its arithmetic, which wraps. */
module Ticks {

  const RANGE := 0x1_0000_0000

  type u32 = x: int | 0 <= x < RANGE

  /** What a 32-bit variable holds of a number. */
  function Wrap(t: int): u32 {
    t % RANGE
  }

  function Minus(a: u32, b: u32): u32 {
    Wrap(a - b)
  }

  function Plus(a: u32, b: u32): u32 {
    Wrap(a + b)
  }

  /** Differences and sums of wrapped numbers are those of the numbers, wrapped. */
  lemma WrapIsHomomorphic(a: int, b: int)
    ensures Minus(Wrap(a), Wrap(b)) == Wrap(a - b)
    ensures Plus(Wrap(a), Wrap(b)) == Wrap(a + b)
  {
    Shifted(Wrap(a) - Wrap(b), a / RANGE - b / RANGE);
    Shifted(Wrap(a) + Wrap(b), a / RANGE + b / RANGE);
  }

  /** Whole rounds of the clock do not show. */
  lemma Shifted(x: int, rounds: int)
    ensures Wrap(x + rounds * RANGE) == Wrap(x)
  {
    assert x + rounds * RANGE == (x / RANGE + rounds) * RANGE + x % RANGE;
  }

  lemma SmallStays(a: int)
    requires 0 <= a < RANGE
    ensures Wrap(a) == a
  {
  }

  /** The clock can make a duration look shorter, never longer. */
  lemma ElapsedAtMost(t: nat, s: nat)
    requires s <= t
    ensures Minus(Wrap(t), Wrap(s)) <= t - s
    ensures t - s < RANGE ==> Minus(Wrap(t), Wrap(s)) == t - s
  {
    WrapIsHomomorphic(t, s);
  }

  lemma Telescopes(a: u32, b: u32, c: u32)
    ensures Plus(Minus(a, b), Minus(b, c)) == Minus(a, c)
  {
    WrapIsHomomorphic(a - b, b - c);
  }

  lemma MinusSelf(a: u32)
    ensures Minus(a, a) == 0
  {
  }
}
