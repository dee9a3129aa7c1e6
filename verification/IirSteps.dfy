/** How the filters answer a jump of their input, and when they notice it as a step. */
module IirSteps {
  import opened Iir
  import opened Products

  /** The filter after n equal inputs, and whether the last of them was noticed as a step. */
  function Jump(p: FilterParams, threshold: nat, s: FilterState, x: int, n: nat): (FilterState, bool)
    requires Known(p)
  {
    if n == 0 then (s, false) else Next(p, threshold, Jump(p, threshold, s, x, n - 1).0, x)
  }

  lemma {:induction false} JumpOffset(p: FilterParams, threshold: nat, s: FilterState, x: int, n: nat, k: int)
    requires Known(p)
    ensures var r := Jump(p, threshold, s, x, n);
      Jump(p, threshold, OffsetState(s, k), x + k, n) == (OffsetState(r.0, k), r.1)
  {
    hide Next, Known, OffsetState;
    if n > 0 {
      JumpOffset(p, threshold, s, x, n - 1, k);
      OffsetPasses(p, threshold, Jump(p, threshold, s, x, n - 1).0, x, k);
    }
  }

  /** From rest at 0, k inputs of 1 have answered with these outputs, newest first. */
  function Rising(k: nat, ys: seq<int>): FilterState {
    FilterState(seq(7, i requires 0 <= i < 7 => if i < k then SCALE else 0),
                seq(7, i requires 0 <= i < 7 => if i < |ys| then ys[i] else 0))
  }

  lemma DotOf(c: seq<int>, v: seq<int>)
    requires |c| == |v| == 7
    ensures Dot(c, v, 1, 7) == c[1] * v[1] + c[2] * v[2] + c[3] * v[3] + c[4] * v[4] + c[5] * v[5] + c[6] * v[6]
    ensures Dot(c, v, 0, 7) == c[0] * v[0] + Dot(c, v, 1, 7)
  {
    assert Dot(c, v, 1, 2) == c[1] * v[1] && Dot(c, v, 0, 1) == c[0] * v[0];
    assert Dot(c, v, 1, 4) == Dot(c, v, 1, 2) + c[2] * v[2] + c[3] * v[3];
    assert Dot(c, v, 0, 2) == c[0] * v[0] + c[1] * v[1];
    assert Dot(c, v, 0, 4) == Dot(c, v, 0, 2) + c[2] * v[2] + c[3] * v[3];
    assert Dot(c, v, 1, 6) == Dot(c, v, 1, 4) + c[4] * v[4] + c[5] * v[5];
    assert Dot(c, v, 0, 6) == Dot(c, v, 0, 4) + c[4] * v[4] + c[5] * v[5];
  }

  // ---------- the first answer ----------

  lemma RoundExact(x: int)
    ensures Round(x * SCALE) == x
  {
  }

  lemma OneOfSeven(c: seq<int>, v: seq<int>)
    requires |c| == |v| == 7 && forall i :: 1 <= i < 7 ==> v[i] == 0
    ensures Dot(c, v, 0, 7) == c[0] * v[0] && Dot(c, v, 1, 7) == 0
  {
    DotOf(c, v);
  }

  /** The first answer to a jump is fast enough for a step, up or down. */
  predicate NoticedAtOnce(p: FilterParams, threshold: nat, x: int)
    requires Known(p)
  {
    KnownSizes(p);
    p.b[0] * x >= threshold * p.maxDerivative || -(p.b[0] * x) >= threshold * p.maxDerivative
  }

  /** From rest at 0, the first output is the first coefficient times the input. */
  lemma FirstOutput(p: FilterParams, threshold: nat, x: int)
    requires Known(p)
    ensures |p.b| > 0
    ensures var r := Next(p, threshold, Same(0), x * SCALE);
      && (r.1 <==> NoticedAtOnce(p, threshold, x))
      && (if r.1 then r.0 == Same(x * SCALE) else r.0.ys[0] == p.b[0] * x && r.0.ys[1] == 0)
  {
    hide Dot, Known, Round;
    KnownSizes(p);
    var t := Shifted(Same(0), x * SCALE);
    OneOfSeven(p.b, t.xs);
    OneOfSeven(p.a, t.ys);
    Associate(p.b[0], x, SCALE);
    RoundExact(p.b[0] * x);
  }

  /** The next output. */
  function Answer(p: FilterParams, k: nat, ys: seq<int>): int
    requires Known(p)
  {
    KnownSizes(p);
    var f := Rising(k + 1, [0] + ys);
    Round(Dot(p.b, f.xs, 0, 7) - Dot(p.a, f.ys, 1, 7))
  }

  /** The earlier output, 0 before the jump. */
  function Earlier(ys: seq<int>, i: nat): int {
    if i < |ys| then ys[i] else 0
  }

  lemma AnswerIs(p: FilterParams, k: nat, ys: seq<int>)
    requires Known(p)
    ensures |p.a| == |p.b| == 7
    ensures var (b, a) := (p.b, p.a);
      Answer(p, k, ys) == Round(
        SCALE * (b[0] + (if k > 0 then b[1] else 0) + (if k > 1 then b[2] else 0) + (if k > 2 then b[3] else 0)
                 + (if k > 3 then b[4] else 0) + (if k > 4 then b[5] else 0) + if k > 5 then b[6] else 0)
        - a[1] * Earlier(ys, 0) - a[2] * Earlier(ys, 1) - a[3] * Earlier(ys, 2) - a[4] * Earlier(ys, 3)
        - a[5] * Earlier(ys, 4) - a[6] * Earlier(ys, 5))
  {
    hide Dot, Round, Known;
    KnownSizes(p);
    var f := Rising(k + 1, [0] + ys);
    DotOf(p.b, f.xs);
    DotOf(p.a, f.ys);
  }

  /** One more input of 1. */
  lemma Rises(p: FilterParams, threshold: nat, k: nat, ys: seq<int>)
    requires Known(p) && k == |ys|
    ensures Next(p, threshold, Rising(k, ys), SCALE)
            == if Abs(Answer(p, k, ys) - Earlier(ys, 0)) < threshold * p.maxDerivative
               then (Rising(k + 1, [Answer(p, k, ys)] + ys), false) else (Same(SCALE), true)
  {
    hide Dot, Round, Known;
    KnownSizes(p);
    var t, f, y := Shifted(Rising(k, ys), SCALE), Rising(k + 1, [0] + ys), Answer(p, k, ys);
    assert t.xs == f.xs && t.ys[0 := 0] == f.ys;
    DotOf(p.b, t.xs);
    DotOf(p.a, t.ys);
    DotOf(p.b, f.xs);
    DotOf(p.a, f.ys);
    assert t.ys[0 := y] == Rising(k + 1, [y] + ys).ys;
  }

  /** The first n outputs, newest first. */
  function Newest(outs: seq<int>, n: nat): (ys: seq<int>)
    requires n <= |outs|
    ensures |ys| == n && forall i :: 0 <= i < n ==> ys[i] == outs[n - 1 - i]
  {
    if n == 0 then [] else [outs[n - 1]] + Newest(outs, n - 1)
  }

  /** These are the first outputs on inputs of 1. */
  predicate Answers(p: FilterParams, outs: seq<int>)
    requires Known(p)
  {
    forall n :: 0 <= n < |outs| ==> Answer(p, n, Newest(outs, n)) == outs[n]
  }

  /** The n-th change of the output. */
  function Slope(outs: seq<int>, n: nat): int
    requires n < |outs|
  {
    outs[n] - if n == 0 then 0 else outs[n - 1]
  }

  lemma {:induction false} JumpRises(p: FilterParams, threshold: nat, outs: seq<int>, n: nat)
    requires Known(p) && Answers(p, outs) && n <= |outs|
    requires forall i :: 0 <= i < n ==> Abs(Slope(outs, i)) < threshold * p.maxDerivative
    ensures Jump(p, threshold, Same(0), SCALE, n) == (Rising(n, Newest(outs, n)), false)
  {
    hide Known, Answer;
    if n > 0 {
      JumpRises(p, threshold, outs, n - 1);
      assert Abs(Slope(outs, n - 1)) < threshold * p.maxDerivative;
      Rises(p, threshold, n - 1, Newest(outs, n - 1));
    } else {
      assert Same(0) == Rising(0, []);
    }
  }

  const SLOW_RISE: seq<int> := [34, 353, 1779, 5854, 14311, 28045, 46375, 67148]

  const FAST_RISE: seq<int> := [77, 769, 3687, 11430, 26077, 47289, 71887, 95332]

  const BY_FOUR_RISE: seq<int> := [3, 34, 191, 710, 1990, 4536, 8836, 15225, 23786, 34315, 46352, 59260, 72327, 84868]

  lemma SlowAnswers()
    ensures Answers(BESSEL_SLOW, SLOW_RISE)
  {
    hide Answer, Newest;
    AnswerIs(BESSEL_SLOW, 0, Newest(SLOW_RISE, 0));
    AnswerIs(BESSEL_SLOW, 1, Newest(SLOW_RISE, 1));
    AnswerIs(BESSEL_SLOW, 2, Newest(SLOW_RISE, 2));
    AnswerIs(BESSEL_SLOW, 3, Newest(SLOW_RISE, 3));
    AnswerIs(BESSEL_SLOW, 4, Newest(SLOW_RISE, 4));
    AnswerIs(BESSEL_SLOW, 5, Newest(SLOW_RISE, 5));
    AnswerIs(BESSEL_SLOW, 6, Newest(SLOW_RISE, 6));
    AnswerIs(BESSEL_SLOW, 7, Newest(SLOW_RISE, 7));
  }

  lemma FastAnswers()
    ensures Answers(BESSEL_FAST, FAST_RISE)
  {
    hide Answer, Newest;
    AnswerIs(BESSEL_FAST, 0, Newest(FAST_RISE, 0));
    AnswerIs(BESSEL_FAST, 1, Newest(FAST_RISE, 1));
    AnswerIs(BESSEL_FAST, 2, Newest(FAST_RISE, 2));
    AnswerIs(BESSEL_FAST, 3, Newest(FAST_RISE, 3));
    AnswerIs(BESSEL_FAST, 4, Newest(FAST_RISE, 4));
    AnswerIs(BESSEL_FAST, 5, Newest(FAST_RISE, 5));
    AnswerIs(BESSEL_FAST, 6, Newest(FAST_RISE, 6));
    AnswerIs(BESSEL_FAST, 7, Newest(FAST_RISE, 7));
  }

  lemma ByFourAnswers()
    ensures Answers(BESSEL_BY_FOUR, BY_FOUR_RISE)
  {
    hide Answer, Newest;
    AnswerIs(BESSEL_BY_FOUR, 0, Newest(BY_FOUR_RISE, 0));
    AnswerIs(BESSEL_BY_FOUR, 1, Newest(BY_FOUR_RISE, 1));
    AnswerIs(BESSEL_BY_FOUR, 2, Newest(BY_FOUR_RISE, 2));
    AnswerIs(BESSEL_BY_FOUR, 3, Newest(BY_FOUR_RISE, 3));
    AnswerIs(BESSEL_BY_FOUR, 4, Newest(BY_FOUR_RISE, 4));
    AnswerIs(BESSEL_BY_FOUR, 5, Newest(BY_FOUR_RISE, 5));
    AnswerIs(BESSEL_BY_FOUR, 6, Newest(BY_FOUR_RISE, 6));
    AnswerIs(BESSEL_BY_FOUR, 7, Newest(BY_FOUR_RISE, 7));
    AnswerIs(BESSEL_BY_FOUR, 8, Newest(BY_FOUR_RISE, 8));
    AnswerIs(BESSEL_BY_FOUR, 9, Newest(BY_FOUR_RISE, 9));
    AnswerIs(BESSEL_BY_FOUR, 10, Newest(BY_FOUR_RISE, 10));
    AnswerIs(BESSEL_BY_FOUR, 11, Newest(BY_FOUR_RISE, 11));
    AnswerIs(BESSEL_BY_FOUR, 12, Newest(BY_FOUR_RISE, 12));
    AnswerIs(BESSEL_BY_FOUR, 13, Newest(BY_FOUR_RISE, 13));
  }

  function RiseOf(p: FilterParams): seq<int>
    requires Known(p)
  {
    if p == BESSEL_SLOW then SLOW_RISE else if p == BESSEL_FAST then FAST_RISE else BY_FOUR_RISE
  }

  /** From rest, on an input of 1, no output up to the steepest rises by more than the largest derivative of the
      filter, and the steepest falls short of it by at most six units in the last place. */
  lemma SteepestRise(p: FilterParams)
    requires Known(p)
    ensures Answers(p, RiseOf(p))
    ensures forall n :: 0 <= n < |RiseOf(p)| ==> 0 < Slope(RiseOf(p), n) <= p.maxDerivative
    ensures exists n :: 0 <= n < |RiseOf(p)| && p.maxDerivative - 6 <= Slope(RiseOf(p), n)
    ensures forall n :: 0 <= n < |RiseOf(p)| ==>
      (Slope(RiseOf(p), n) == p.maxDerivative <==> p == BESSEL_SLOW && n == 7)
  {
    hide Answers;
    SlowAnswers();
    FastAnswers();
    ByFourAnswers();
    assert Slope(SLOW_RISE, 7) == 20773 && Slope(FAST_RISE, 6) == 24598 && Slope(BY_FOUR_RISE, 12) == 13067;
  }

  /** From rest at any value, with a step threshold of 1: a jump by 1 is noticed by the first filter, with the eighth
      input, when it forgets the past. The other two filters do not notice it up to the steepest rise. */
  lemma JumpIsNoticed(p: FilterParams, v: int, n: nat)
    requires Known(p) && n <= |RiseOf(p)|
    ensures Jump(p, 1, Same(v * SCALE), (v + 1) * SCALE, n).1 <==> p == BESSEL_SLOW && n == 8
    ensures p == BESSEL_SLOW ==> Jump(p, 1, Same(v * SCALE), (v + 1) * SCALE, 8).0 == Same((v + 1) * SCALE)
  {
    hide Known, Answers, Next, Jump, RiseOf, Slope, OffsetState;
    JumpFromZero(p, n);
    JumpOffset(p, 1, Same(0), SCALE, n, v * SCALE);
    SameOffset(0, v * SCALE);
    SameOffset(SCALE, v * SCALE);
    SlowNotices();
    JumpOffset(p, 1, Same(0), SCALE, 8, v * SCALE);
  }

  lemma SameOffset(x: int, k: int)
    ensures OffsetState(Same(x), k) == Same(x + k)
  {
  }

  lemma JumpNext(p: FilterParams, threshold: nat, s: FilterState, x: int, n: nat)
    requires Known(p) && n > 0
    ensures Jump(p, threshold, s, x, n) == Next(p, threshold, Jump(p, threshold, s, x, n - 1).0, x)
  {
  }

  /** Before the steepest rise nothing is noticed. */
  lemma NotYet(p: FilterParams, n: nat)
    requires Known(p) && n <= |RiseOf(p)| && (p == BESSEL_SLOW ==> n <= 7)
    ensures Jump(p, 1, Same(0), SCALE, n) == (Rising(n, Newest(RiseOf(p), n)), false)
  {
    hide Known, Answers, Answer, Jump, RiseOf, Slope, Newest;
    SteepestRise(p);
    forall i | 0 <= i < n ensures Abs(Slope(RiseOf(p), i)) < 1 * p.maxDerivative {
      assert Slope(RiseOf(p), i) != p.maxDerivative;
    }
    JumpRises(p, 1, RiseOf(p), n);
  }

  lemma SlowNotices()
    ensures |RiseOf(BESSEL_SLOW)| == 8 && Jump(BESSEL_SLOW, 1, Same(0), SCALE, 8) == (Same(SCALE), true)
  {
    hide Answer, Jump, Newest;
    NotYet(BESSEL_SLOW, 7);
    JumpNext(BESSEL_SLOW, 1, Same(0), SCALE, 8);
    SlowAnswers();
    Rises(BESSEL_SLOW, 1, 7, Newest(SLOW_RISE, 7));
  }

  lemma JumpFromZero(p: FilterParams, n: nat)
    requires Known(p) && n <= |RiseOf(p)|
    ensures Jump(p, 1, Same(0), SCALE, n).1 <==> p == BESSEL_SLOW && n == 8
  {
    hide Known, Jump, Newest;
    SlowNotices();
    if p != BESSEL_SLOW || n < 8 {
      NotYet(p, n);
    }
  }
}
