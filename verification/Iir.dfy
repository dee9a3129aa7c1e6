/** The low-pass filters: sixth-order recursions with integer coefficients and rounding. */
module Iir {

  /** History values carry 17 binary digits behind the point. */
  const SCALE := 131072

  const ORDER: nat := 6

  datatype FilterParams = FilterParams(b: seq<int>, a: seq<int>, downsample: nat, maxDerivative: nat)

  const BESSEL_SLOW := FilterParams(
    [34, 202, 506, 675, 506, 202, 34],
    [131072, -449749, 672637, -556881, 267670, -70519, 7929], 2, 20773)

  const BESSEL_FAST := FilterParams(
    [77, 460, 1149, 1531, 1149, 460, 77],
    [131072, -394137, 530035, -401475, 178825, -44094, 4677], 2, 24599)

  const BESSEL_BY_FOUR := FilterParams(
    [3, 18, 46, 61, 46, 18, 3],
    [131072, -569338, 1045651, -1037968, 586655, -178824, 22947], 4, 13073)

  function FilterDefinition(idx: nat): FilterParams {
    if idx == 1 then BESSEL_FAST else if idx == 2 then BESSEL_BY_FOUR else BESSEL_SLOW
  }

  predicate Known(p: FilterParams) {
    p == BESSEL_SLOW || p == BESSEL_FAST || p == BESSEL_BY_FOUR
  }

  type History = h: seq<int> | |h| == ORDER + 1 witness [0, 0, 0, 0, 0, 0, 0]

  /** Newest values first. */
  datatype FilterState = FilterState(xs: History, ys: History)

  function Same(x: int): FilterState {
    FilterState([x, x, x, x, x, x, x], [x, x, x, x, x, x, x])
  }

  /** Products from index `from` to n. */
  function Dot(c: seq<int>, v: seq<int>, from: nat, n: nat): int
    requires from <= n <= |c| && n <= |v|
  {
    if n == from then 0 else Dot(c, v, from, n - 1) + c[n - 1] * v[n - 1]
  }

  function Output(p: FilterParams, xs: History, ys: History): int
    requires Known(p)
  {
    Dot(p.b, xs, 0, ORDER + 1) - Dot(p.a, ys, 1, ORDER + 1)
  }

  /** Division by the scale, rounded to the nearest. */
  function Round(x: int): int {
    (x + SCALE / 2) / SCALE
  }

  function Abs(x: int): int {
    if x < 0 then -x else x
  }

  /** The history moved by one position, with room for the new output. */
  function Shifted(s: FilterState, x: int): FilterState {
    FilterState([x] + s.xs[..ORDER], [s.ys[0]] + s.ys[..ORDER])
  }

  /** A new input. A fast rise of the output counts as a step: the history then forgets the past. */
  function Next(p: FilterParams, threshold: nat, s: FilterState, x: int): (r: (FilterState, bool))
    requires Known(p)
  {
    var t := Shifted(s, x);
    var y := Round(Output(p, t.xs, t.ys));
    if Abs(y - s.ys[0]) >= threshold * p.maxDerivative then (Same(x), true)
    else (t.(ys := t.ys[0 := y]), false)
  }

  // ---------- an offset passes through exactly ----------

  function Offset(v: seq<int>, k: int): (r: seq<int>)
    ensures |r| == |v| && forall i :: 0 <= i < |v| ==> r[i] == v[i] + k
  {
    seq(|v|, i requires 0 <= i < |v| => v[i] + k)
  }

  function OffsetState(s: FilterState, k: int): FilterState {
    FilterState(Offset(s.xs, k), Offset(s.ys, k))
  }

  function Sum(c: seq<int>, from: nat, n: nat): int
    requires from <= n <= |c|
  {
    if n == from then 0 else Sum(c, from, n - 1) + c[n - 1]
  }

  lemma Distribute(a: int, b: int, k: int)
    ensures a * (b + k) == a * b + a * k
    ensures (a + b) * k == a * k + b * k
    ensures (-a) * k == -(a * k)
  {
  }

  lemma {:induction false} DotOffset(c: seq<int>, v: seq<int>, k: int, from: nat, n: nat)
    requires from <= n <= |c| && n <= |v|
    ensures Dot(c, Offset(v, k), from, n) == Dot(c, v, from, n) + Sum(c, from, n) * k
  {
    if from < n {
      DotOffset(c, v, k, from, n - 1);
      Distribute(c[n - 1], v[n - 1], k);
      Distribute(Sum(c, from, n - 1), c[n - 1], k);
    }
  }

  /** The coefficients of every filter balance: a constant input is reproduced without loss. */
  lemma Balanced(p: FilterParams)
    requires Known(p)
    ensures Sum(p.b, 0, ORDER + 1) - Sum(p.a, 1, ORDER + 1) == SCALE
  {
    SumOf(p.b);
    SumOf(p.a);
    hide Sum;
  }

  lemma SumOf(c: seq<int>)
    requires |c| == 7
    ensures Sum(c, 1, 7) == c[1] + c[2] + c[3] + c[4] + c[5] + c[6]
    ensures Sum(c, 0, 7) == c[0] + c[1] + c[2] + c[3] + c[4] + c[5] + c[6]
  {
    assert Sum(c, 1, 2) == c[1] && Sum(c, 0, 1) == c[0];
    assert Sum(c, 1, 4) == Sum(c, 1, 2) + c[2] + c[3];
    assert Sum(c, 1, 6) == Sum(c, 1, 4) + c[4] + c[5];
    assert Sum(c, 0, 3) == Sum(c, 0, 1) + c[1] + c[2];
    assert Sum(c, 0, 5) == Sum(c, 0, 3) + c[3] + c[4];
  }

  lemma RoundOffset(x: int, k: int)
    ensures Round(x + SCALE * k) == Round(x) + k
  {
    assert (x + SCALE * k + SCALE / 2) / SCALE == (x + SCALE / 2) / SCALE + k;
  }

  lemma OutputOffset(p: FilterParams, xs: History, ys: History, k: int)
    requires Known(p)
    ensures Round(Output(p, Offset(xs, k), Offset(ys, k))) == Round(Output(p, xs, ys)) + k
  {
    hide Dot, Sum, Round, Known, Offset;
    KnownSizes(p);
    DotOffset(p.b, xs, k, 0, ORDER + 1);
    DotOffset(p.a, ys, k, 1, ORDER + 1);
    Balanced(p);
    Distribute(Sum(p.b, 0, ORDER + 1), -Sum(p.a, 1, ORDER + 1), k);
    Distribute(Sum(p.a, 1, ORDER + 1), 0, k);
    RoundOffset(Output(p, xs, ys), k);
  }

  lemma KnownSizes(p: FilterParams)
    requires Known(p)
    ensures |p.a| == |p.b| == ORDER + 1
  {
  }

  /** An offset of all inputs is an offset of all outputs, exactly and in spite of rounding and of the
      detection of steps. */
  lemma OffsetPasses(p: FilterParams, threshold: nat, s: FilterState, x: int, k: int)
    requires Known(p)
    ensures var r := Next(p, threshold, s, x);
      Next(p, threshold, OffsetState(s, k), x + k) == (OffsetState(r.0, k), r.1)
  {
    hide Output, Round, Known;
    var t, u := Shifted(s, x), Shifted(OffsetState(s, k), x + k);
    assert u == OffsetState(t, k);
    OutputOffset(p, t.xs, t.ys, k);
    assert Same(x + k) == OffsetState(Same(x), k);
    var y := Round(Output(p, t.xs, t.ys));
    assert Offset(t.ys, k)[0 := y + k] == Offset(t.ys[0 := y], k);
  }

  /** At rest a filter stays at rest. */
  lemma AtRest(p: FilterParams, threshold: nat, x: int)
    requires Known(p)
    ensures Next(p, threshold, Same(x), x).0 == Same(x)
  {
    hide Next;
    ZeroRests(p, threshold);
    OffsetPasses(p, threshold, Same(0), 0, x);
    assert OffsetState(Same(0), x) == Same(x);
  }

  lemma ZeroRests(p: FilterParams, threshold: nat)
    requires Known(p)
    ensures Next(p, threshold, Same(0), 0).0 == Same(0)
  {
    hide Known, Dot;
    KnownSizes(p);
    var t := Shifted(Same(0), 0);
    DotZero(p.b, t.xs, 0, ORDER + 1);
    DotZero(p.a, t.ys, 1, ORDER + 1);
  }

  lemma {:induction false} DotZero(c: seq<int>, v: seq<int>, from: nat, n: nat)
    requires from <= n <= |c| && n <= |v| && forall i :: 0 <= i < n ==> v[i] == 0
    ensures Dot(c, v, from, n) == 0
  {
    if from < n {
      DotZero(c, v, from, n - 1);
    }
  }

  // ---------- no overflow ----------

  /** Inputs of 24 bits and their sign, shifted by 17. */
  const LARGEST := 0x100_0000_0000

  predicate Small(v: seq<int>) {
    forall i :: 0 <= i < |v| ==> -LARGEST <= v[i] <= LARGEST
  }

  function AbsSum(c: seq<int>, from: nat, n: nat): nat
    requires from <= n <= |c|
  {
    if n == from then 0 else AbsSum(c, from, n - 1) + Abs(c[n - 1])
  }

  lemma ProductBound(a: int, b: int)
    requires -LARGEST <= b <= LARGEST
    ensures 0 - Abs(a) * LARGEST <= a * b <= Abs(a) * LARGEST
  {
    if a >= 0 {
      Between(a, b);
    } else {
      Between(-a, b);
      Distribute(a, 0, b);
    }
  }

  lemma Between(a: nat, b: int)
    requires -LARGEST <= b <= LARGEST
    ensures 0 - a * LARGEST <= a * b <= a * LARGEST
  {
    Distribute(a, b, LARGEST - b);
    Distribute(a, b, -LARGEST - b);
    assert a * (LARGEST - b) >= 0;
    assert a * (b + LARGEST) >= 0;
    Distribute(a, b, LARGEST);
  }

  lemma {:induction false} DotBound(c: seq<int>, v: seq<int>, from: nat, n: nat)
    requires from <= n <= |c| && n <= |v| && Small(v)
    ensures 0 - AbsSum(c, from, n) * LARGEST <= Dot(c, v, from, n) <= AbsSum(c, from, n) * LARGEST
  {
    if from < n {
      DotBound(c, v, from, n - 1);
      ProductBound(c[n - 1], v[n - 1]);
    }
  }

  lemma {:induction false} AbsSumGrows(c: seq<int>, from: nat, n: nat, m: nat)
    requires from <= n <= m <= |c|
    ensures AbsSum(c, from, n) <= AbsSum(c, from, m)
  {
    if n < m {
      AbsSumGrows(c, from, n, m - 1);
    }
  }

  lemma AbsSumOf(c: seq<int>)
    requires |c| == 7
    ensures AbsSum(c, 1, 7) == Abs(c[1]) + Abs(c[2]) + Abs(c[3]) + Abs(c[4]) + Abs(c[5]) + Abs(c[6])
    ensures AbsSum(c, 0, 7) == Abs(c[0]) + AbsSum(c, 1, 7)
  {
    hide Abs;
    assert AbsSum(c, 1, 2) == Abs(c[1]) && AbsSum(c, 0, 1) == Abs(c[0]);
    assert AbsSum(c, 1, 4) == AbsSum(c, 1, 2) + Abs(c[2]) + Abs(c[3]);
    assert AbsSum(c, 0, 2) == Abs(c[0]) + Abs(c[1]);
    assert AbsSum(c, 0, 4) == AbsSum(c, 0, 2) + Abs(c[2]) + Abs(c[3]);
    assert AbsSum(c, 1, 6) == AbsSum(c, 1, 4) + Abs(c[4]) + Abs(c[5]);
    assert AbsSum(c, 0, 6) == AbsSum(c, 0, 4) + Abs(c[4]) + Abs(c[5]);
  }

  lemma CoefficientsSmall(p: FilterParams)
    requires Known(p)
    ensures |p.a| == |p.b| == 7 && AbsSum(p.b, 0, 7) <= 4903 && AbsSum(p.a, 1, 7) <= 3441383
  {
    AbsSumOf(p.b);
    AbsSumOf(p.a);
    hide AbsSum;
  }

  /** Every partial sum of a small history fits in 64 bits, with two bits to spare. */
  lemma PartialSumsFit(p: FilterParams, xs: History, ys: History, n: nat, m: nat)
    requires Known(p) && Small(xs) && Small(ys) && n <= ORDER + 1 && 1 <= m <= ORDER + 1
    ensures |p.a| == |p.b| == 7
    ensures -0x4000_0000_0000_0000 < Dot(p.b, xs, 0, n) - Dot(p.a, ys, 1, m) < 0x4000_0000_0000_0000
  {
    hide Known, Small, Dot, AbsSum;
    CoefficientsSmall(p);
    AbsSumGrows(p.b, 0, n, 7);
    AbsSumGrows(p.a, 1, m, 7);
    DotBound(p.b, xs, 0, n);
    DotBound(p.a, ys, 1, m);
  }
}
