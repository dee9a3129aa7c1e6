/** The filter object: two histories that each new input moves on. */
module IirFilters {
  import opened Iir
  import opened Products

  type i64 = x: int | -0x8000_0000_0000_0000 <= x < 0x8000_0000_0000_0000

  /** A value with this many binary digits behind the point, in history scale. */
  function Scaled(val: int, fractionBits: nat): int
    requires fractionBits <= 17
  {
    val * Power(17 - fractionBits)
  }

  const SIGN := 0x8000_0000_0000_0000

  /** The left shift of a 64-bit number that keeps the sign bit aside, in two's complement. */
  function Shift(val: int, n: nat): int {
    WithSign(if val < 0 then (val + SIGN) * Power(n) else val * Power(n), val < 0)
  }

  /** The lower 64 bits of a number with the sign bit added, read as a signed number. */
  function WithSign(shifted: int, negative: bool): int {
    var low := shifted % (2 * SIGN);
    var word := if negative && low < SIGN then low + SIGN else low;
    if word < SIGN then word else word - 2 * SIGN
  }

  /** The plain left shift of a 64-bit number: a product of which the lower 64 bits are kept. */
  function PlainShift(val: int, n: nat): int {
    WithSign(val * Power(n), false)
  }

  /** The two agree exactly for values that are not negative and for those whose plain shift is negative too. */
  lemma ShiftIsPlain(val: i64, n: nat)
    ensures Shift(val, n) == PlainShift(val, n) <==> val >= 0 || PlainShift(val, n) < 0
  {
    if val < 0 {
      if n == 0 {
        assert Power(0) == 1;
      } else {
        var half := Power(n - 1);
        assert Power(n) == 2 * half;
        hide WithSign, Power;
        Difference(-SIGN, val, Power(n));
        SameLow(val * Power(n), half);
      }
      SignAdded((val + SIGN) * Power(n), val * Power(n), n);
    }
  }

  lemma SameLow(x: int, k: int)
    ensures (x + k * (2 * SIGN)) % (2 * SIGN) == x % (2 * SIGN)
  {
  }

  /** A sign bit that is added makes a difference exactly when it was not there. */
  lemma SignAdded(x: int, y: int, n: nat)
    requires x % (2 * SIGN) == y % (2 * SIGN) || (n == 0 && x == y + SIGN && -SIGN <= y < 0)
    ensures WithSign(x, true) == WithSign(y, false) <==> WithSign(y, false) < 0
  {
  }

  /** It is a multiplication as long as the product fits in 64 bits. */
  lemma ShiftIsScaled(val: int, fractionBits: nat)
    requires fractionBits <= 17 && -SIGN <= Scaled(val, fractionBits) < SIGN
    ensures Shift(val, 17 - fractionBits) == Scaled(val, fractionBits)
  {
    var p := Power(17 - fractionBits);
    Signs(val, p);
    Signs(-val, p);
    GrowsAtLeast(val, p);
    hide Power;
    FitsAsIs(val * p);
    ShiftIsPlain(val, 17 - fractionBits);
  }

  lemma GrowsAtLeast(val: int, p: nat)
    requires p > 0
    ensures val >= 0 ==> val <= val * p
    ensures val < 0 ==> val * p <= val
  {
    if val >= 0 {
      Grow(1, p, val);
    } else {
      Grow(1, p, -val);
    }
    Commute(val, p);
    Signs(val, p);
    Commute(-val, p);
  }

  lemma FitsAsIs(x: int)
    requires -SIGN <= x < SIGN
    ensures WithSign(x, false) == x
  {
  }

  lemma SmallFits(x: int)
    requires Small([x])
    ensures -SIGN <= x < SIGN
  {
    assert [x][0] == x;
  }

  class IirFilter {
    const xv: array<int>
    const yv: array<int>
    var paramsIdx: nat
    var fastStepThreshold: nat
    /** How many inputs have arrived. */
    ghost var samples: nat

    ghost predicate Valid() {
      xv.Length == ORDER + 1 && yv.Length == ORDER + 1 && xv != yv
    }

    ghost function View(): FilterState
      requires Valid()
      reads xv, yv
    {
      FilterState(xv[..], yv[..])
    }

    /** All history values are small enough for 64-bit arithmetic. */
    ghost predicate InRange()
      requires Valid()
      reads xv, yv
    {
      Small(xv[..]) && Small(yv[..])
    }

    constructor (idx: nat, threshold: nat)
      ensures Valid() && fresh(xv) && fresh(yv) && View() == Same(0)
      ensures paramsIdx == idx && fastStepThreshold == threshold && samples == 0
    {
      xv, yv := new int[ORDER + 1](_ => 0), new int[ORDER + 1](_ => 0);
      paramsIdx, fastStepThreshold, samples := idx, threshold, 0;
    }

    /** A new input: one step of the recursion, in 64 bits. */
    method Add(val: int, fractionBits: nat) returns (step: bool)
      requires Valid() && fractionBits <= 17 && InRange() && Small([Scaled(val, fractionBits)])
      modifies this`samples, xv, yv
      ensures (View(), step)
              == Next(FilterDefinition(paramsIdx), fastStepThreshold, old(View()), Scaled(val, fractionBits))
      ensures samples == old(samples) + 1
    {
      hide Known, Dot, Round, Scaled, Shift;
      ghost var s, x := View(), Scaled(val, fractionBits);
      var p := FilterDefinition(paramsIdx);
      DefinitionKnown(paramsIdx);
      MoveHistory();
      SmallFits(x);
      ShiftIsScaled(val, fractionBits);
      xv[0] := Shift(val, 17 - fractionBits);
      assert xv[..] == Shifted(s, x).xs && yv[..] == Shifted(s, x).ys;
      ShiftedSmall(s, x);
      var output := Accumulate(p);
      yv[0] := Round(output);
      samples := samples + 1;
      var thresholdAtOutput := fastStepThreshold * p.maxDerivative;
      step := Abs(yv[0] - yv[1]) >= thresholdAtOutput;
      if step {
        ResetInternal(xv[0]);
      }
    }

    method MoveHistory()
      requires Valid()
      modifies xv, yv
      ensures forall i :: 1 <= i <= ORDER ==> xv[i] == old(xv[i - 1]) && yv[i] == old(yv[i - 1])
      ensures yv[0] == old(yv[0])
    {
      var i := ORDER;
      while i >= 1
        invariant 0 <= i <= ORDER
        invariant forall j :: 0 <= j <= i ==> xv[j] == old(xv[j]) && yv[j] == old(yv[j])
        invariant forall j :: i < j <= ORDER ==> xv[j] == old(xv[j - 1]) && yv[j] == old(yv[j - 1])
      {
        xv[i] := xv[i - 1];
        yv[i] := yv[i - 1];
        i := i - 1;
      }
    }

    /** The sum of products; no partial sum leaves 64 bits. */
    method Accumulate(p: FilterParams) returns (output: i64)
      requires Valid() && Known(p) && InRange()
      ensures output == Output(p, xv[..], yv[..])
    {
      hide Known, Small;
      ghost var xs, ys := View().xs, View().ys;
      KnownSizes(p);
      PartialSumsFit(p, xs, ys, 1, 1);
      DotOne(p.b, xs);
      output := p.b[0] * xv[0];
      var i := 1;
      while i <= ORDER
        invariant 1 <= i <= ORDER + 1 && output == Dot(p.b, xs, 0, i) - Dot(p.a, ys, 1, i)
      {
        PartialSumsFit(p, xs, ys, i + 1, i);
        PartialSumsFit(p, xs, ys, i + 1, i + 1);
        output := output + p.b[i] * xv[i];
        output := output - p.a[i] * yv[i];
        i := i + 1;
      }
    }

    method ResetInternal(value: int)
      requires Valid()
      modifies xv, yv
      ensures View() == Same(value)
    {
      for i := 0 to ORDER + 1
        invariant forall j :: 0 <= j < i ==> xv[j] == value && yv[j] == value
      {
        yv[i] := value;
        xv[i] := value;
      }
    }

    method Reset(value: int)
      requires Valid()
      modifies xv, yv
      ensures View() == Same(value * SCALE)
    {
      ResetInternal(value * SCALE);
    }

    function Read(): int
      requires Valid()
      reads yv
    {
      Round(yv[0])
    }

    function ReadPrevious(): int
      requires Valid()
      reads yv
    {
      Round(yv[1])
    }

    /** The change of the output, in history scale. */
    function ReadDerivative(): int
      requires Valid()
      reads yv
    {
      yv[0] - yv[1]
    }

    function ReadPreviousDerivative(): int
      requires Valid()
      reads yv
    {
      yv[1] - yv[2]
    }
  }

  lemma DefinitionKnown(idx: nat)
    ensures Known(FilterDefinition(idx))
  {
  }

  lemma ShiftedSmall(s: FilterState, x: int)
    requires Small(s.xs) && Small(s.ys) && Small([x])
    ensures Small(Shifted(s, x).xs) && Small(Shifted(s, x).ys)
  {
    assert [x][0] == x;
  }

  lemma DotOne(c: seq<int>, v: seq<int>)
    requires |c| >= 1 && |v| >= 1
    ensures Dot(c, v, 0, 1) == c[0] * v[0]
  {
  }
}
