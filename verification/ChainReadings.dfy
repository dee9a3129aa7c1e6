/** What is read from a chain of filters while inputs arrive. */
module ChainReadings {
  import opened Products
  import opened Iir
  import opened IirSteps
  import opened FilterChains

  // ---------- interpolation ----------

  lemma DivGrows(x: nat, y: nat, n: nat)
    requires n > 0 && x <= y
    ensures 0 <= x / n <= y / n
  {
    DivBounds(x, n);
    DivBounds(y, n);
    Cancel(x / n, y / n + 1, n);
  }

  lemma TruncGrows(x: int, y: int, n: nat)
    requires n > 0 && x <= y
    ensures TruncDiv(x, n) <= TruncDiv(y, n)
  {
    if x >= 0 {
      DivGrows(x, y, n);
    } else if y < 0 {
      DivGrows(-y, -x, n);
    } else {
      DivGrows(0, -x, n);
      DivGrows(0, y, n);
    }
  }

  lemma TruncExact(a: int, n: nat)
    requires n > 0
    ensures TruncDiv(a * n, n) == a
  {
    TruncBetween(a * n, a, a, n);
  }

  /** A smoothed value starts at the previous value, ends at the latest one, and moves only towards that. */
  lemma InterpolatedMoves(latest: int, previous: int, elapsed: nat, later: nat, period: nat)
    requires elapsed <= later <= period && period > 0
    ensures Interpolated(latest, previous, 0, period) == previous
    ensures Interpolated(latest, previous, period, period) == latest
    ensures var before, after := Interpolated(latest, previous, elapsed, period),
                                 Interpolated(latest, previous, later, period);
      if previous <= latest then before <= after <= latest else latest <= after <= before
  {
    hide TruncDiv;
    TruncExact(previous, period);
    TruncExact(latest, period);
    InterpolatedBetween(latest, previous, later, period);
    var x, y := latest * elapsed + previous * (period - elapsed), latest * later + previous * (period - later);
    Weights(latest, previous, elapsed, later, period);
    if previous <= latest {
      Signs(latest - previous, later - elapsed);
      TruncGrows(x, y, period);
    } else {
      Signs(previous - latest, later - elapsed);
      Difference(-(latest - previous), 0, later - elapsed);
      TruncGrows(y, x, period);
    }
  }

  lemma Weights(latest: int, previous: int, elapsed: int, later: int, period: int)
    ensures latest * later + previous * (period - later) - (latest * elapsed + previous * (period - elapsed))
            == (latest - previous) * (later - elapsed)
  {
  }

  /** Rounding is towards zero: values of opposite sign are smoothed alike. */
  lemma InterpolatedIsOdd(latest: int, previous: int, elapsed: nat, period: nat)
    requires elapsed <= period && period > 0
    ensures Interpolated(-latest, -previous, elapsed, period) == -Interpolated(latest, previous, elapsed, period)
  {
    Signs(latest, elapsed);
    Signs(previous, period - elapsed);
    TruncIsOdd(latest * elapsed + previous * (period - elapsed), period);
  }

  lemma TruncIsOdd(x: int, n: nat)
    requires n > 0
    ensures TruncDiv(-x, n) == -TruncDiv(x, n)
  {
    if x == 0 {
      TruncExact(0, n);
    }
  }

  // ---------- one input ----------

  /** What an input does to a stage: it gets a value when its period is full, and is left alone otherwise. */
  lemma {:induction false} FeedsWith(stages: seq<Stage>, k: nat, counter: nat, x: int, i: nat) returns (y: int)
    requires k <= i < |stages| && WellMade(stages) && (counter + 1) % Period(stages, k) == 0
    ensures Feed(stages, k, counter, x)[i]
            == if (counter + 1) % Period(stages, i) == 0 then Fed(stages[i], y) else stages[i]
    ensures i == k ==> y == x
    decreases |stages| - k
  {
    hide Next, Known, Period, Fed;
    y := x;
    FedKeeps(stages, k, x);
    var s, period := Fed(stages[k], x), Period(stages, k + 1);
    var more := stages[k := s];
    LastOfPeriod(counter, period);
    if counter % period == period - 1 {
      forall m | 0 <= m <= |stages| ensures Period(more, m) == Period(stages, m) {
        SamePeriod(stages, more, m);
      }
      FeedReaches(more, k + 1, counter, s.filter.ys[0]);
      if i > k {
        y := FeedsWith(more, k + 1, counter, s.filter.ys[0], i);
      }
    } else if i > k {
      PeriodDivides(stages, k + 1, i);
      if (counter + 1) % Period(stages, i) == 0 {
        MultipleOf(counter + 1, Period(stages, i), period);
      }
    }
  }

  lemma FedKeeps(stages: seq<Stage>, k: nat, x: int)
    requires k < |stages| && WellMade(stages)
    ensures SameStages(stages, stages[k := Fed(stages[k], x)]) && WellMade(stages[k := Fed(stages[k], x)])
  {
    hide Next, Known;
  }

  /** A filter keeps its outputs, moved by one, or forgets the past. */
  lemma OutputsMove(p: FilterParams, threshold: nat, s: FilterState, x: int)
    requires Known(p)
    ensures var r := Next(p, threshold, s, x);
      if r.1 then r.0 == Same(x) else r.0.ys[1] == s.ys[0] && r.0.ys[2] == s.ys[1] && r.0.xs[0] == x
  {
    hide Output, Round, Known;
  }

  /** A stage in which all outputs are equal, as after a step. */
  predicate Flat(s: Stage) {
    s.filter.ys[0] == s.filter.ys[1] == s.filter.ys[2]
  }

  /** Where in its period a stage is after an input. */
  lemma CounterAt(c: Chain, val: int, k: nat)
    requires WellMade(c.stages) && k <= |c.stages| && c.counter < Period(c.stages, |c.stages|)
    ensures AddTo(c, val).counter % Period(c.stages, k) == (c.counter + 1) % Period(c.stages, k)
  {
    hide Feed, Period, Known;
    var full := Period(c.stages, |c.stages|);
    if c.counter + 1 == full {
      PeriodDivides(c.stages, k, |c.stages|);
      ModIs(0, Period(c.stages, k), 0, 0);
    }
  }

  /** The next reading lies between the reading and the aim. */
  predicate Towards(reading: int, next: int, aim: int) {
    if reading <= aim then reading <= next <= aim else aim <= next <= reading
  }

  /** The smoothed reading goes on without a jump: when a stage gets an input, it starts from what the stage read
      before that, unless the input is noticed as a step. Between inputs it only moves towards the latest value, which
      does not change. The same holds for the derivative. */
  lemma ReadingGoesOn(c: Chain, val: int, k: nat)
    requires WellMade(c.stages) && k < |c.stages| && c.counter < Period(c.stages, |c.stages|)
    ensures WellMade(AddTo(c, val).stages) && |AddTo(c, val).stages| == |c.stages|
    ensures (c.counter + 1) % Period(c.stages, k) == 0 ==>
      var d := AddTo(c, val);
      if Flat(d.stages[k]) then ReadFrom(d, k, true) == ReadFrom(d, k, false) && DerivativeFrom(d, k, true) == 0
      else ReadFrom(d, k, true) == ReadFrom(c, k, false) && DerivativeFrom(d, k, true) == DerivativeFrom(c, k, false)
    ensures (c.counter + 1) % Period(c.stages, k) != 0 ==>
      var d := AddTo(c, val);
      && Towards(ReadFrom(c, k, true), ReadFrom(d, k, true), ReadFrom(c, k, false))
      && Towards(DerivativeFrom(c, k, true), DerivativeFrom(d, k, true), DerivativeFrom(c, k, false))
      && ReadFrom(d, k, false) == ReadFrom(c, k, false) && DerivativeFrom(d, k, false) == DerivativeFrom(c, k, false)
  {
    hide Feed, Period, Known, Next, Interpolated, TruncDiv, Round, Fed, ReadFrom, DerivativeFrom;
    var d, period := AddTo(c, val), Period(c.stages, k);
    FeedKeeps(c, val);
    SamePeriod(c.stages, d.stages, k);
    CounterAt(c, val, k);
    PeriodZero(c.stages);
    var y := FeedsWith(c.stages, 0, c.counter, val * SCALE, k);
    if (c.counter + 1) % period == 0 {
      ReadingStarts(c, d, k, y);
    } else {
      CounterWraps(c.counter, period);
      ReadingMoves(c, d, k);
    }
  }

  lemma ReadingStarts(c: Chain, d: Chain, k: nat, y: int)
    requires WellMade(c.stages) && WellMade(d.stages) && k < |c.stages| == |d.stages|
    requires Period(d.stages, k) == Period(c.stages, k) && d.counter % Period(c.stages, k) == 0
    requires d.stages[k] == Fed(c.stages[k], y)
    ensures if Flat(d.stages[k]) then ReadFrom(d, k, true) == ReadFrom(d, k, false) && DerivativeFrom(d, k, true) == 0
      else ReadFrom(d, k, true) == ReadFrom(c, k, false) && DerivativeFrom(d, k, true) == DerivativeFrom(c, k, false)
  {
    hide Period, Known, Next, Interpolated, TruncDiv, Round;
    var s, was, period := d.stages[k].filter.ys, c.stages[k], Period(c.stages, k);
    OutputsMove(was.params, was.threshold, was.filter, y);
    TruncExact(0, period);
    InterpolatedMoves(Round(s[0]), Round(s[1]), 0, 0, period);
    InterpolatedMoves(TruncDiv(s[0] - s[1], period), TruncDiv(s[1] - s[2], period), 0, 0, period);
  }

  lemma ReadingMoves(c: Chain, d: Chain, k: nat)
    requires WellMade(c.stages) && WellMade(d.stages) && k < |c.stages| == |d.stages|
    requires Period(d.stages, k) == Period(c.stages, k) && d.stages[k] == c.stages[k]
    requires d.counter % Period(c.stages, k) == c.counter % Period(c.stages, k) + 1
    ensures Towards(ReadFrom(c, k, true), ReadFrom(d, k, true), ReadFrom(c, k, false))
    ensures Towards(DerivativeFrom(c, k, true), DerivativeFrom(d, k, true), DerivativeFrom(c, k, false))
    ensures ReadFrom(d, k, false) == ReadFrom(c, k, false) && DerivativeFrom(d, k, false) == DerivativeFrom(c, k, false)
  {
    hide Period, Known, Interpolated, TruncDiv, Round;
    var s, period, elapsed := c.stages[k].filter.ys, Period(c.stages, k), c.counter % Period(c.stages, k);
    var latest, previous := TruncDiv(s[0] - s[1], period), TruncDiv(s[1] - s[2], period);
    InterpolatedMoves(Round(s[0]), Round(s[1]), elapsed, elapsed + 1, period);
    InterpolatedBetween(Round(s[0]), Round(s[1]), elapsed, period);
    InterpolatedMoves(latest, previous, elapsed, elapsed + 1, period);
    InterpolatedBetween(latest, previous, elapsed, period);
  }

  // ---------- the first answer ----------

  /** A settled chain answers a first other input at once: with the first coefficient of its first filter, which it then
      shows as its derivative, or with the input itself when that is far enough away, up or down, to count as a step. */
  lemma FirstAnswer(c: Chain, val: int, more: int)
    requires WellMade(c.stages) && c.stages != [] && Settled(c.stages, val)
    ensures WellMade(AddTo(c, val + more).stages) && |AddTo(c, val + more).stages| == |c.stages|
    ensures var p, d := c.stages[0].params, AddTo(c, val + more);
      |p.b| > 0 &&
      if NoticedAtOnce(p, c.stages[0].threshold, more) then
        ReadFrom(d, 0, false) == val + more && DerivativeFrom(d, 0, false) == 0
      else
        ReadFrom(d, 0, false) == val + Round(p.b[0] * more) && DerivativeFrom(d, 0, false) == p.b[0] * more
  {
    hide Feed, Known, Next, TruncDiv, Round, OffsetState, Period;
    var s, d, k := c.stages[0], AddTo(c, val + more), val * SCALE;
    FeedKeeps(c, val + more);
    PeriodZero(c.stages);
    PeriodZero(d.stages);
    var _ := FeedsWith(c.stages, 0, c.counter, (val + more) * SCALE, 0);
    FirstOutput(s.params, s.threshold, more);
    OffsetPasses(s.params, s.threshold, Same(0), more * SCALE, k);
    SameOffset(0, k);
    var r := Next(s.params, s.threshold, Same(0), more * SCALE).0;
    OffsetOutputs(r, k);
    RoundOffset(r.ys[0], val);
    TruncExact(s.params.b[0] * more, 1);
    TruncExact(0, 1);
    RoundExact(val + more);
  }

  lemma OffsetOutputs(s: FilterState, k: int)
    ensures OffsetState(s, k).ys[0] == s.ys[0] + k && OffsetState(s, k).ys[1] == s.ys[1] + k
  {
  }
}
