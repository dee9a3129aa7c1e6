/** A chain of filters in which each filter passes on only some of its outputs. */
module FilterChains {
  import opened Products
  import opened Ticks
  import opened Iir
  import opened IirFilters

  /** One filter of the chain, and how many inputs it has had. */
  datatype Stage = Stage(params: FilterParams, threshold: nat, interval: nat, filter: FilterState, samples: nat)

  datatype Chain = Chain(stages: seq<Stage>, counter: nat)

  predicate WellMade(stages: seq<Stage>) {
    forall i :: 0 <= i < |stages| ==> Known(stages[i].params) && stages[i].interval > 0
  }

  /** After how many inputs of the chain the k-th stage gets one. */
  function Period(stages: seq<Stage>, k: nat): (n: nat)
    requires k <= |stages| && WellMade(stages)
    ensures n > 0
  {
    if k == 0 then 1
    else
      Signs(Period(stages, k - 1), stages[k - 1].interval);
      Period(stages, k - 1) * stages[k - 1].interval
  }

  function Fed(s: Stage, x: int): Stage
    requires Known(s.params)
  {
    s.(filter := Next(s.params, s.threshold, s.filter, x).0, samples := s.samples + 1)
  }

  /** An input for the stages from k on. A stage hands its output on when its period is full. */
  function Feed(stages: seq<Stage>, k: nat, counter: nat, x: int): (r: seq<Stage>)
    requires k <= |stages| && WellMade(stages)
    ensures |r| == |stages|
    decreases |stages| - k
  {
    if k == |stages| then stages
    else
      var s := Fed(stages[k], x);
      var period := Period(stages, k + 1);
      if counter % period != period - 1 then stages[k := s]
      else Feed(stages[k := s], k + 1, counter, s.filter.ys[0])
  }

  function AddTo(c: Chain, val: int): Chain
    requires WellMade(c.stages)
  {
    Chain(Feed(c.stages, 0, c.counter, val * SCALE),
          if c.counter + 1 == Period(c.stages, |c.stages|) then 0 else c.counter + 1)
  }

  /** Division that rounds towards zero. */
  function TruncDiv(a: int, n: nat): int
    requires n > 0
  {
    if a >= 0 then a / n else -(-a / n)
  }

  /** Between the previous and the latest value, in proportion to the elapsed part of the period. */
  function Interpolated(latest: int, previous: int, elapsed: nat, period: nat): int
    requires period > 0
  {
    TruncDiv(latest * elapsed + previous * (period - elapsed), period)
  }

  function ReadFrom(c: Chain, k: nat, smooth: bool): int
    requires WellMade(c.stages) && k < |c.stages|
  {
    var ys, period := c.stages[k].filter.ys, Period(c.stages, k);
    if smooth then Interpolated(Round(ys[0]), Round(ys[1]), c.counter % period, period) else Round(ys[0])
  }

  function DerivativeFrom(c: Chain, k: nat, smooth: bool): int
    requires WellMade(c.stages) && k < |c.stages|
  {
    var ys, period := c.stages[k].filter.ys, Period(c.stages, k);
    var latest, previous := TruncDiv(ys[0] - ys[1], period), TruncDiv(ys[1] - ys[2], period);
    if smooth then Interpolated(latest, previous, c.counter % period, period) else latest
  }

  // ---------- decimation ----------

  /** After n inputs, each stage has had one input for every full period. */
  ghost predicate OnSchedule(c: Chain, n: nat) {
    && WellMade(c.stages) && c.counter == n % Period(c.stages, |c.stages|)
    && forall k :: 0 <= k < |c.stages| ==> c.stages[k].samples == n / Period(c.stages, k)
  }

  /** Two chains with the same stages apart from what the filters hold. */
  ghost predicate SameStages(a: seq<Stage>, b: seq<Stage>) {
    |a| == |b| && forall i :: 0 <= i < |a| ==>
      a[i].params == b[i].params && a[i].threshold == b[i].threshold && a[i].interval == b[i].interval
  }

  lemma {:induction false} SamePeriod(a: seq<Stage>, b: seq<Stage>, k: nat)
    requires k <= |a| && SameStages(a, b) && WellMade(a)
    ensures WellMade(b) && Period(a, k) == Period(b, k)
  {
    if k > 0 {
      SamePeriod(a, b, k - 1);
    }
  }

  lemma {:induction false} PeriodDivides(stages: seq<Stage>, k: nat, m: nat)
    requires k <= m <= |stages| && WellMade(stages)
    ensures Period(stages, m) % Period(stages, k) == 0
  {
    if k < m {
      PeriodDivides(stages, k, m - 1);
      MultipleGrows(Period(stages, m - 1), stages[m - 1].interval, Period(stages, k));
    } else {
      ModIs(Period(stages, k), Period(stages, k), 1, 0);
    }
  }

  lemma ModIs(x: nat, n: nat, q: int, r: nat)
    requires n > 0 && x == q * n + r && r < n
    ensures x % n == r && x / n == q
  {
    Difference(-1, q, n);
    DivIs(x, n, q);
  }

  lemma MultipleGrows(a: nat, b: nat, n: nat)
    requires n > 0 && a % n == 0
    ensures (a * b) % n == 0
  {
    Signs(a, b);
    var q := a / n;
    assert a == q * n;
    Swap(q, n, b);
    ModIs(a * b, n, q * b, 0);
  }

  /** A multiple of a period is a multiple of every shorter one. */
  lemma MultipleOf(x: nat, m: nat, n: nat)
    requires n > 0 && m > 0 && m % n == 0 && x % m == 0
    ensures x % n == 0
  {
    assert x == m * (x / m);
    MultipleGrows(m, x / m, n);
  }

  lemma LastOfPeriod(counter: nat, n: nat)
    requires n > 0
    ensures counter % n == n - 1 <==> (counter + 1) % n == 0
    ensures (counter + 1) / n == counter / n + if (counter + 1) % n == 0 then 1 else 0
  {
    var q, r := counter / n, counter % n;
    assert counter == q * n + r;
    Difference(-1, q, n);
    if r == n - 1 {
      ModIs(counter + 1, n, q + 1, 0);
    } else {
      ModIs(counter + 1, n, q, r + 1);
    }
  }

  /** Counting modulo a multiple of the period does not change what is the last of a period. */
  lemma WrappedCounter(n: nat, full: nat, period: nat)
    requires full > 0 && period > 0 && full % period == 0
    ensures (n % full + 1) % period == 0 <==> (n + 1) % period == 0
  {
    var q, r := n / full, n % full;
    assert n == q * full + r && full == full / period * period;
    var m := q * (full / period);
    Associate(q, full / period, period);
    Signs(q, full / period);
    ShiftedMod(r + 1, m, period);
  }

  lemma ShiftedMod(x: nat, m: nat, n: nat)
    requires n > 0
    ensures m * n >= 0 && (m * n + x) % n == x % n
  {
    Signs(m, n);
    var q, r := x / n, x % n;
    assert x == q * n + r;
    Difference(0 - m, q, n);
    ModIs(m * n + x, n, m + q, r);
  }

  /** Which stages an input reaches. */
  lemma {:induction false} FeedReaches(stages: seq<Stage>, k: nat, counter: nat, x: int)
    requires k <= |stages| && WellMade(stages) && (counter + 1) % Period(stages, k) == 0
    ensures SameStages(stages, Feed(stages, k, counter, x))
    ensures forall i :: 0 <= i < k ==> Feed(stages, k, counter, x)[i] == stages[i]
    ensures forall i :: k <= i < |stages| ==>
      (Feed(stages, k, counter, x)[i].samples ==
        stages[i].samples + if (counter + 1) % Period(stages, i) == 0 then 1 else 0)
    decreases |stages| - k
  {
    hide Next, Known;
    if k < |stages| {
      var s, period := Fed(stages[k], x), Period(stages, k + 1);
      var more := stages[k := s];
      LastOfPeriod(counter, period);
      if counter % period == period - 1 {
        forall i | 0 <= i <= |stages| ensures Period(more, i) == Period(stages, i) {
          SamePeriod(stages, more, i);
        }
        FeedReaches(more, k + 1, counter, s.filter.ys[0]);
      } else {
        forall i | k < i < |stages| ensures (counter + 1) % Period(stages, i) != 0 {
          PeriodDivides(stages, k + 1, i);
          if (counter + 1) % Period(stages, i) == 0 {
            MultipleOf(counter + 1, Period(stages, i), period);
          }
        }
      }
    }
  }

  /** The schedule goes on with every input, although the counter starts again after a full period. */
  lemma ScheduleStep(c: Chain, n: nat, val: int)
    requires OnSchedule(c, n)
    ensures OnSchedule(AddTo(c, val), n + 1)
  {
    hide Next, Known, Period;
    var full, d := Period(c.stages, |c.stages|), AddTo(c, val);
    assert Period(c.stages, 0) == 1 by { PeriodZero(c.stages); }
    FeedReaches(c.stages, 0, c.counter, val * SCALE);
    SamePeriod(c.stages, d.stages, |c.stages|);
    forall k | 0 <= k < |c.stages| ensures d.stages[k].samples == (n + 1) / Period(d.stages, k) {
      var period := Period(c.stages, k);
      SamePeriod(c.stages, d.stages, k);
      PeriodDivides(c.stages, k, |c.stages|);
      WrappedCounter(n, full, period);
      LastOfPeriod(n, period);
    }
    CounterWraps(n, full);
  }

  lemma PeriodZero(stages: seq<Stage>)
    requires WellMade(stages)
    ensures Period(stages, 0) == 1
  {
  }

  lemma CounterWraps(n: nat, full: nat)
    requires full > 0
    ensures (n + 1) % full == if n % full + 1 == full then 0 else n % full + 1
  {
    var q, r := n / full, n % full;
    assert n == q * full + r;
    Difference(-1, q, full);
    if r + 1 == full {
      ModIs(n + 1, full, q + 1, 0);
    } else {
      ModIs(n + 1, full, q, r + 1);
    }
  }

  function AddAll(c: Chain, vals: seq<int>): (r: Chain)
    requires WellMade(c.stages)
    decreases |vals|
  {
    if vals == [] then c
    else
      FeedKeeps(c, vals[0]);
      AddAll(AddTo(c, vals[0]), vals[1..])
  }

  lemma FeedKeeps(c: Chain, val: int)
    requires WellMade(c.stages)
    ensures WellMade(AddTo(c, val).stages) && SameStages(c.stages, AddTo(c, val).stages)
  {
    hide Next, Known;
    FeedKeepsStages(c.stages, 0, c.counter, val * SCALE);
  }

  lemma {:induction false} FeedKeepsStages(stages: seq<Stage>, k: nat, counter: nat, x: int)
    requires k <= |stages| && WellMade(stages)
    ensures WellMade(Feed(stages, k, counter, x)) && SameStages(stages, Feed(stages, k, counter, x))
    decreases |stages| - k
  {
    hide Next, Known, Period;
    if k < |stages| {
      var s := Fed(stages[k], x);
      FeedKeepsStages(stages[k := s], k + 1, counter, s.filter.ys[0]);
    }
  }

  /** After any inputs to a new chain, each stage has had the number of inputs divided by the product of
      the intervals before it, rounded down. */
  lemma {:induction false} Decimation(c: Chain, vals: seq<int>, n: nat)
    requires OnSchedule(c, n)
    ensures OnSchedule(AddAll(c, vals), n + |vals|)
    decreases |vals|
  {
    hide AddTo, Period, Known;
    if vals != [] {
      ScheduleStep(c, n, vals[0]);
      Decimation(AddTo(c, vals[0]), vals[1..], n + 1);
    }
  }

  // ---------- an offset, and a constant input ----------

  function OffsetStage(s: Stage, k: int): Stage {
    s.(filter := OffsetState(s.filter, k))
  }

  function OffsetStages(stages: seq<Stage>, k: int): (r: seq<Stage>)
    ensures |r| == |stages| && forall i :: 0 <= i < |stages| ==> r[i] == OffsetStage(stages[i], k)
  {
    seq(|stages|, i requires 0 <= i < |stages| => OffsetStage(stages[i], k))
  }

  lemma {:induction false} FeedOffset(stages: seq<Stage>, i: nat, counter: nat, x: int, k: int)
    requires i <= |stages| && WellMade(stages)
    ensures WellMade(OffsetStages(stages, k))
    ensures Feed(OffsetStages(stages, k), i, counter, x + k) == OffsetStages(Feed(stages, i, counter, x), k)
    decreases |stages| - i
  {
    hide Next, Known, Period, OffsetState;
    var moved := OffsetStages(stages, k);
    assert SameStages(stages, moved);
    if i < |stages| {
      var p := stages[i];
      var s := Fed(p, x);
      OffsetPasses(p.params, p.threshold, p.filter, x, k);
      assert Fed(moved[i], x + k) == OffsetStage(s, k);
      assert moved[i := OffsetStage(s, k)] == OffsetStages(stages[i := s], k);
      SamePeriod(stages, moved, i + 1);
      OffsetNewest(s.filter, k);
      FeedOffset(stages[i := s], i + 1, counter, s.filter.ys[0], k);
    }
  }

  lemma OffsetNewest(s: FilterState, k: int)
    ensures OffsetState(s, k).ys[0] == s.ys[0] + k
  {
  }

  /** An offset of the input is an offset of every stage, and nothing else. */
  lemma ChainOffset(c: Chain, val: int, k: int)
    requires WellMade(c.stages)
    ensures WellMade(OffsetStages(c.stages, k * SCALE))
    ensures AddTo(Chain(OffsetStages(c.stages, k * SCALE), c.counter), val + k)
            == Chain(OffsetStages(AddTo(c, val).stages, k * SCALE), AddTo(c, val).counter)
  {
    hide Feed, OffsetState;
    FeedOffset(c.stages, 0, c.counter, val * SCALE, k * SCALE);
    assert SameStages(c.stages, OffsetStages(c.stages, k * SCALE));
    SamePeriod(c.stages, OffsetStages(c.stages, k * SCALE), |c.stages|);
  }

  /** Every stage has settled on this value. */
  ghost predicate Settled(stages: seq<Stage>, val: int) {
    forall i :: 0 <= i < |stages| ==> stages[i].filter == Same(val * SCALE)
  }

  lemma {:induction false} FeedSettled(stages: seq<Stage>, k: nat, counter: nat, val: int)
    requires k <= |stages| && WellMade(stages) && Settled(stages, val)
    ensures Settled(Feed(stages, k, counter, val * SCALE), val)
    decreases |stages| - k
  {
    hide Next, Known, Period;
    if k < |stages| {
      var p := stages[k];
      AtRest(p.params, p.threshold, val * SCALE);
      FeedSettled(stages[k := Fed(p, val * SCALE)], k + 1, counter, val);
    }
  }

  /** A settled chain stays settled under its value. Every stage then reads that value, smooth or not,
      and shows no change. */
  lemma {:induction false} SteadyState(c: Chain, val: int, n: nat, k: nat, smooth: bool)
    requires WellMade(c.stages) && Settled(c.stages, val) && k < |c.stages|
    ensures var d := AddAll(c, seq(n, _ => val));
      && WellMade(d.stages) && |d.stages| == |c.stages| && Settled(d.stages, val)
      && ReadFrom(d, k, smooth) == val && DerivativeFrom(d, k, smooth) == 0
    decreases n
  {
    hide Feed, Known, Next, Period;
    if n == 0 {
      SettledReads(c, val, k, smooth);
    } else {
      var vals := seq(n, _ => val);
      assert vals[0] == val && vals[1..] == seq(n - 1, _ => val);
      FeedSettled(c.stages, 0, c.counter, val);
      FeedKeeps(c, val);
      SteadyState(AddTo(c, val), val, n - 1, k, smooth);
    }
  }

  lemma SettledReads(c: Chain, val: int, k: nat, smooth: bool)
    requires WellMade(c.stages) && Settled(c.stages, val) && k < |c.stages|
    ensures ReadFrom(c, k, smooth) == val && DerivativeFrom(c, k, smooth) == 0
  {
    hide Known, Period, Interpolated;
    RoundOffset(0, val);
    var period := Period(c.stages, k);
    InterpolatedBetween(val, val, c.counter % period, period);
    InterpolatedBetween(0, 0, c.counter % period, period);
    ModIs(0, period, 0, 0);
  }

  /** A smoothed value lies between the two values that it smoothes. */
  lemma InterpolatedBetween(latest: int, previous: int, elapsed: nat, period: nat)
    requires 0 <= elapsed <= period && period > 0
    ensures var r := Interpolated(latest, previous, elapsed, period);
      if latest <= previous then latest <= r <= previous else previous <= r <= latest
  {
    var lo, hi := if latest <= previous then latest else previous, if latest <= previous then previous else latest;
    var x := latest * elapsed + previous * (period - elapsed);
    Grow(lo, latest, elapsed);
    Grow(lo, previous, period - elapsed);
    Grow(latest, hi, elapsed);
    Grow(previous, hi, period - elapsed);
    Spread(lo, elapsed, period);
    Spread(hi, elapsed, period);
    TruncBetween(x, lo, hi, period);
  }

  lemma Spread(a: int, elapsed: int, period: int)
    ensures a * elapsed + a * (period - elapsed) == a * period
  {
  }

  lemma TruncBetween(x: int, lo: int, hi: int, n: nat)
    requires n > 0 && lo * n <= x <= hi * n
    ensures lo <= TruncDiv(x, n) <= hi
  {
    if x >= 0 {
      DivBounds(x, n);
      Cancel(lo, x / n + 1, n);
      Cancel(x / n, hi, n);
    } else {
      DivBounds(-x, n);
      Signs(lo, n);
      Signs(hi, n);
      Cancel(-x / n, -lo, n);
      Cancel(-hi, -x / n + 1, n);
    }
  }

  // ---------- the chain object ----------

  /** Every value that an input moves on is small enough for 64-bit arithmetic. */
  predicate CanFeed(stages: seq<Stage>, k: nat, counter: nat, x: int)
    requires k <= |stages| && WellMade(stages)
    decreases |stages| - k
  {
    k == |stages| ||
    (&& Small([x]) && Small(stages[k].filter.xs) && Small(stages[k].filter.ys)
     && var s := Fed(stages[k], x);
        counter % Period(stages, k + 1) == Period(stages, k + 1) - 1 ==>
          CanFeed(stages[k := s], k + 1, counter, s.filter.ys[0]))
  }

  /** A settled chain never leaves 64 bits while its value has 24 bits. */
  lemma {:induction false} SettledCanFeed(stages: seq<Stage>, k: nat, counter: nat, val: int)
    requires k <= |stages| && WellMade(stages) && Settled(stages, val) && -0x80_0000 <= val <= 0x80_0000
    ensures CanFeed(stages, k, counter, val * SCALE)
    decreases |stages| - k
  {
    hide Next, Known, Period;
    if k < |stages| {
      var p := stages[k];
      assert [val * SCALE][0] == val * SCALE;
      AtRest(p.params, p.threshold, val * SCALE);
      SettledCanFeed(stages[k := Fed(p, val * SCALE)], k + 1, counter, val);
    }
  }

  function IntervalsOf(params: seq<nat>, intervals: seq<nat>): (r: seq<nat>)
    ensures |r| == |params| && forall i :: 0 <= i < |r| ==> r[i] > 0
  {
    seq(|params|, i requires 0 <= i < |params| =>
      if i < |intervals| && intervals[i] != 0 then intervals[i] else FilterDefinition(params[i]).downsample)
  }

  /** Without an interval of its own, the third filter passes on every fourth output and the others every second. */
  lemma IntervalsGiven(params: seq<nat>, intervals: seq<nat>, i: nat)
    requires i < |params|
    ensures IntervalsOf(params, intervals)[i]
            == if i < |intervals| && intervals[i] > 0 then intervals[i] else if params[i] == 2 then 4 else 2
  {
  }

  function Product(intervals: seq<nat>, k: nat): nat
    requires k <= |intervals|
  {
    if k == 0 then 1
    else
      Signs(Product(intervals, k - 1), intervals[k - 1]);
      Product(intervals, k - 1) * intervals[k - 1]
  }

  lemma {:induction false} PeriodIsProduct(stages: seq<Stage>, intervals: seq<nat>, k: nat)
    requires k <= |stages| == |intervals| && WellMade(stages)
    requires forall i :: 0 <= i < |stages| ==> stages[i].interval == intervals[i]
    ensures Period(stages, k) == Product(intervals, k)
  {
    if k > 0 {
      PeriodIsProduct(stages, intervals, k - 1);
    }
  }

  class FilterChain {
    /** The initialised stages. */
    const filters: seq<IirFilter>
    const intervals: seq<nat>
    var counter: u32

    /** The parts of the chain that never change. */
    ghost predicate Shape() {
      && |filters| == |intervals| > 0
      && (forall i :: 0 <= i < |filters| ==> intervals[i] > 0 && filters[i].Valid())
      && (forall i, j :: 0 <= i < j < |filters| ==> Apart(filters[i], filters[j]))
    }

    static ghost predicate Apart(a: IirFilter, b: IirFilter) {
      a != b && a.xv != b.xv && a.xv != b.yv && a.yv != b.xv && a.yv != b.yv
    }

    /** All products of intervals fit in 32 bits. */
    ghost predicate Valid()
      reads this, Repr()
    {
      Shape() && WellMade(Stages()) && Period(Stages(), |filters|) < RANGE && counter < Period(Stages(), |filters|)
    }

    ghost function Repr(): set<object> {
      (set f | f in filters :: f as object) + (set f | f in filters :: f.xv as object)
        + (set f | f in filters :: f.yv as object)
    }

    ghost function StageOf(i: nat): Stage
      requires Shape() && i < |filters|
      reads filters[i], filters[i].xv, filters[i].yv
    {
      var f := filters[i];
      Stage(FilterDefinition(f.paramsIdx), f.fastStepThreshold, intervals[i], f.View(), f.samples)
    }

    ghost function StagesFrom(k: nat): (ss: seq<Stage>)
      requires Shape() && k <= |filters|
      reads Repr()
      ensures |ss| == |filters| - k && forall i :: 0 <= i < |ss| ==> ss[i] == StageOf(k + i)
      decreases |filters| - k
    {
      if k == |filters| then []
      else
        assert filters[k] in filters;
        [StageOf(k)] + StagesFrom(k + 1)
    }

    ghost function Stages(): (ss: seq<Stage>)
      requires Shape()
      reads Repr()
      ensures |ss| == |filters| && forall i :: 0 <= i < |ss| ==> ss[i] == StageOf(i)
    {
      StagesFrom(0)
    }

    ghost function View(): Chain
      requires Shape()
      reads this, Repr()
    {
      Chain(Stages(), counter)
    }

    lemma ShapeFacts(k: nat)
      requires Shape() && k < |filters|
      ensures |filters| == |intervals| == |Stages()| && filters[k].Valid() && filters[k] in filters
      ensures Stages()[k].interval == intervals[k] && Stages()[k].filter == filters[k].View()
      ensures Known(Stages()[k].params)
    {
      hide Known;
      DefinitionKnown(filters[k].paramsIdx);
    }

    /** A chain with these filters; an interval that is missing or 0 is the one of the filter. */
    constructor (params: seq<nat>, intervals: seq<nat>, stepThreshold: nat)
      requires params != [] && Product(IntervalsOf(params, intervals), |params|) < RANGE
      ensures Valid() && fresh(Repr()) && Settled(Stages(), 0) && OnSchedule(View(), 0)
      ensures |filters| == |params| && this.intervals == IntervalsOf(params, intervals)
      ensures forall i :: 0 <= i < |params| ==> Stages()[i].params == FilterDefinition(params[i])
    {
      var fs := MakeFilters(params, stepThreshold);
      this.filters, this.intervals, counter := fs, IntervalsOf(params, intervals), 0;
      new;
      StartsOnSchedule(params);
    }

    static method MakeFilters(params: seq<nat>, stepThreshold: nat) returns (fs: seq<IirFilter>)
      ensures |fs| == |params|
      ensures forall i :: 0 <= i < |fs| ==>
        && fresh(fs[i]) && fresh(fs[i].xv) && fresh(fs[i].yv) && fs[i].Valid() && fs[i].View() == Same(0)
        && fs[i].paramsIdx == params[i] && fs[i].samples == 0
      ensures forall i, j :: 0 <= i < j < |fs| ==> Apart(fs[i], fs[j])
    {
      fs := [];
      for k := 0 to |params|
        invariant |fs| == k
        invariant forall i :: 0 <= i < k ==>
          && fresh(fs[i]) && fresh(fs[i].xv) && fresh(fs[i].yv) && fs[i].Valid() && fs[i].View() == Same(0)
          && fs[i].paramsIdx == params[i] && fs[i].samples == 0
        invariant forall i, j :: 0 <= i < j < k ==> Apart(fs[i], fs[j])
      {
        var f := new IirFilter(params[k], stepThreshold);
        fs := fs + [f];
      }
    }

    lemma StartsOnSchedule(params: seq<nat>)
      requires Shape() && |params| == |filters| && counter == 0 && Product(intervals, |intervals|) < RANGE
      requires forall i :: 0 <= i < |filters| ==>
        filters[i].View() == Same(0) && filters[i].paramsIdx == params[i] && filters[i].samples == 0
      ensures Valid() && Settled(Stages(), 0) && OnSchedule(View(), 0)
      ensures forall i :: 0 <= i < |params| ==> Stages()[i].params == FilterDefinition(params[i])
    {
      hide Known, FilterDefinition, Period, Product;
      forall i | 0 <= i < |filters|
        ensures Known(Stages()[i].params) && Stages()[i].interval == intervals[i] && Stages()[i].samples == 0
        ensures Stages()[i].params == FilterDefinition(params[i]) && Stages()[i].filter == Same(0)
      {
        ShapeFacts(i);
      }
      PeriodIsProduct(Stages(), intervals, |filters|);
      forall k | 0 <= k <= |filters| ensures 0 / Period(Stages(), k) == 0 && 0 % Period(Stages(), k) == 0 {
        ModIs(0, Period(Stages(), k), 0, 0);
      }
    }

    /** One input to stage k changes this stage only. */
    method FeedStage(k: nat, x: int, fractionBits: nat)
      requires Shape() && k < |filters| && fractionBits <= 17
      requires filters[k].InRange() && Small([Scaled(x, fractionBits)])
      modifies filters[k], filters[k].xv, filters[k].yv
      ensures Known(old(Stages())[k].params)
      ensures Stages() == old(Stages())[k := Fed(old(Stages())[k], Scaled(x, fractionBits))]
    {
      hide Next, Known, Scaled, IirFilter.View, StagesFrom, Stages;
      ghost var ss := Stages();
      ShapeFacts(k);
      var _ := filters[k].Add(x, fractionBits);
      OnlyOneChanged(ss, k);
    }

    /** When all stages but one are as before, so is their sequence. */
    lemma OnlyOneChanged(ss: seq<Stage>, k: nat)
      requires Shape() && k < |filters| == |ss|
      requires forall i :: 0 <= i < |filters| && i != k ==> StageOf(i) == ss[i]
      ensures Stages() == ss[k := StageOf(k)]
    {
    }

    lemma StillValid(before: seq<Stage>)
      requires Shape() && SameStages(before, Stages()) && WellMade(before)
      requires counter < Period(before, |before|) < RANGE
      ensures Valid()
    {
      hide Stages, Period, Known;
      SamePeriod(before, Stages(), |filters|);
    }

    /** Adds an input. It goes to the first stage, and from each stage to the next when its turn has
        come. The counter starts again when the last stage has had all its updates. */
    method Add(val: int)
      requires Valid() && CanFeed(Stages(), 0, counter, val * SCALE)
      modifies this`counter, Repr()
      ensures Valid() && View() == AddTo(old(View()), val)
    {
      hide Next, Known, Period, Scaled, Stages, Feed, CanFeed, Fed, Shape;
      ghost var ss := Stages();
      FeedFilters(val);
      FeedKeepsStages(ss, 0, counter, val * SCALE);
      SamePeriod(ss, Stages(), |ss|);
      StillValid(ss);
      ShapeSizes();
      var interval := SampleInterval(|filters|);
      counter := counter + 1;
      if counter == interval {
        counter := 0;
      }
    }

    lemma ShapeSizes()
      requires Shape()
      ensures |filters| == |intervals| == |Stages()| > 0
    {
    }

    /** The loop over the stages. */
    method FeedFilters(val: int)
      requires Valid() && CanFeed(Stages(), 0, counter, val * SCALE)
      modifies Repr()
      ensures Shape() && Stages() == old(Feed(Stages(), 0, counter, val * SCALE)) && counter == old(counter)
    {
      hide Next, Known, Period, Scaled, Stages, Feed, CanFeed, Fed, Shape;
      ghost var ss, x := Stages(), val * SCALE;
      ghost var target := Feed(ss, 0, counter, x);
      var updatePeriod: u32 := 1;
      var nextFilterIn, nextFractionBits := val, 0;
      PeriodZero(ss);
      ScaledInput(val);
      ShapeSizes();
      SameItself(ss);
      var k := 0;
      while k < |filters|
        invariant k <= |filters| && counter == old(counter) && |Stages()| == |filters|
        invariant SameStages(ss, Stages()) && WellMade(Stages())
        invariant nextFractionBits <= 17 && x == Scaled(nextFilterIn, nextFractionBits)
        invariant Feed(Stages(), k, counter, x) == target && CanFeed(Stages(), k, counter, x)
        invariant updatePeriod == Period(Stages(), k)
        decreases |filters| - k
      {
        ghost var before := Stages();
        var passes;
        InRepr(k);
        passes, updatePeriod, nextFilterIn, x := FeedOne(k, nextFilterIn, nextFractionBits, updatePeriod, x, ss);
        if !passes {
          return;
        }
        nextFractionBits := 17;
        k := k + 1;
      }
      FeedEnd(Stages(), counter, x);
    }

    lemma InRepr(k: nat)
      requires k < |filters|
      ensures filters[k] in Repr() && filters[k].xv in Repr() && filters[k].yv in Repr()
    {
      assert filters[k] in filters;
    }

    lemma SameItself(stages: seq<Stage>)
      ensures SameStages(stages, stages)
    {
    }

    /** One round of the loop. */
    method FeedOne(k: nat, nextIn: int, fractionBits: nat, period: u32, ghost x: int, ghost ss: seq<Stage>)
      returns (passes: bool, period': u32, nextOut: int, ghost x': int)
      requires Shape() && k < |filters| && fractionBits <= 17 && x == Scaled(nextIn, fractionBits)
      requires |Stages()| == |filters| && SameStages(ss, Stages()) && WellMade(ss) && Period(ss, |ss|) < RANGE
      requires WellMade(Stages()) && period == Period(Stages(), k) && CanFeed(Stages(), k, counter, x)
      modifies filters[k], filters[k].xv, filters[k].yv
      ensures |Stages()| == |filters| && SameStages(ss, Stages()) && WellMade(Stages()) && counter == old(counter)
      ensures period' == Period(Stages(), k + 1)
      ensures passes ==>
        && x' == Scaled(nextOut, 17) && CanFeed(Stages(), k + 1, counter, x')
        && Feed(Stages(), k + 1, counter, x') == old(Feed(Stages(), k, counter, x))
      ensures !passes ==> Stages() == old(Feed(Stages(), k, counter, x))
    {
      hide Next, Known, Period, Scaled, Stages, Feed, CanFeed, Fed, Shape;
      ghost var before := Stages();
      ghost var s := Fed(before[k], x);
      FeedUnfolds(before, k, counter, x);
      FeedIsSame(before, k, x);
      SameThrough(ss, before, k, s);
      ShapeFacts(k);
      FeedStage(k, nextIn, fractionBits);
      assert Stages() == before[k := s];
      SamePeriod(before, Stages(), k + 1);
      SamePeriod(ss, Stages(), k + 1);
      PeriodNext(ss, k);
      PeriodNext(before, k);
      period' := period * intervals[k];
      passes := counter % period' == period' - 1;
      ShapeFacts(k);
      nextOut := filters[k].yv[0];
      x' := s.filter.ys[0];
      ScaledInput(nextOut);
    }

    lemma FeedIsSame(before: seq<Stage>, k: nat, x: int)
      requires k < |before| && WellMade(before)
      ensures SameStages(before, before[k := Fed(before[k], x)]) && WellMade(before[k := Fed(before[k], x)])
    {
      hide Next, Known;
    }

    lemma SameThrough(ss: seq<Stage>, before: seq<Stage>, k: nat, s: Stage)
      requires SameStages(ss, before) && k < |before| && SameStages(before, before[k := s])
      ensures SameStages(ss, before[k := s])
    {
    }

    lemma PeriodNext(stages: seq<Stage>, k: nat)
      requires k < |stages| && WellMade(stages)
      ensures Period(stages, k + 1) == Period(stages, k) * stages[k].interval <= Period(stages, |stages|)
    {
      PeriodMonotone(stages, k + 1, |stages|);
    }

    /** The number of inputs of the chain for one input of stage k. */
    method SampleInterval(k: nat) returns (interval: u32)
      requires Valid() && k <= |filters|
      ensures interval == Period(Stages(), k)
    {
      hide Period, Known;
      interval := 1;
      PeriodZero(Stages());
      for i := 0 to k
        invariant Valid() && interval == Period(Stages(), i)
      {
        PeriodNext(Stages(), i);
        ShapeFacts(i);
        interval := interval * intervals[i];
      }
    }

    /** The last stage when the number is too large. */
    function SelectStage(filterNr: nat): (k: nat)
      requires |filters| > 0
      ensures k < |filters|
    {
      if filterNr >= |filters| then |filters| - 1 else filterNr
    }

    method Read(filterNr: nat, smooth: bool) returns (r: int)
      requires Valid()
      ensures r == ReadFrom(View(), SelectStage(filterNr), smooth)
    {
      hide Period, Known, Interpolated, Round, Stages;
      var k := SelectStage(filterNr);
      var latest := filters[k].Read();
      if !smooth {
        return latest;
      }
      var updateInterval := SampleInterval(k);
      var elapsed := counter % updateInterval;
      var previous := filters[k].ReadPrevious();
      r := Interpolated(latest, previous, elapsed, updateInterval);
    }

    method ReadDerivative(filterNr: nat, smooth: bool) returns (r: int)
      requires Valid()
      ensures r == DerivativeFrom(View(), SelectStage(filterNr), smooth)
    {
      hide Period, Known, Interpolated, TruncDiv, Stages;
      var k := SelectStage(filterNr);
      var updateInterval := SampleInterval(k);
      var latest := TruncDiv(filters[k].ReadDerivative(), updateInterval);
      var previous := TruncDiv(filters[k].ReadPreviousDerivative(), updateInterval);
      r := latest;
      if smooth {
        r := Interpolated(latest, previous, counter % updateInterval, updateInterval);
      }
    }

    /** Settles every stage on a value. */
    method Reset(value: int)
      requires Valid()
      modifies Repr()
      ensures Valid() && Settled(Stages(), value) && SameStages(old(Stages()), Stages()) && counter == old(counter)
    {
      hide Period, Known, Stages, StagesFrom;
      ghost var ss := Stages();
      SameItself(ss);
      for k := 0 to |filters|
        invariant |Stages()| == |filters| && SameStages(ss, Stages()) && counter == old(counter)
        invariant forall i :: 0 <= i < k ==> Stages()[i].filter == Same(value * SCALE)
      {
        ResetOne(k, value);
      }
      StillValid(ss);
    }

    method ResetOne(k: nat, value: int)
      requires Shape() && k < |filters|
      modifies filters[k].xv, filters[k].yv
      ensures Stages() == old(Stages())[k := old(Stages())[k].(filter := Same(value * SCALE))]
    {
      hide Stages, StagesFrom;
      ghost var ss := Stages();
      ShapeFacts(k);
      filters[k].Reset(value);
      OnlyOneChanged(ss, k);
    }
  }

  /** The first step of an input. */
  lemma FeedUnfolds(stages: seq<Stage>, k: nat, counter: nat, x: int)
    requires k < |stages| && WellMade(stages) && CanFeed(stages, k, counter, x)
    ensures Small([x]) && Small(stages[k].filter.xs) && Small(stages[k].filter.ys)
    ensures var s, period := Fed(stages[k], x), Period(stages, k + 1);
      if counter % period == period - 1 then
        && Feed(stages, k, counter, x) == Feed(stages[k := s], k + 1, counter, s.filter.ys[0])
        && CanFeed(stages[k := s], k + 1, counter, s.filter.ys[0])
      else Feed(stages, k, counter, x) == stages[k := s]
  {
    hide Next, Known, Period, Fed;
  }

  lemma FeedEnd(stages: seq<Stage>, counter: nat, x: int)
    requires WellMade(stages)
    ensures Feed(stages, |stages|, counter, x) == stages
  {
  }

  lemma {:induction false} PeriodMonotone(stages: seq<Stage>, k: nat, m: nat)
    requires k <= m <= |stages| && WellMade(stages)
    ensures Period(stages, k) <= Period(stages, m)
  {
    if k < m {
      PeriodMonotone(stages, k, m - 1);
      Grow(1, stages[m - 1].interval, Period(stages, m - 1));
    }
  }

  lemma ScaledInput(val: int)
    ensures Scaled(val, 0) == val * SCALE && Scaled(val, 17) == val
  {
    assert Power(8) == 256 by { assert Power(4) == 16; }
    assert Power(12) == 4096;
    assert Power(16) == 65536;
    assert Power(17) == SCALE;
  }
}
