/** Slow PWM keeps a steady rhythm and never leaves its bounds. */
module PwmLaws {
  import opened Bytes
  import opened Products
  import opened Ticks
  import opened ChangeLog
  import opened PwmPlan

  /** A toggle is never planned before three quarters of the normal time, and never later than half
      beyond the longest normal or previous time. */
  lemma WaitIsBounded(d: Durations, period: u32, duty: nat, setting: nat)
    requires InRange(d, period) && setting <= FULL && duty == DutyTime(setting, period) && 0 < duty < period
    ensures var w := WindowOf(d, period, duty); var off := period - duty;
      w.currentHigh <= w.currentPeriod && w.previousHigh <= w.previousPeriod &&
      var wait := WaitFor(d, w, period, duty, setting);
      && (d.lastState == Active ==>
           && w.currentHigh + wait >= duty - duty / 4
           && wait <= 3 * Max(duty, d.previousActive) / 2)
      && (d.lastState == Inactive ==>
           && w.CurrentLow() + wait >= off - off / 4
           && wait <= 3 * Max(off, d.previousPeriod - d.previousActive) / 2)
  {
    hide WindowOf, DutyTime, Share, AdaptWait, KeptShare, Longest;
    WindowIsSound(d, period, duty);
    var w, off := WindowOf(d, period, duty), period - duty;
    var share := Share(w.Elapsed(), setting);
    AdaptIsBounded(w.currentHigh, w.High(), duty, d.previousActive, d.previousPeriod, period,
                   KeptShare(share, w.currentHigh, w.previousHigh, duty));
    AdaptIsBounded(w.CurrentLow(), w.CurrentLow() + w.PreviousLow(), off, d.previousPeriod - d.previousActive,
      d.previousPeriod, period,
                   KeptShare(w.Elapsed() - share, w.CurrentLow(), w.PreviousLow(), off));
  }

  // ---------- rounding ----------

  /** The share of the setting is the share of its duty time when that is exact. */
  lemma SameShare(elapsed: nat, setting: nat, period: nat, duty: nat)
    requires period > 0 && setting <= FULL && setting * period == duty * FULL
    ensures Share(elapsed, setting) == elapsed * duty / period
  {
    var q, x := elapsed * duty / period, elapsed * duty;
    DivBounds(x, period);
    assert elapsed * setting * period == x * FULL by {
      assert elapsed * (setting * period) == elapsed * (duty * FULL);
      Associate(elapsed, setting, period);
      Associate(elapsed, duty, FULL);
    }
    assert q * FULL * period <= elapsed * setting * period by {
      Swap(q, FULL, period);
      Grow(q * period, x, FULL);
    }
    Cancel(q * FULL, elapsed * setting, period);
    assert elapsed * setting * period < (q + 1) * FULL * period by {
      Swap(q + 1, FULL, period);
      assert x + 1 <= (q + 1) * period;
      Grow(x + 1, (q + 1) * period, FULL);
    }
    Cancel(elapsed * setting, (q + 1) * FULL, period);
    DivIs(elapsed * setting, FULL, q);
  }

  // ---------- a steady rhythm ----------

  /** The durations in the middle of an off time, when all earlier periods were exact. */
  function SteadyOff(period: u32, duty: nat, low: nat): Durations
    requires duty <= period && low + duty < RANGE
  {
    Durations(duty, low + duty, duty, period, Inactive)
  }

  function SteadyOn(period: u32, duty: nat, high: nat): Durations
    requires duty <= period && high + period - duty < RANGE
  {
    Durations(high, high + period - duty, duty, period, Active)
  }

  /** The setting is a whole number of milliseconds per period. */
  predicate Exact(setting: nat, period: u32, duty: nat) {
    setting <= FULL && 0 < duty < period && setting * period == duty * FULL
  }

  lemma ExactBounds(setting: nat, period: u32, duty: nat)
    requires Exact(setting, period, duty)
    ensures setting <= FULL && 0 < duty < period
  {
  }

  lemma ExactDuty(setting: nat, period: u32, duty: nat)
    requires Exact(setting, period, duty)
    ensures DutyTime(setting, period) == duty
  {
    DivIs(period * setting, FULL, duty);
  }

  /** In a steady rhythm the actuator goes on exactly when it has been off for its part of the period. */
  lemma SteadyOffToggles(setting: nat, period: u32, duty: nat, low: nat)
    requires Exact(setting, period, duty) && 4 <= period < 0x800_0000 && low + duty <= 2 * period
    ensures DutyTime(setting, period) == duty
    ensures var d := SteadyOff(period, duty, low);
      InRange(d, period) && var w := WindowOf(d, period, duty);
      w.currentHigh <= w.currentPeriod && w.previousHigh <= w.previousPeriod &&
      (WaitFor(d, w, period, duty, setting) == 0 <==> low >= period - duty)
  {
    hide WindowOf, DutyTime, WaitFor, Exact, Covers, Share;
    ExactBounds(setting, period, duty);
    ExactDuty(setting, period, duty);
    OrdinaryWindow(SteadyOff(period, duty, low), period, duty);
    if HighIsFixed(period, duty) {
      LowShareOf(period + duty + low, setting, period, duty, low);
    }
    SteadyOffWait(setting, period, duty, low);
  }

  lemma SteadyOffWait(setting: nat, period: u32, duty: nat, low: nat)
    requires setting <= FULL && 0 < duty < period && 4 <= period < 0x800_0000 && low + duty <= 2 * period
    requires var e := period + duty + low;
      HighIsFixed(period, duty) ==>
        Covers(e - Share(e, setting), low) && (e - Share(e, setting) <= period - duty + low <==> low >= period - duty)
    ensures WaitFor(SteadyOff(period, duty, low), Window(duty, low + duty, duty, period), period, duty, setting) == 0
      <==> low >= period - duty
  {
    hide Share, AdaptWait, KeptShare, Longest, Covers, WaitFor, SteadyOff;
    SteadyOffPlan(setting, period, duty, low);
    if HighIsFixed(period, duty) {
      var e := period + duty + low;
      AdaptOff(low, period - duty, period, e - Share(e, setting));
    }
  }

  /** The planned wait in the middle of an off time. */
  lemma SteadyOffPlan(setting: nat, period: u32, duty: nat, low: nat)
    requires setting <= FULL && 0 < duty < period && 4 <= period < 0x800_0000 && low + duty <= 2 * period
    ensures var e, off := period + duty + low, period - duty;
      WaitFor(SteadyOff(period, duty, low), Window(duty, low + duty, duty, period), period, duty, setting)
      == if HighIsFixed(period, duty) then
           AdaptWait(low, off + low, off, Longest(off, off, period, period),
                     KeptShare(e - Share(e, setting), low, off, off))
         else Max(0, off - low)
  {
    hide Share, AdaptWait, KeptShare, Longest, WaitFor, HighIsFixed, Max, InRange;
    var d, w := SteadyOff(period, duty, low), Window(duty, low + duty, duty, period);
    SteadyOffInRange(period, duty, low);
    WaitCases(d, w, period, duty, setting);
    assert w.CurrentLow() == low && w.PreviousLow() == period - duty && w.Elapsed() == period + duty + low;
    assert d.previousPeriod - d.previousActive == period - duty && d.previousPeriod == period;
  }

  lemma SteadyOffInRange(period: u32, duty: nat, low: nat)
    requires duty <= period && 4 <= period < 0x800_0000 && low + duty <= 2 * period
    ensures InRange(SteadyOff(period, duty, low), period)
  {
  }

  lemma AdaptOff(low: nat, off: nat, period: u32, share: nat)
    requires off >= 2 && share < RANGE && Covers(share, low) && (share <= off + low <==> low >= off)
    ensures AdaptWait(low, off + low, off, Longest(off, off, period, period), KeptShare(share, low, off, off)) == 0
      <==> low >= off
  {
    hide AdaptWait, KeptShare, Longest, Covers;
    AdaptSteady(low, off, period, share);
  }

  /** What the setting asks of the off state in the middle of an off time. */
  lemma LowShareOf(e: nat, setting: nat, period: u32, duty: nat, low: nat)
    requires Exact(setting, period, duty) && HighIsFixed(period, duty) && period >= 4 && e == period + duty + low
    ensures Covers(e - Share(e, setting), low)
    ensures e - Share(e, setting) <= period - duty + low <==> low >= period - duty
  {
    hide Share, Covers, DutyTime;
    ExactDuty(setting, period, duty);
    InStepFits(setting, period);
    SameShare(e, setting, period, duty);
    TwoPeriods(e, period, duty);
    ShareOfLow(e, setting);
    CoversLess(e - Share(e, setting), e, low);
  }

  /** Over two whole periods the share is two duty times. */
  lemma TwoPeriods(e: nat, period: nat, duty: nat)
    requires period > 0 && duty > 0
    ensures e * duty / period < 2 * duty <==> e < 2 * period
  {
    var q := e * duty / period;
    DivBounds(e * duty, period);
    Associate(2, duty, period);
    Associate(2, period, duty);
    if e < 2 * period {
      Grow(e + 1, 2 * period, duty);
      Cancel(q, 2 * duty, period);
    } else {
      Grow(2 * period, e, duty);
      Cancel(2 * duty, q + 1, period);
    }
  }

  /** In a steady rhythm the actuator goes off when it has been on for its duty time. Above 50 percent
      rounding down can end the on-time early, by less than period / (period - duty). */
  lemma SteadyOnToggles(setting: nat, period: u32, duty: nat, high: nat)
    requires Exact(setting, period, duty) && 4 <= period < 0x800_0000 && high + period - duty <= 2 * period
    ensures DutyTime(setting, period) == duty
    ensures var d := SteadyOn(period, duty, high);
      InRange(d, period) && var w := WindowOf(d, period, duty);
      w.currentHigh <= w.currentPeriod && w.previousHigh <= w.previousPeriod &&
      (WaitFor(d, w, period, duty, setting) == 0 <==>
        if HighIsFixed(period, duty) then high >= duty
        else high >= duty - duty / 4 && (duty - high) * (period - duty) < period)
  {
    hide WindowOf, DutyTime, WaitFor, Exact;
    ExactBounds(setting, period, duty);
    ExactDuty(setting, period, duty);
    OrdinaryWindow(SteadyOn(period, duty, high), period, duty);
    SteadyOnWait(setting, period, duty, high);
  }

  lemma SteadyOnWait(setting: nat, period: u32, duty: nat, high: nat)
    requires Exact(setting, period, duty) && 4 <= period < 0x800_0000 && high + period - duty <= 2 * period
    ensures
      var d, w := SteadyOn(period, duty, high), Window(high, high + period - duty, duty, period);
      WaitFor(d, w, period, duty, setting) == 0
      <==> if HighIsFixed(period, duty) then high >= duty
           else high >= duty - duty / 4 && (duty - high) * (period - duty) < period
  {
    hide Share, AdaptWait, KeptShare, Longest, Covers, WaitFor, Exact, SteadyOn;
    ExactBounds(setting, period, duty);
    SteadyOnPlan(setting, period, duty, high);
    if !HighIsFixed(period, duty) {
      var e := 2 * period + high - duty;
      HighShareOf(e, setting, period, duty, high);
      AdaptSteady(high, duty, period, Share(e, setting));
    }
  }

  /** The planned wait in the middle of an on-time. */
  lemma SteadyOnPlan(setting: nat, period: u32, duty: nat, high: nat)
    requires setting <= FULL && 0 < duty < period && 4 <= period < 0x800_0000 && high + period - duty <= 2 * period
    ensures var e := 2 * period + high - duty;
      WaitFor(SteadyOn(period, duty, high), Window(high, high + period - duty, duty, period), period, duty, setting)
      == if HighIsFixed(period, duty) then Max(0, duty - high)
         else AdaptWait(high, duty + high, duty, Longest(duty, duty, period, period),
                        KeptShare(Share(e, setting), high, duty, duty))
  {
    hide Share, AdaptWait, KeptShare, Longest, WaitFor, HighIsFixed, Max, InRange;
    var d, w := SteadyOn(period, duty, high), Window(high, high + period - duty, duty, period);
    SteadyOnInRange(period, duty, high);
    WaitCases(d, w, period, duty, setting);
    assert w.High() == duty + high && w.Elapsed() == 2 * period + high - duty;
    assert d.previousActive == duty && d.previousPeriod == period;
  }

  lemma SteadyOnInRange(period: u32, duty: nat, high: nat)
    requires duty <= period && 4 <= period < 0x800_0000 && high + period - duty <= 2 * period
    ensures InRange(SteadyOn(period, duty, high), period)
  {
  }

  /** What the setting asks of the on state in the middle of an on-time. */
  lemma HighShareOf(e: nat, setting: nat, period: u32, duty: nat, high: nat)
    requires Exact(setting, period, duty) && !HighIsFixed(period, duty) && period >= 4
    requires high <= period + duty && e == 2 * period + high - duty
    ensures Covers(Share(e, setting), high)
    ensures Share(e, setting) <= duty + high <==> (duty - high) * (period - duty) < period
    ensures high > duty ==> Share(e, setting) <= duty + high
  {
    hide Share, Covers, DutyTime;
    ExactDuty(setting, period, duty);
    InStepFits(setting, period);
    SameShare(e, setting, period, duty);
    EarlyBy(high, period, duty);
    ShareOfHigh(e, setting);
    CoversLess(Share(e, setting), e, high);
  }

  lemma AdaptSteady(current: nat, normal: nat, period: u32, share: nat)
    requires normal >= 2 && (current > normal ==> share <= normal + current) && share < RANGE && Covers(share, current)
    ensures var longest := Longest(normal, normal, period, period);
      AdaptWait(current, normal + current, normal, longest, KeptShare(share, current, normal, normal)) == 0
      <==> current >= normal - normal / 4 && share <= normal + current
  {
    hide KeptShare;
    KeptIsAimed(share, current, normal, normal);
  }

  /** When the on-time so far reaches its share, rounded down. */
  lemma EarlyBy(high: nat, period: nat, duty: nat)
    requires period > 0 && 0 < duty < period && high <= period + duty
    ensures 2 * period + high - duty >= 0
    ensures (2 * period + high - duty) * duty / period <= duty + high <==> (duty - high) * (period - duty) < period
    ensures high > duty ==> (2 * period + high - duty) * duty / period <= duty + high
  {
    Signs(high - duty, period - duty);
    var e := 2 * period + high - duty;
    var x, y := e * duty, (duty - high) * (period - duty);
    var q := x / period;
    DivBounds(x, period);
    assert x == (duty + high) * period + y by { EarlyProduct(high, period, duty); }
    if y < period {
      Difference(-1, duty + high, period);
      Cancel(q, duty + high + 1, period);
    } else {
      Difference(-1, duty + high, period);
      Cancel(duty + high + 1, q + 1, period);
    }
  }

  lemma EarlyProduct(high: int, period: int, duty: int)
    ensures (2 * period + high - duty) * duty == (duty + high) * period + (duty - high) * (period - duty)
  {
  }

  // ---------- when the arithmetic is in range ----------

  /** In the first six days of a run every history is in range. */
  lemma EarlyRunInRange(full: seq<Change>, now: nat, period: u32)
    requires Recorded(full, now) && now < 0x2000_0000 - 1 && 4 <= period < 0x2000_0000
    ensures InRange(DurationsOf(Shown(full), Wrap(now)), period)
  {
    hide Shown, DurationsOf, Recorded, PeriodEntries;
    DurationsFit(full, now);
  }

  /** The correction that the adapting state makes, if any, is no more than the share it is taken from. */
  ghost predicate CorrectionFits(d: Durations, period: u32, duty: nat, setting: nat)
    requires InRange(d, period) && duty <= period && setting <= FULL
  {
    WindowIsSound(d, period, duty);
    var w, off := WindowOf(d, period, duty), period - duty;
    var share := Share(w.Elapsed(), setting);
    && (d.lastState == Active && duty < period && !HighIsFixed(period, duty)
        && duty - duty / 4 <= w.currentHigh < Longest(duty, d.previousActive, d.previousPeriod, period)
        ==> 0 <= AimedShare(share, w.currentHigh, w.previousHigh, duty))
    && (d.lastState == Inactive && 0 < duty && HighIsFixed(period, duty)
        && off - off / 4 <= w.CurrentLow()
           < Longest(off, d.previousPeriod - d.previousActive, d.previousPeriod, period)
        ==> 0 <= AimedShare(w.Elapsed() - share, w.CurrentLow(), w.PreviousLow(), off))
  }

  lemma Corrected(share: nat, current: nat, previous: nat, normal: nat)
    requires Covers(share, current)
    ensures 0 <= AimedShare(share, current, previous, normal)
  {
  }

  /** A period and another one before it ask for at least a quarter of the later one. */
  lemma ShareOfLonger(time: nat, current: nat, elapsed: nat, period: nat, part: nat)
    requires time <= current && time + period <= elapsed && part <= FULL
    requires current * (FULL - 4 * part) <= 4 * period * part
    ensures Covers(Share(elapsed, part), time)
  {
    var x := elapsed * part;
    Grow(time + period, elapsed, part);
    assert (time + period) * part == time * part + period * part;
    Associate(4, period, part);
    assert time * (FULL - 4 * part) <= 4 * (period * part) by {
      if FULL >= 4 * part {
        Grow(time, current, FULL - 4 * part);
      } else {
        Signs(time, 4 * part - FULL);
        Signs(period, part);
        Opposite(time, FULL - 4 * part);
      }
    }
    assert time * (FULL - 4 * part) == time * FULL - 4 * (time * part);
    QuarterShare(x, time);
  }

  lemma Opposite(a: int, b: int)
    ensures a * (-b) == -(a * b)
  {
  }

  lemma CoversMore(share: int, more: int, time: nat)
    requires share <= more && Covers(share, time)
    ensures Covers(more, time)
  {
  }

  /** What the on state does not ask for is at least the share of the off state. */
  lemma LowShare(elapsed: nat, setting: nat)
    requires setting <= FULL
    ensures Share(elapsed, FULL - setting) <= elapsed - Share(elapsed, setting)
  {
    assert elapsed * (FULL - setting) == elapsed * FULL - elapsed * setting;
    AtMostAll(elapsed, setting);
    AtMostAll(elapsed, FULL - setting);
    TwoShares(elapsed, elapsed * setting, elapsed * (FULL - setting));
  }

  lemma TwoShares(elapsed: nat, x: nat, y: nat)
    requires x + y == elapsed * FULL
    ensures x / FULL + y / FULL <= elapsed
  {
  }

  lemma CurrentIsShorter(d: Durations, period: u32, duty: nat)
    requires InRange(d, period) && 0 < duty < period
    ensures var w := WindowOf(d, period, duty);
      && 0 <= w.currentHigh <= w.currentPeriod <= d.currentPeriod && w.currentPeriod + period <= w.Elapsed()
  {
    hide Previous;
  }

  /** For every period and setting: as long as the current period is not too long, no history makes a subtraction
      wrap. From 25 percent for the on state and up to 75 percent for the off state, no period is too long. */
  lemma ShortHistoryCorrects(d: Durations, period: u32, duty: nat, setting: nat)
    requires InRange(d, period) && duty <= period && setting <= FULL
    requires d.lastState == Active && !HighIsFixed(period, duty) ==>
      d.currentPeriod * (FULL - 4 * setting) <= 4 * period * setting
    requires d.lastState == Inactive && HighIsFixed(period, duty) ==>
      d.currentPeriod * (4 * setting - 3 * FULL) <= 4 * period * (FULL - setting)
    ensures CorrectionFits(d, period, duty, setting)
  {
    hide WindowOf, Share, Longest, Covers;
    WindowIsSound(d, period, duty);
    var w, off := WindowOf(d, period, duty), period - duty;
    var e := w.Elapsed();
    if 0 < duty < period {
      CurrentIsShorter(d, period, duty);
      if d.lastState == Inactive && HighIsFixed(period, duty) {
        ShareOfLonger(w.CurrentLow(), d.currentPeriod, e, period, FULL - setting);
        LowShare(e, setting);
        CoversMore(Share(e, FULL - setting), e - Share(e, setting), w.CurrentLow());
        Corrected(e - Share(e, setting), w.CurrentLow(), w.PreviousLow(), off);
      } else if d.lastState == Active && !HighIsFixed(period, duty) {
        ShareOfLonger(w.currentHigh, d.currentPeriod, e, period, setting);
        Corrected(Share(e, setting), w.currentHigh, w.previousHigh, duty);
      }
    }
  }

  /** With a fitting setting the correction fits for every history. */
  lemma FittingCorrects(d: Durations, period: u32, duty: nat, setting: nat)
    requires InRange(d, period) && Fits(period, duty, setting)
    ensures CorrectionFits(d, period, duty, setting)
  {
    hide CorrectionFits;
    if 0 < duty < period {
      NeverTooLong(d.currentPeriod, 4 * setting - FULL, 4 * period, setting);
      NeverTooLong(d.currentPeriod, 3 * FULL - 4 * setting, 4 * period, FULL - setting);
      ShortHistoryCorrects(d, period, duty, setting);
    } else {
      NothingToCorrect(d, period, duty, setting);
    }
  }

  lemma NeverTooLong(time: nat, a: int, b: nat, c: nat)
    ensures a >= 0 ==> time * (-a) <= b * c
  {
    Signs(time, a);
    Signs(b, c);
    Opposite(time, a);
  }

  lemma NothingToCorrect(d: Durations, period: u32, duty: nat, setting: nat)
    requires InRange(d, period) && duty <= period && setting <= FULL && (duty == 0 || duty == period)
    ensures CorrectionFits(d, period, duty, setting)
  {
    hide WindowOf, Share, Longest, AimedShare;
  }

  /** For duty times above half of the period, no history makes the subtraction wrap exactly when the setting is
      at least 25 percent. */
  lemma HighSettingIsSafe(setting: nat)
    requires setting <= FULL
    ensures (forall period: u32, duty: nat, d: Durations ::
               InRange(d, period) && duty <= period && !HighIsFixed(period, duty)
               ==> CorrectionFits(d, period, duty, setting))
            <==> FULL <= 4 * setting
  {
    hide CorrectionFits, InRange;
    if FULL <= 4 * setting {
      forall period: u32, duty: nat, d: Durations
        | InRange(d, period) && duty <= period && !HighIsFixed(period, duty)
        ensures CorrectionFits(d, period, duty, setting)
      {
        FittingCorrects(d, period, duty, setting);
      }
    } else if setting == 0 {
      ZeroFails();
    } else {
      LongOnFails(setting, 8, 5, 655);
    }
  }

  /** For duty times up to half of the period, it is at most 75 percent. */
  lemma LowSettingIsSafe(setting: nat)
    requires setting <= FULL
    ensures (forall period: u32, duty: nat, d: Durations ::
               InRange(d, period) && duty <= period && HighIsFixed(period, duty)
               ==> CorrectionFits(d, period, duty, setting))
            <==> 4 * setting <= 3 * FULL
  {
    hide CorrectionFits, InRange;
    if 4 * setting <= 3 * FULL {
      forall period: u32, duty: nat, d: Durations
        | InRange(d, period) && duty <= period && HighIsFixed(period, duty)
        ensures CorrectionFits(d, period, duty, setting)
      {
        FittingCorrects(d, period, duty, setting);
      }
    } else if setting == FULL {
      FullFails();
    } else {
      LongOffFails(setting, 8, 3, 655);
    }
  }

  lemma ZeroFails()
    ensures var d := Durations(6, 6, 0, 8, Active);
      InRange(d, 8) && !HighIsFixed(8, 5) && !CorrectionFits(d, 8, 5, 0)
  {
    hide WindowOf, Share;
    OrdinaryWindow(Durations(6, 6, 0, 8, Active), 8, 5);
    ShareAtEnds(14);
  }

  lemma FullFails()
    ensures var d := Durations(0, 6, 8, 8, Inactive);
      InRange(d, 8) && HighIsFixed(8, 3) && !CorrectionFits(d, 8, 3, FULL)
  {
    hide WindowOf, Share;
    OrdinaryWindow(Durations(0, 6, 8, 8, Inactive), 8, 3);
    ShareAtEnds(14);
  }

  /** A history of one long period after another, so long that the share over it is a whole number: `k` times the
      fixed-point 100 percent in milliseconds, less the three PWM periods that the earlier one is compressed to. */
  function LongTime(k: nat, period: u32): int {
    k * FULL - 3 * period
  }

  lemma LongShare(k: nat, setting: nat)
    requires setting <= FULL
    ensures Share(k * FULL, setting) == k * setting
  {
    Swap(k, FULL, setting);
    DivIs(k * FULL * setting, FULL, k * setting);
  }

  /** An unbroken period longer than three PWM periods counts as three. */
  lemma Compressed(long: nat, period: u32)
    requires long > 3 * period
    ensures long * (3 * period) / long == 3 * period && 0 / long == 0
  {
    Commute(long, 3 * period);
    DivExact(3 * period, long);
    DivExact(0, long);
  }

  lemma DivExact(q: nat, n: nat)
    requires n > 0
    ensures q * n >= 0 && q * n / n == q
  {
    Signs(q, n);
    Difference(-1, q, n);
    DivIs(q * n, n, q);
  }

  /** For every period and every setting below 25 percent: a history of this length makes the subtraction wrap in the
      on state. */
  lemma LongOnFails(setting: nat, period: u32, duty: nat, k: nat)
    requires setting <= FULL && 4 <= period < 0x2000_0000 && duty < period && !HighIsFixed(period, duty)
    requires k * setting >= 6 * period + 2 && k * FULL - 4 * (k * setting) >= 6 * period + 4
    requires LongTime(k, period) < 0x2000_0000
    ensures var l := LongTime(k, period);
      l > 0 && var d := Durations(l, l, l, l, Active); InRange(d, period) && !CorrectionFits(d, period, duty, setting)
  {
    var l := LongTime(k, period);
    var d := Durations(l, l, l, l, Active);
    LongShare(k, setting);
    Compressed(l, period);
    assert WindowOf(d, period, duty) == Window(l, l, 3 * period, 3 * period);
    hide Share, WindowOf;
  }

  /** The same in the off state for settings above 75 percent. */
  lemma LongOffFails(setting: nat, period: u32, duty: nat, k: nat)
    requires setting <= FULL && 4 <= period < 0x2000_0000 && 0 < duty && HighIsFixed(period, duty)
    requires k * FULL - k * setting >= 6 * period + 2 && 4 * (k * setting) - 3 * (k * FULL) >= 6 * period + 4
    requires LongTime(k, period) < 0x2000_0000
    ensures var l := LongTime(k, period);
      l > 0 && var d := Durations(0, l, 0, l, Inactive); InRange(d, period) && !CorrectionFits(d, period, duty, setting)
  {
    var l := LongTime(k, period);
    var d := Durations(0, l, 0, l, Inactive);
    LongShare(k, setting);
    Compressed(l, period);
    assert WindowOf(d, period, duty) == Window(0, l, 0, 3 * period);
    hide Share, WindowOf;
  }

  /** The durations of a run at 100 percent with a period of 4000 ms, after the period has become 8000 ms. */
  const LONGER: Durations := Durations(4000, 9000, 7000, 8000, Inactive)

  /** A longer period at 100 percent: the duty time is then half of the period and the off time does not wrap,
      but the correction does. */
  lemma LongerPeriodFails()
    ensures DutyTime(FULL, 4000) == 4000 && !Fits(8000, 4000, FULL)
    ensures InRange(LONGER, 8000) && !CorrectionFits(LONGER, 8000, 4000, FULL)
    ensures WindowOf(LONGER, 8000, 4000) == Window(4000, 9000, 7000, 8000) && Share(17000, FULL) == 17000
  {
    hide WindowOf, Share;
    OrdinaryWindow(LONGER, 8000, 4000);
    ShareAtEnds(17000);
    ShareAtEnds(4000);
  }

  /** The share that is left is 0, a second less is asked for, and the wrapped number makes the actuator wait for
      another second instead of going on. */
  lemma LongerPeriodWaits()
    ensures AimedShare(0, 5000, 1000, 4000) == -1000
    ensures AdaptWait(5000, 6000, 4000, Longest(4000, 1000, 8000, 8000), -1000) == 0
    ensures WaitFor(LONGER, Window(4000, 9000, 7000, 8000), 8000, 4000, FULL) == 1000
  {
    hide Share, WaitFor;
    ShareAtEnds(17000);
    WaitCases(LONGER, Window(4000, 9000, 7000, 8000), 8000, 4000, FULL);
    assert InRange(LONGER, 8000);
    assert KeptShare(0, 5000, 1000, 4000) == RANGE - 1000;
  }

  /** A new period that is shorter than the duty time makes the off time wrap, until the setting is applied
      again. */
  lemma OffTimeFits(setting: nat, period: u32, shorter: u32)
    requires setting <= FULL
    ensures Minus(shorter, DutyTime(setting, period)) <= shorter <==> DutyTime(setting, period) <= shorter
    ensures DutyTime(FULL / 2, 4000) == 2000 && Minus(1000, 2000) == RANGE - 1000
  {
    hide DutyTime;
    HalfOf(4000);
    var duty := DutyTime(setting, period);
    if duty > shorter {
      Shifted(shorter - duty, 1);
      SmallStays(shorter - duty + RANGE);
    } else {
      SmallStays(shorter - duty);
    }
  }

  lemma HalfOf(period: u32)
    requires period % 2 == 0
    ensures DutyTime(FULL / 2, period) == period / 2
  {
  }
}
