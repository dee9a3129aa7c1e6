/** What the window of slow PWM counts of the last two on-off periods. */
module PwmWindows {
  import opened Bytes
  import opened Products
  import opened Ticks
  import opened ChangeLog
  import opened PwmPlan
  import opened Pwm

  // ---------- 0 and 100 percent ----------

  /** The on-time among the last x milliseconds: the present state, then the current, the previous and the one before
      that, as far as they are known. */
  function OnDuring(d: Durations, x: nat): int
    requires d.currentActive <= d.currentPeriod && d.previousActive <= d.previousPeriod
  {
    var low, before := d.currentPeriod - d.currentActive, d.previousPeriod - d.previousActive;
    if d.lastState == Active then
      Min(x, d.currentActive) + Max(0, Min(x - d.currentPeriod, d.previousActive))
    else
      Max(0, Min(x - low, d.currentActive)) + Max(0, Min(x - d.currentPeriod - before, d.previousActive))
  }

  /** At 0 percent, when off: the window counts the on-time in the last two PWM periods, exactly when these lie in the
      last two on-off periods, and the current one is shorter, or was preceded by no off time, or they are all off. */
  lemma LowWindowIsTrue(d: Durations, period: u32)
    requires InRange(d, period) && d.lastState == Inactive
    ensures var w, low := WindowOf(d, period, 0), d.currentPeriod - d.currentActive;
      && w.Elapsed() == 2 * period
      && (w.High() == OnDuring(d, 2 * period) <==>
          if 2 * period <= d.currentPeriod then d.previousActive == d.previousPeriod || 2 * period <= low
          else 2 * period <= d.currentPeriod + d.previousPeriod)
  {
  }

  /** Six of the last eight seconds were on, but the window of two periods of 4 s shows none of them: the off time
      before the long on-time is counted as if it were recent. */
  lemma LowWindowMisses()
    ensures var d := Durations(10000, 12000, 0, 20000, Inactive);
      InRange(d, 4000) && OnDuring(d, 8000) == 6000 && WindowOf(d, 4000, 0).High() == 0
  {
  }

  /** At 100 percent, when on: exactly when the current period is shorter, or was preceded by no on-time, or the last
      two PWM periods are all on. */
  lemma HighWindowIsTrue(d: Durations, period: u32)
    requires InRange(d, period) && d.lastState == Active
    ensures var w := WindowOf(d, period, period);
      && w.Elapsed() == 2 * period
      && (w.High() == OnDuring(d, 2 * period) <==>
          2 * period <= d.currentPeriod ==> d.previousActive == 0 || 2 * period <= d.currentActive)
  {
  }

  /** After two PWM periods in the state of 0 or 100 percent, just that is achieved. */
  lemma ExtremesAchieved(d: Durations, period: u32, wait: nat, before: real)
    requires InRange(d, period) && 0.0 <= before <= 100.0
    ensures d.lastState == Inactive && 2 * period <= d.currentPeriod - d.currentActive ==>
      Achieved(before, Percentage(WindowOf(d, period, 0), wait, Inactive), Inactive, 0) == (0.0, true)
    ensures d.lastState == Active && 2 * period <= d.currentActive && 100 * (2 * period + wait) < RANGE ==>
      Achieved(before, Percentage(WindowOf(d, period, period), wait, Active), Active, FULL) == (100.0, true)
  {
    hide Quotient;
    WholeIsAll(0, 2 * period + wait);
    WholeIsAll(100, 2 * period + wait);
  }

  lemma WholeIsAll(part: nat, whole: nat)
    requires whole > 0
    ensures part * whole >= 0 && Quotient(part * whole, whole) == part as real
  {
    Signs(part, whole);
    assert (part * whole) as real == part as real * whole as real;
  }

  /** The achieved value moves only towards the percentage, and only in the direction of the state; in an unknown state
      it is the setting, and invalid. */
  lemma AchievedMoves(before: real, percentage: real, state: State, setting: nat)
    requires setting <= FULL
    ensures var (after, valid) := Achieved(before, percentage, state, setting);
      && (valid <==> state != Unknown)
      && (valid ==> after == before || after == percentage)
      && (state == Active ==> after >= before && after >= percentage)
      && (state == Inactive ==> after <= before && after <= percentage)
      && (state == Unknown ==> after * FULL as real == 100.0 * setting as real)
  {
  }

  // ---------- settings in between ----------

  /** The part of a period whose length is fixed, and the part that adapts. */
  function Fixed(high: nat, length: nat, period: u32, duty: nat): int {
    if HighIsFixed(period, duty) then high else length - high
  }

  /** What is counted of the fixed part: one PWM period of a long on-off period, otherwise all of it. */
  function CountedFixed(high: nat, length: nat, period: u32, duty: nat): int {
    if length > 2 * period then Min(Fixed(high, length, period, duty), period) else Fixed(high, length, period, duty)
  }

  /** In the current period the part that adapts counts as it is, and the fixed part is limited. */
  lemma CurrentCounted(d: Durations, period: u32, duty: nat)
    requires InRange(d, period) && 0 < duty < period
    ensures var w := WindowOf(d, period, duty);
      && w.currentHigh <= w.currentPeriod
      && Fixed(w.currentHigh, w.currentPeriod, period, duty)
         == CountedFixed(d.currentActive, d.currentPeriod, period, duty)
      && w.currentPeriod - Fixed(w.currentHigh, w.currentPeriod, period, duty)
         == d.currentPeriod - Fixed(d.currentActive, d.currentPeriod, period, duty)
  {
    hide Previous;
  }

  /** The on-time and the length of the previous period before it is fitted: limited in the same way, with what the
      current period has lost. */
  function BeforeFit(d: Durations, period: u32, duty: nat): (int, int) {
    var lost := Fixed(d.currentActive, d.currentPeriod, period, duty)
                - CountedFixed(d.currentActive, d.currentPeriod, period, duty);
    var fixed := CountedFixed(d.previousActive, d.previousPeriod, period, duty) + lost;
    var adapts := d.previousPeriod - Fixed(d.previousActive, d.previousPeriod, period, duty);
    (if HighIsFixed(period, duty) then fixed else adapts, fixed + adapts)
  }

  /** The previous period has one to three PWM periods. A longer one is compressed in proportion, rounded down. A
      shorter one is lengthened by on- or off time, whichever brings the on-time closest to the duty time. */
  lemma PreviousCounted(d: Durations, period: u32, duty: nat)
    requires InRange(d, period) && 0 < duty < period
    ensures var w := WindowOf(d, period, duty);
      var (high, length) := BeforeFit(d, period, duty);
      && 0 <= high <= length
      && (period <= length <= 3 * period ==> w.previousHigh == high && w.previousPeriod == length)
      && (length > 3 * period ==>
          && w.previousPeriod == 3 * period
          && w.previousHigh * length <= high * (3 * period) < (w.previousHigh + 1) * length)
      && (length < period ==> w.previousPeriod == period && Closest(w.previousHigh, high, period - length, duty))
  {
    var (high, length) := BeforeFit(d, period, duty);
    assert 0 <= high <= length;
    MixedIsFitted(d, period, duty);
    FitCounts(high, length, period, duty);
  }

  /** On-time that was lengthened by at most so much, as close to the duty time as that gets. */
  predicate Closest(now: int, high: int, missing: int, duty: int) {
    && high <= now <= high + missing
    && (now < duty ==> now == high + missing) && (now > duty ==> now == high)
  }

  lemma MixedIsFitted(d: Durations, period: u32, duty: nat)
    requires InRange(d, period) && 0 < duty < period
    ensures var (high, length) := BeforeFit(d, period, duty);
      && 0 <= high <= length
      && var w := WindowOf(d, period, duty); (w.previousHigh, w.previousPeriod) == Previous(high, length, period, duty)
  {
    hide Previous;
  }

  lemma FitCounts(high: nat, length: nat, period: u32, duty: nat)
    requires high <= length && 0 < duty < period
    ensures var (h, l) := Previous(high, length, period, duty);
      && (period <= length <= 3 * period ==> h == high && l == length)
      && (length > 3 * period ==> l == 3 * period && h * length <= high * (3 * period) < (h + 1) * length)
      && (length < period ==> l == period && Closest(h, high, period - length, duty))
  {
    if length > 3 * period {
      Signs(high, 3 * period);
      DivBounds(high * (3 * period), length);
    }
  }
}
