/** How slow PWM weighs the last on-off periods and decides when to toggle. */
module PwmPlan {
  import opened Bytes
  import opened Products
  import opened Ticks
  import opened ChangeLog

  /** A setting of 100 percent, in steps of the fixed-point type with 12 binary digits behind the point. */
  const FULL := 409600

  /** The part of a time that the setting asks for. */
  function Share(time: nat, setting: nat): (t: nat)
    requires setting <= FULL
    ensures t <= time
  {
    AtMostAll(time, setting);
    time * setting / FULL
  }

  lemma ShareAtEnds(time: nat)
    ensures Share(time, 0) == 0 && Share(time, FULL) == time
  {
  }

  lemma AtMostAll(time: nat, setting: nat)
    requires setting <= FULL
    ensures 0 <= time * setting <= time * FULL
  {
    Signs(time, setting);
    Grow(setting, FULL, time);
    assert setting * time == time * setting;
  }

  /** The on-time of a period at this setting. */
  function DutyTime(setting: nat, period: u32): (t: u32)
    requires setting <= FULL
    ensures t <= period
  {
    Share(period, setting)
  }

  /** Sums of a few periods and of the counted durations stay below 2^32. */
  predicate InRange(d: Durations, period: u32) {
    && 4 <= period < 0x2000_0000 && d.currentPeriod < 0x2000_0000 && d.previousPeriod < 0x2000_0000
    && d.currentActive <= d.currentPeriod && d.previousActive <= d.previousPeriod
  }

  /** The on-time and the length of the current and the previous period, as far as they count. */
  datatype Window = Window(currentHigh: u32, currentPeriod: u32, previousHigh: u32, previousPeriod: u32) {
    function Elapsed(): nat {
      previousPeriod + currentPeriod
    }

    function High(): nat {
      previousHigh + currentHigh
    }

    function CurrentLow(): int {
      currentPeriod - currentHigh
    }

    function PreviousLow(): int {
      previousPeriod - previousHigh
    }
  }

  /** At 0 percent: the most recent two periods. */
  function LowWindow(d: Durations, period: u32): Window
    requires InRange(d, period)
  {
    var currentLow, previousLow := d.currentPeriod - d.currentActive, d.previousPeriod - d.previousActive;
    var low := if d.currentPeriod < 2 * period < d.currentPeriod + previousLow
               then Min(currentLow + previousLow, 2 * period - d.currentActive) else currentLow + previousLow;
    Window(2 * period - Min(low, 2 * period), 2 * period, 0, 0)
  }

  /** At 100 percent: the most recent two periods. */
  function HighWindow(d: Durations, period: u32): Window
    requires InRange(d, period)
  {
    var currentLow := d.currentPeriod - d.currentActive;
    var high := if d.currentPeriod < 2 * period < d.currentPeriod + d.previousActive
                then Min(d.currentActive + d.previousActive, 2 * period - currentLow)
                else d.currentActive + d.previousActive;
    Window(Min(high, 2 * period), 2 * period, 0, 0)
  }

  /** The shorter part of a period has a fixed length: on up to 50 percent, off above. */
  predicate HighIsFixed(period: u32, duty: nat) {
    2 * duty <= period
  }

  /** How much of the fixed part of a long period is beyond one PWM period. */
  function Excess(high: nat, length: nat, period: u32, duty: nat): nat
    requires high <= length
  {
    if length <= 2 * period then 0
    else Max(0, (if HighIsFixed(period, duty) then high else length - high) - period)
  }

  /** The previous period, compressed to three PWM periods or lengthened to one. */
  function Previous(high: nat, length: nat, period: u32, duty: nat): (r: (nat, nat))
    requires high <= length && duty <= period && period > 0
    ensures r.0 <= r.1 && period <= r.1 <= 3 * period
  {
    if length > 3 * period then
      ShareAtMost(high, 3 * period, length);
      (high * (3 * period) / length, 3 * period)
    else if length < period then (if high < duty then Min(high + (period - length), duty) else high, period)
    else (high, length)
  }

  lemma ShareAtMost(part: nat, whole: nat, length: nat)
    requires part <= length && length > 0
    ensures 0 <= part * whole / length <= whole
  {
    Signs(part, whole);
    Grow(part, length, whole);
    Commute(length, whole);
    DivAtMost(part * whole, length, whole);
  }

  function MixedWindow(d: Durations, period: u32, duty: nat): Window
    requires InRange(d, period) && duty <= period
  {
    var dropped := Excess(d.previousActive, d.previousPeriod, period, duty);
    var moved := Excess(d.currentActive, d.currentPeriod, period, duty);
    var fixed := HighIsFixed(period, duty);
    var previous := Previous(
      if fixed then d.previousActive - dropped + moved else d.previousActive,
      d.previousPeriod - dropped + moved, period, duty);
    Window(if fixed then d.currentActive - moved else d.currentActive, d.currentPeriod - moved, previous.0, previous.1)
  }

  function WindowOf(d: Durations, period: u32, duty: nat): Window
    requires InRange(d, period) && duty <= period
  {
    if duty == 0 then LowWindow(d, period) else if duty == period then HighWindow(d, period)
      else MixedWindow(d, period, duty)
  }

  /** The window is not empty and contains its on-times. */
  lemma WindowIsSound(d: Durations, period: u32, duty: nat)
    requires InRange(d, period) && duty <= period
    ensures var w := WindowOf(d, period, duty);
      && w.currentHigh <= w.currentPeriod && w.previousHigh <= w.previousPeriod && period <= w.Elapsed() < 0x8000_0000
      && (0 < duty < period ==> period <= w.previousPeriod <= 3 * period)
  {
  }

  /** Periods of ordinary length count as they are. */
  lemma OrdinaryWindow(d: Durations, period: u32, duty: nat)
    requires InRange(d, period) && 0 < duty < period
    requires d.currentPeriod <= 2 * period && period <= d.previousPeriod <= 2 * period
    ensures WindowOf(d, period, duty) == Window(d.currentActive, d.currentPeriod, d.previousActive, d.previousPeriod)
  {
  }

  // ---------- when to toggle ----------

  /** How long the adaptable part may become: stretched by half unless the previous period was short. */
  function Longest(normal: nat, previous: nat, previousPeriod: nat, period: u32): nat {
    var longest := Max(Max(normal, previous), 3 * normal / 4);
    if previousPeriod >= period then longest + longest / 2 else longest
  }

  /** The share of the last two periods that the setting asks for, in the state that adapts. While this
      state already lasts longer than the mean and the previous one was shorter, it is made less. */
  function AimedShare(share: nat, current: nat, previous: nat, normal: nat): int {
    var mean := Max(normal, share / 2);
    if current > mean && previous < mean then share - (current - previous) / 4 else share
  }

  /** What a 32-bit variable keeps of it. */
  function KeptShare(share: nat, current: nat, previous: nat, normal: nat): u32 {
    Wrap(AimedShare(share, current, previous, normal))
  }

  /** The remaining time of the adaptable part. At least three quarters of the normal time pass. */
  function AdaptWait(current: nat, total: nat, normal: nat, longest: nat, target: int): nat {
    var least := normal - normal / 4;
    if current < least then least - current
    else if current < longest && total < target then Min(target - total, longest - current)
    else 0
  }

  /** The remaining time in the on or off state, for settings between 0 and 100 percent. */
  function WaitFor(d: Durations, w: Window, period: u32, duty: nat, setting: nat): nat
    requires duty <= period && setting <= FULL
    requires w.currentHigh <= w.currentPeriod && w.previousHigh <= w.previousPeriod
      && d.previousActive <= d.previousPeriod
  {
    var off, highShare := period - duty, Share(w.Elapsed(), setting);
    match d.lastState
    case Active =>
      if HighIsFixed(period, duty) then Max(0, duty - w.currentHigh)
      else AdaptWait(w.currentHigh, w.High(), duty,
                     Longest(duty, d.previousActive, d.previousPeriod, period),
                     KeptShare(highShare, w.currentHigh, w.previousHigh, duty))
    case Inactive =>
      if HighIsFixed(period, duty)
      then AdaptWait(w.CurrentLow(), w.CurrentLow() + w.PreviousLow(), off,
                     Longest(off, d.previousPeriod - d.previousActive, d.previousPeriod, period),
                     KeptShare(w.Elapsed() - highShare, w.CurrentLow(), w.PreviousLow(), off))
      else Max(0, off - w.CurrentLow())
    case Unknown => 0
  }

  /** The planned wait by state. */
  lemma WaitCases(d: Durations, w: Window, period: u32, duty: nat, setting: nat)
    requires InRange(d, period) && duty <= period && setting <= FULL
    requires w.currentHigh <= w.currentPeriod && w.previousHigh <= w.previousPeriod
    ensures var wait, off := WaitFor(d, w, period, duty, setting), period - duty;
      match d.lastState
      case Active => wait ==
        if HighIsFixed(period, duty) then Max(0, duty - w.currentHigh)
        else AdaptWait(w.currentHigh, w.High(), duty,
                       Longest(duty, d.previousActive, d.previousPeriod, period),
                       KeptShare(Share(w.Elapsed(), setting), w.currentHigh, w.previousHigh, duty))
      case Inactive => wait ==
        if HighIsFixed(period, duty)
        then AdaptWait(w.CurrentLow(), w.CurrentLow() + w.PreviousLow(), off,
                       Longest(off, d.previousPeriod - d.previousActive, d.previousPeriod, period),
                       KeptShare(w.Elapsed() - Share(w.Elapsed(), setting), w.CurrentLow(), w.PreviousLow(), off))
        else Max(0, off - w.CurrentLow())
      case Unknown => wait == 0
  {
    hide Share, AdaptWait, KeptShare, Longest;
  }

  /** A share is large enough for the correction that may be taken from it. */
  predicate Covers(share: int, time: nat) {
    time / 4 <= share
  }

  /** Then the variable keeps it unchanged. */
  lemma KeptIsAimed(share: nat, current: nat, previous: nat, normal: nat)
    requires share < RANGE && Covers(share, current)
    ensures KeptShare(share, current, previous, normal) == AimedShare(share, current, previous, normal) >= 0
  {
  }

  lemma CoversLess(share: int, time: nat, less: nat)
    requires less <= time && Covers(share, time)
    ensures Covers(share, less)
  {
  }

  /** From 25 percent on the on state has at least a quarter of the time. */
  lemma ShareOfHigh(elapsed: nat, setting: nat)
    requires FULL <= 4 * setting && setting <= FULL
    ensures Covers(Share(elapsed, setting), elapsed)
  {
    var x := elapsed * setting;
    assert x == setting * elapsed;
    Associate(4, setting, elapsed);
    Grow(FULL, 4 * setting, elapsed);
    QuarterShare(x, elapsed);
  }

  lemma QuarterShare(x: nat, elapsed: nat)
    requires FULL * elapsed <= 4 * x
    ensures elapsed / 4 <= x / FULL
  {
  }

  /** Up to 75 percent the off state has at least a quarter of the time. */
  lemma ShareOfLow(elapsed: nat, setting: nat)
    requires 4 * setting <= 3 * FULL
    ensures Covers(elapsed - Share(elapsed, setting), elapsed)
  {
    assert elapsed * setting == setting * elapsed;
    Associate(4, setting, elapsed);
    Grow(4 * setting, 3 * FULL, elapsed);
    Signs(elapsed, setting);
    QuarterLeft(elapsed * setting, elapsed);
  }

  lemma QuarterLeft(y: nat, elapsed: nat)
    requires 4 * y <= 3 * FULL * elapsed
    ensures elapsed / 4 <= elapsed - y / FULL
  {
  }

  /** The duty time need not be in step with the setting, as after a change of the period. What adapts must
      then still be asked for at least a quarter of the time. */
  predicate Fits(period: u32, duty: nat, setting: nat) {
    && duty <= period && setting <= FULL
    && (0 < duty < period ==> if HighIsFixed(period, duty) then 4 * setting <= 3 * FULL else FULL <= 4 * setting)
  }

  /** A duty time that is in step always fits. */
  lemma InStepFits(setting: nat, period: u32)
    requires setting <= FULL && period >= 4
    ensures Fits(period, DutyTime(setting, period), setting)
  {
    var x := period * setting;
    Signs(period, setting);
    assert x == setting * period;
    if HighIsFixed(period, DutyTime(setting, period)) {
      LowProduct(x, period);
      Associate(4, setting, period);
      Cancel(4 * setting, 3 * FULL, period);
    } else {
      HighProduct(x, period);
      Associate(2, setting, period);
      Cancel(FULL, 2 * setting, period);
    }
  }

  lemma LowProduct(x: nat, period: nat)
    requires period >= 4 && 2 * (x / FULL) <= period
    ensures 4 * x <= 3 * FULL * period
  {
  }

  lemma HighProduct(x: nat, period: nat)
    requires 2 * (x / FULL) > period
    ensures 2 * x >= FULL * period
  {
  }

  lemma AdaptIsBounded(current: nat, total: nat, normal: nat, previous: nat, previousPeriod: nat, period: u32,
      target: int)
    ensures var wait := AdaptWait(current, total, normal, Longest(normal, previous, previousPeriod, period), target);
      current + wait >= normal - normal / 4 && wait <= 3 * Max(normal, previous) / 2
  {
  }

  lemma AdaptIsShort(current: nat, total: nat, normal: nat, previous: nat, previousPeriod: nat, period: u32,
      target: int)
    requires normal < 0x2000_0000 && previous < 0x2000_0000
    ensures AdaptWait(current, total, normal, Longest(normal, previous, previousPeriod, period), target) < 0x8000_0000
  {
    hide AdaptWait, Longest;
    AdaptIsBounded(current, total, normal, previous, previousPeriod, period, target);
  }

  lemma WaitIsShort(d: Durations, w: Window, period: u32, duty: nat, setting: nat)
    requires InRange(d, period) && duty <= period && setting <= FULL
    requires w.currentHigh <= w.currentPeriod && w.previousHigh <= w.previousPeriod
    ensures WaitFor(d, w, period, duty, setting) < 0x8000_0000
  {
    hide AdaptWait, KeptShare, Longest, Share, WaitFor;
    WaitCases(d, w, period, duty, setting);
    var share := Share(w.Elapsed(), setting);
    if d.lastState == Active {
      AdaptIsShort(w.currentHigh, w.High(), duty, d.previousActive, d.previousPeriod, period,
                   KeptShare(share, w.currentHigh, w.previousHigh, duty));
    } else {
      AdaptIsShort(w.CurrentLow(), w.CurrentLow() + w.PreviousLow(), period - duty,
                   d.previousPeriod - d.previousActive, d.previousPeriod, period,
                   KeptShare(w.Elapsed() - share, w.CurrentLow(), w.PreviousLow(), period - duty));
    }
  }
}
