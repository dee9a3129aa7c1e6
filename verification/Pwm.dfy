/** Slow pulse-width modulation of a constrained actuator. */
module Pwm {
  import opened Bytes
  import opened Ticks
  import opened ChangeLog
  import opened Constraints
  import opened PwmPlan

  /** What an update does: wait, keep asking for the state of 0 or 100 percent, or toggle. */
  datatype Action = Wait(time: nat) | Hold(state: State) | Toggle(state: State)

  function ActionFor(d: Durations, period: u32, setting: nat, duty: nat, on: bool): Action
    requires InRange(d, period) && duty <= period && setting <= FULL
  {
    WindowIsSound(d, period, duty);
    if d.lastState == Active && duty == period then Hold(Active)
    else if d.lastState == Inactive && duty == 0 then Hold(Inactive)
    else
      var wait := WaitFor(d, WindowOf(d, period, duty), period, duty, setting);
      if on && wait == 0 then Toggle(if d.lastState == Inactive then Active else Inactive) else Wait(wait)
  }

  /** The time until the actuator is expected to change, given what a constraint makes it wait. */
  function WaitTime(action: Action, remaining: nat): nat {
    match action
    case Wait(time) => time
    case Hold(_) => Max(remaining, 1000)
    case Toggle(_) => remaining
  }

  /** What the action asks of the actuator. */
  function Asked(action: Action, a: Actuator, now: u32, ts: seq<Target>, reachable: set<nat>): Outcome
    requires AllFit(a.constraints, |ts|)
  {
    if action.Wait? then Outcome(0, a, ts) else Desire(a, action.state, now, ts, reachable)
  }

  /** The actuator and the mutexes after an update, the wait that is expected then, and the state during the wait. */
  datatype Response = Response(actuator: Actuator, targets: seq<Target>, wait: nat, state: State)

  function Respond(d: Durations, period: u32, setting: nat, duty: nat, on: bool, a: Actuator, now: u32,
                   ts: seq<Target>, reachable: set<nat>): Response
    requires InRange(d, period) && duty <= period && setting <= FULL && AllFit(a.constraints, |ts|)
  {
    var action := ActionFor(d, period, setting, duty, on);
    var o := Asked(action, a, now, ts, reachable);
    Response(o.actuator, o.targets, WaitTime(action, o.remaining),
             if action.Toggle? then o.actuator.log.output else d.lastState)
  }

  /** The time until the next update: within a second, and not before half of the wait. */
  function Pause(wait: nat): nat {
    Min(1000, wait / 2 + 1)
  }

  function Quotient(part: nat, whole: nat): real
    requires whole > 0
  {
    part as real / whole as real
  }

  /** The percentage of the window and the wait that the actuator is on. The product is kept in 32 bits. */
  function Percentage(w: Window, wait: nat, state: State): real
    requires w.Elapsed() + wait > 0
  {
    Quotient(Wrap(100 * (w.High() + if state == Active then wait else 0)), w.Elapsed() + wait)
  }

  /** The achieved value moves only in the direction of the state; it is invalid in an unknown state. */
  function Achieved(before: real, percentage: real, state: State, setting: nat): (real, bool) {
    match state
    case Active => (if percentage >= before then percentage else before, true)
    case Inactive => (if percentage <= before then percentage else before, true)
    case Unknown => (setting as real / 4096.0, false)
  }

  lemma PercentageInRange(w: Window, wait: nat, state: State)
    requires w.Elapsed() + wait > 0 && w.currentHigh <= w.currentPeriod && w.previousHigh <= w.previousPeriod
    ensures 0.0 <= Percentage(w, wait, state) <= 100.0
  {
    var high, total := w.High() + (if state == Active then wait else 0), w.Elapsed() + wait;
    hide Wrap, Quotient;
    WrapAtMost(100 * high);
    QuotientAtMost(Wrap(100 * high), total, 100);
  }

  /** It is the true percentage exactly while the on-time, with the wait, is below 42949673 ms, about twelve
      hours. */
  lemma PercentageIsTrue(w: Window, wait: nat, state: State)
    requires w.Elapsed() + wait > 0
    ensures var high := w.High() + if state == Active then wait else 0;
      Percentage(w, wait, state) == Quotient(100 * high, w.Elapsed() + wait) <==> high < 42949673
  {
    var high, total := w.High() + (if state == Active then wait else 0), w.Elapsed() + wait;
    SameQuotient(Wrap(100 * high), 100 * high, total);
    WrapSame(high);
    hide *;
  }

  lemma QuotientTimes(a: nat, whole: nat)
    requires whole > 0
    ensures Quotient(a, whole) * whole as real == a as real
  {
  }

  lemma WrapSame(high: nat)
    ensures Wrap(100 * high) == 100 * high <==> high < 42949673
  {
  }

  lemma SameQuotient(a: nat, b: nat, whole: nat)
    requires whole > 0
    ensures Quotient(a, whole) == Quotient(b, whole) <==> a == b
  {
    if Quotient(a, whole) == Quotient(b, whole) {
      QuotientTimes(a, whole);
      QuotientTimes(b, whole);
    }
  }

  lemma WrapAtMost(x: nat)
    ensures Wrap(x) <= x
  {
  }

  lemma QuotientAtMost(part: nat, whole: nat, bound: nat)
    requires whole > 0 && part <= bound * whole
    ensures 0.0 <= Quotient(part, whole) <= bound as real
  {
    assert part as real <= bound as real * whole as real;
  }

  // ---------- waits of less than half the clock range ----------

  const HALF: nat := 0x8000_0000

  /** No constraint makes the actuator wait for half the clock range. */
  predicate ShortLimits(cs: seq<Constraint>) {
    forall i :: 0 <= i < |cs| ==> !cs[i].Mutex? ==> cs[i].limit < HALF
  }

  predicate ShortWaits(ts: seq<Target>) {
    forall k :: 0 <= k < |ts| ==> ts[k].hold < HALF - 1 && ts[k].timeRemaining < HALF - 1
  }

  predicate ShortHolds(cs: seq<Constraint>) {
    forall i :: 0 <= i < |cs| ==> cs[i].Mutex? ==> cs[i].hold < HALF - 1
  }

  lemma AllowedShort(c: Constraint, val: State, now: u32, log: Log, ts: seq<Target>, reachable: set<nat>)
    requires c.Fits(|ts|) && ShortLimits([c]) && ShortHolds([c]) && ShortWaits(ts)
    ensures var r := Allowed(c, val, now, log, ts, reachable); r.remaining < HALF && ShortWaits(r.targets)
  {
    hide TimeInState, TimeOff;
    assert [c][0] == c;
  }

  lemma {:induction false} CheckShort(cs: seq<Constraint>, val: State, now: u32, log: Log, ts: seq<Target>,
      reachable: set<nat>)
    requires AllFit(cs, |ts|) && ShortLimits(cs) && ShortHolds(cs) && ShortWaits(ts)
    ensures Check(cs, val, now, log, ts, reachable).remaining < HALF
  {
    hide Allowed, ShortWaits;
    if cs != [] {
      AllowedShort(cs[0], val, now, log, ts, reachable);
      CheckShort(cs[1..], val, now, log, Allowed(cs[0], val, now, log, ts, reachable).targets, reachable);
    }
  }

  lemma DesireShort(a: Actuator, val: State, now: u32, ts: seq<Target>, reachable: set<nat>)
    requires AllFit(a.constraints, |ts|) && ShortLimits(a.constraints) && ShortHolds(a.constraints) && ShortWaits(ts)
    ensures Desire(a, val, now, ts, reachable).remaining < HALF
  {
    hide Check, ShortLimits, ShortHolds, ShortWaits;
    CheckShort(a.constraints, val, now, a.log.(lastUpdateTime := now), ts, reachable);
  }

  class ActuatorPwm {
    const target: ActuatorDigitalConstrained?
    var period: u32
    var dutyTime: u32
    var dutySetting: nat
    var dutyAchieved: real
    var settingValid: bool
    var valueValid: bool
    var enabled: bool

    ghost predicate Valid()
      reads this
    {
      dutySetting <= FULL && 0.0 <= dutyAchieved <= 100.0
    }

    /** The duty time is in step with the setting and the period. Setting a period alone does not restore this. */
    ghost predicate InSync()
      reads this
    {
      Valid() && dutyTime == DutyTime(dutySetting, period)
    }

    /** The duty time is no longer than the period. */
    ghost predicate Within()
      reads this
    {
      Valid() && dutyTime <= period
    }

    constructor (target: ActuatorDigitalConstrained?, period: u32)
      ensures this.target == target && this.period == period && InSync() && dutySetting == 0
    {
      this.target, this.period := target, period;
      dutyTime, dutySetting, dutyAchieved := 0, 0, 0.0;
      settingValid, valueValid, enabled := true, true, true;
      new;
      ShareAtEnds(period);
    }

    /** Sets the duty in steps of the fixed-point type, limited to 0 and 100 percent. */
    method SetSetting(val: int)
      requires Valid()
      modifies this`dutySetting, this`dutyTime, this`settingValid
      ensures InSync() && settingValid && dutySetting == Max(0, Min(val, FULL))
    {
      hide Share;
      if val <= 0 {
        dutySetting := 0;
        dutyTime := 0;
        ShareAtEnds(period);
      } else if val >= FULL {
        dutySetting := FULL;
        dutyTime := period;
        ShareAtEnds(period);
      } else {
        dutySetting := val;
        NestedDivision(period, val);
        var unscaledTime := period * val / 4096;
        dutyTime := unscaledTime / 100;
      }
      settingValid := true;
    }

    lemma NestedDivision(time: nat, setting: nat)
      requires setting <= FULL
      ensures time * setting >= 0 && time * setting / 4096 / 100 == Share(time, setting)
    {
      AtMostAll(time, setting);
      TwoDivisions(time * setting);
    }

    lemma TwoDivisions(x: nat)
      ensures x / 4096 / 100 == x / FULL
    {
    }

    method SetPeriod(p: u32)
      requires Valid()
      modifies this`period
      ensures Valid() && period == p
    {
      period := p;
    }

    /** The parts of the last two periods that count. */
    method LimitWindow(d: Durations) returns (w: Window)
      requires InRange(d, period) && dutyTime <= period
      ensures w == WindowOf(d, period, dutyTime)
    {
      hide LowWindow, HighWindow, MixedWindow;
      if dutyTime == 0 {
        w := LimitLow(d);
      } else if dutyTime == period {
        w := LimitHigh(d);
      } else {
        w := LimitMixed(d);
      }
    }

    method LimitLow(d: Durations) returns (w: Window)
      requires InRange(d, period)
      ensures w == LowWindow(d, period)
    {
      hide Min;
      var twoPeriods: u32 := 2 * period;
      var previousLowTime: u32 := d.previousPeriod - d.previousActive;
      var currentLowTime: u32 := d.currentPeriod - d.currentActive;
      if d.currentPeriod < twoPeriods && d.currentPeriod + previousLowTime > twoPeriods {
        currentLowTime := Least(currentLowTime + previousLowTime, twoPeriods - d.currentActive);
      } else {
        currentLowTime := currentLowTime + previousLowTime;
      }
      currentLowTime := Least(currentLowTime, twoPeriods);
      w := Window(twoPeriods - currentLowTime, twoPeriods, 0, 0);
    }

    method LimitHigh(d: Durations) returns (w: Window)
      requires InRange(d, period)
      ensures w == HighWindow(d, period)
    {
      hide Min;
      var twoPeriods: u32 := 2 * period;
      var currentHighTime: u32 := d.currentActive;
      if d.currentPeriod < twoPeriods && d.currentPeriod + d.previousActive > twoPeriods {
        var currentLowTime: u32 := d.currentPeriod - d.currentActive;
        currentHighTime := Least(d.currentActive + d.previousActive, twoPeriods - currentLowTime);
      } else {
        currentHighTime := currentHighTime + d.previousActive;
      }
      currentHighTime := Least(currentHighTime, twoPeriods);
      w := Window(currentHighTime, twoPeriods, 0, 0);
    }

    method LimitMixed(d: Durations) returns (w: Window)
      requires InRange(d, period) && 0 < dutyTime < period
      ensures w == MixedWindow(d, period, dutyTime)
    {
      hide Previous, Excess;
      var previousHigh, previousPeriod := DropExcess(d.previousActive, d.previousPeriod);
      var currentHigh, currentPeriod := DropExcess(d.currentActive, d.currentPeriod);
      previousHigh := previousHigh + (d.currentActive - currentHigh);
      previousPeriod := previousPeriod + (d.currentPeriod - currentPeriod);
      previousHigh, previousPeriod := FitPrevious(previousHigh, previousPeriod);
      w := Window(currentHigh, currentPeriod, previousHigh, previousPeriod);
    }

    static method Least(a: u32, b: u32) returns (m: u32)
      ensures m == Min(a, b) && m <= a && m <= b
    {
      m := if a <= b then a else b;
    }

    /** Caps the fixed part of a period that is longer than two PWM periods. */
    method DropExcess(high: u32, length: u32) returns (high': u32, length': u32)
      requires high <= length && dutyTime <= period < 0x2000_0000
      ensures var x := Excess(high, length, period, dutyTime);
        length' == length - x && high' == (if HighIsFixed(period, dutyTime) then high - x else high) && high' <= length'
    {
      high', length' := high, length;
      var twoPeriods: u32 := 2 * period;
      if length > twoPeriods {
        if 2 * dutyTime <= period {
          if high > period {
            var excess: u32 := high - period;
            high' := period;
            length' := length - excess;
          }
        } else {
          var low: u32 := length - high;
          if low > period {
            var excess: u32 := low - period;
            length' := length - excess;
          }
        }
      }
    }

    /** Compresses the previous period to three PWM periods or lengthens it to one. The product is
        formed in 64 bits. */
    method FitPrevious(high: u32, length: u32) returns (high': u32, length': u32)
      requires high <= length && 0 < dutyTime < period < 0x2000_0000
      ensures (high', length') == Previous(high, length, period, dutyTime)
    {
      high', length' := high, length;
      var maxPeriod: u32 := 3 * period;
      if length > maxPeriod {
        ShareAtMost(high, maxPeriod, length);
        high' := high * maxPeriod / length;
        length' := maxPeriod;
      } else if length < period {
        var shortenedBy: u32 := period - length;
        length' := period;
        if high < dutyTime {
          high' := Min(high + shortenedBy, dutyTime);
        }
      }
    }

    /** The remaining time in the active state. */
    method WaitHigh(d: Durations, w: Window) returns (wait: u32)
      requires InRange(d, period) && Within() && dutyTime != period && w == WindowOf(d, period, dutyTime)
      requires d.lastState == Active
      requires w.currentHigh <= w.currentPeriod && w.previousHigh <= w.previousPeriod && w.Elapsed() < HALF
      ensures wait == WaitFor(d, w, period, dutyTime, dutySetting)
    {
      hide WindowOf, Share, AdaptWait, KeptShare, Longest, WaitFor;
      WaitCases(d, w, period, dutyTime, dutySetting);
      wait := 0;
      if 2 * dutyTime <= period {
        if w.currentHigh < dutyTime {
          wait := dutyTime - w.currentHigh;
        }
      } else {
        wait := AdaptHigh(d, w);
      }
    }

    method AdaptHigh(d: Durations, w: Window) returns (wait: u32)
      requires dutySetting <= FULL && dutyTime < 0x2000_0000 && d.previousActive < 0x2000_0000
      requires w.currentHigh <= w.currentPeriod && w.previousHigh <= w.previousPeriod && w.Elapsed() < HALF
      ensures wait == AdaptWait(w.currentHigh, w.previousHigh + w.currentHigh, dutyTime,
                                Longest(dutyTime, d.previousActive, d.previousPeriod, period),
                                KeptShare(Share(w.Elapsed(), dutySetting), w.currentHigh, w.previousHigh, dutyTime))
    {
      hide Share, AdaptWait, KeptShare, Longest;
      var twoPeriodElapsed: u32 := w.previousPeriod + w.currentPeriod;
      wait := Adapt(w.currentHigh, w.previousHigh, dutyTime, d.previousActive, d.previousPeriod,
                    Share(twoPeriodElapsed, dutySetting));
    }

    /** The remaining time in the inactive state. */
    method WaitLow(d: Durations, w: Window) returns (wait: u32)
      requires InRange(d, period) && Within() && dutyTime != 0 && w == WindowOf(d, period, dutyTime)
      requires d.lastState == Inactive
      requires w.currentHigh <= w.currentPeriod && w.previousHigh <= w.previousPeriod && w.Elapsed() < HALF
      ensures wait == WaitFor(d, w, period, dutyTime, dutySetting)
    {
      hide WindowOf, Share, AdaptWait, KeptShare, Longest, WaitFor;
      WaitCases(d, w, period, dutyTime, dutySetting);
      wait := 0;
      var invDutyTime: u32 := period - dutyTime;
      var currentLowTime: u32 := w.currentPeriod - w.currentHigh;
      if 2 * dutyTime > period {
        if currentLowTime < invDutyTime {
          wait := invDutyTime - currentLowTime;
        }
      } else {
        wait := AdaptLow(d, w, currentLowTime, invDutyTime);
      }
    }

    method AdaptLow(d: Durations, w: Window, currentLowTime: u32, invDutyTime: u32) returns (wait: u32)
      requires dutySetting <= FULL && invDutyTime < 0x2000_0000
      requires d.previousActive <= d.previousPeriod < 0x2000_0000
      requires currentLowTime == w.CurrentLow() && w.previousHigh <= w.previousPeriod && w.Elapsed() < HALF
      ensures wait == AdaptWait(currentLowTime, currentLowTime + w.PreviousLow(), invDutyTime,
                                Longest(invDutyTime, d.previousPeriod - d.previousActive, d.previousPeriod, period),
                                KeptShare(w.Elapsed() - Share(w.Elapsed(), dutySetting), currentLowTime,
                                  w.PreviousLow(), invDutyTime))
    {
      hide Share, AdaptWait, KeptShare, Longest;
      var twoPeriodElapsed: u32 := w.previousPeriod + w.currentPeriod;
      var previousLowTime: u32 := w.previousPeriod - w.previousHigh;
      wait := Adapt(currentLowTime, previousLowTime, invDutyTime, d.previousPeriod - d.previousActive, d.previousPeriod,
                    twoPeriodElapsed - Share(twoPeriodElapsed, dutySetting));
    }

    /** Makes successive periods converge, in 32 bits: the subtraction may wrap. */
    method CorrectShare(current: u32, previous: u32, normal: u32, share: u32) returns (target: u32)
      ensures target == KeptShare(share, current, previous, normal)
    {
      target := share;
      var mean: u32 := Max(normal, target / 2);
      if current > mean && previous < mean {
        var correction: u32 := (current - previous) / 4;
        target := Minus(target, correction);
      } else {
        SmallStays(share);
      }
    }

    /** The remaining time of the part that adapts, between three quarters of the normal time and its
        longest time, so that the last two periods get their share. */
    method Adapt(current: u32, previous: u32, normal: u32, previousTime: u32, previousPeriod: u32, share: u32)
        returns (wait: u32)
      requires current + previous < HALF
      requires normal < 0x2000_0000 && previousTime < 0x2000_0000
      ensures wait == AdaptWait(current, previous + current, normal,
        Longest(normal, previousTime, previousPeriod, period),
                                KeptShare(share, current, previous, normal))
    {
      hide KeptShare;
      wait := 0;
      var least: u32 := normal - normal / 4;
      if current < least {
        wait := least - current;
      } else {
        var longest: u32 := Max(Max(normal, previousTime), 3 * normal / 4);
        if previousPeriod >= period {
          longest := longest + longest / 2;
        }
        if current < longest {
          var target := CorrectShare(current, previous, normal, share);
          var total: u32 := previous + current;
          if total < target {
            wait := Min(target - total, longest - current);
          }
        }
      }
    }

    ghost predicate CanUpdate(now: u32)
      requires target != null && target.log.Valid()
      reads this, target, target.log, target.log.history, target.objects
    {
      && Within() && target.Valid()
      && InRange(DurationsOf(target.log.history[..], now), period)
      && ShortLimits(target.constraints) && ShortHolds(target.constraints) && ShortWaits(target.Targets())
    }

    /** Toggles the actuator when it is time, and estimates what is achieved. The next update follows
        within a second, and not before half of the remaining time. */
    method SlowPwmUpdate(now: u32, reachable: set<nat>) returns (next: u32)
      requires target != null ==> target.log.Valid() && CanUpdate(now)
      modifies this`dutyAchieved, this`valueValid
      modifies if target == null then {} else {target, target.log, target.log.history} + set o | o in target.objects
      ensures target == null ==> next == Plus(now, 1000) && dutyAchieved == old(dutyAchieved)
      ensures target != null ==> target.Valid() && Within() && Updated(
        now, reachable, next, old(DurationsOf(target.log.history[..], now)), old(target.View()),
          old(target.Targets()), old(dutyAchieved))
    {
      hide Updated, CanUpdate;
      if target != null {
        next := UpdateTarget(now, reachable);
      } else {
        next := Plus(now, 1000);
      }
    }

    method UpdateTarget(now: u32, reachable: set<nat>) returns (next: u32)
      requires target != null && target.log.Valid() && CanUpdate(now)
      modifies this`dutyAchieved, this`valueValid, target, target.log, target.log.history, target.objects
      ensures target.Valid() && Within() && Updated(
        now, reachable, next, old(DurationsOf(target.log.history[..], now)), old(target.View()),
          old(target.Targets()), old(dutyAchieved))
    {
      hide WindowOf, WaitFor, DutyTime, Desire, Percentage, Achieved, ActionFor, DurationsOf, ShortWaits, ShortLimits,
        ShortHolds, Respond;
      ghost var view, ts := target.View(), target.Targets();
      var d := target.log.ActiveDurations(now);
      var w := LimitWindow(d);
      WindowIsSound(d, period, dutyTime);
      var wait, state := Drive(d, w, now, reachable);
      ActionIsShort(d, w, period, dutySetting, dutyTime, enabled && settingValid, view, now, ts, reachable);
      PercentageInRange(w, wait, state);
      Achieve(w, wait, state);
      next := Plus(now, Min(1000, wait / 2 + 1));
    }

    ghost predicate Updated(now: u32, reachable: set<nat>, next: u32, d: Durations, view: Actuator, ts: seq<Target>,
        before: real)
      requires target != null && target.log.Valid() && AllFit(view.constraints, |ts|)
      requires Within() && InRange(d, period)
      reads this, target, target.log, target.log.history, target.objects
    {
      WindowIsSound(d, period, dutyTime);
      var w := WindowOf(d, period, dutyTime);
      var r := Respond(d, period, dutySetting, dutyTime, enabled && settingValid, view, now, ts, reachable);
      && target.View() == r.actuator && target.Targets() == r.targets
      && (dutyAchieved, valueValid) == Achieved(before, Percentage(w, r.wait, r.state), r.state, dutySetting)
      && next == Plus(now, Pause(r.wait))
    }

    /** Decides, and asks the actuator if needed. */
    method Drive(d: Durations, w: Window, now: u32, reachable: set<nat>) returns (wait: u32, state: State)
      requires target != null && target.Valid() && Within() && InRange(d, period)
      requires w == WindowOf(d, period, dutyTime)
      requires w.currentHigh <= w.currentPeriod && w.previousHigh <= w.previousPeriod && w.Elapsed() < HALF
      modifies target, target.log, target.log.history, target.objects
      ensures target.Valid() && Within()
      ensures Response(target.View(), target.Targets(), wait, state)
              == Respond(d, period, dutySetting, dutyTime, enabled && settingValid, old(target.View()), now,
                         old(target.Targets()), reachable)
    {
      hide WindowOf, WaitFor, Desire;
      ExtremeWindow(d, period, dutyTime);
      state := d.lastState;
      wait := 0;
      if d.lastState == Active {
        if dutyTime == period {
          var actWait := target.SetDesiredState(Active, now, reachable);
          wait := Max(actWait, if w.currentPeriod + 1000 <= period then period - w.currentPeriod else 1000);
          return;
        }
        wait := WaitHigh(d, w);
      } else if d.lastState == Inactive {
        if dutyTime == 0 {
          var actWait := target.SetDesiredState(Inactive, now, reachable);
          wait := Max(actWait, if w.currentPeriod + 1000 <= period then period - w.currentPeriod else 1000);
          return;
        }
        wait := WaitLow(d, w);
      } else {
        WaitCases(d, w, period, dutyTime, dutySetting);
      }
      if enabled && settingValid && wait == 0 {
        if d.lastState == Inactive {
          wait := target.SetDesiredState(Active, now, reachable);
        } else {
          wait := target.SetDesiredState(Inactive, now, reachable);
        }
        state := target.log.output;
      }
    }

    method Achieve(w: Window, wait: u32, state: State)
      requires Valid() && 0 < w.Elapsed() + wait < RANGE && w.High() <= w.Elapsed()
        && 0.0 <= Percentage(w, wait, state) <= 100.0
      modifies this`dutyAchieved, this`valueValid
      ensures Valid()
      ensures (dutyAchieved, valueValid) == Achieved(old(dutyAchieved), Percentage(w, wait, state), state, dutySetting)
    {
      var twoPeriodTotal: u32 := w.previousPeriod + w.currentPeriod + wait;
      var twoPeriodHighTime: u32 := w.previousHigh + w.currentHigh;
      if state == Active {
        twoPeriodHighTime := twoPeriodHighTime + wait;
      }
      var achieved := Quotient(Wrap(100 * twoPeriodHighTime), twoPeriodTotal);
      valueValid := true;
      if state == Active {
        if achieved >= dutyAchieved {
          dutyAchieved := achieved;
        }
      } else if state == Inactive {
        if achieved <= dutyAchieved {
          dutyAchieved := achieved;
        }
      } else {
        valueValid := false;
        dutyAchieved := dutySetting as real / 4096.0;
        SettingAtMost(dutySetting);
      }
    }
  }

  /** The window and the wait together do not wrap. */
  lemma ActionIsShort(d: Durations, w: Window, period: u32, setting: nat, duty: nat, on: bool,
                      a: Actuator, now: u32, ts: seq<Target>, reachable: set<nat>)
    requires InRange(d, period) && duty <= period && setting <= FULL && w == WindowOf(d, period, duty)
    requires AllFit(a.constraints, |ts|) && ShortLimits(a.constraints) && ShortHolds(a.constraints) && ShortWaits(ts)
    ensures w.Elapsed() + Respond(d, period, setting, duty, on, a, now, ts, reachable).wait < RANGE
  {
    hide WindowOf, WaitFor, Desire, ShortLimits, ShortHolds, ShortWaits;
    WindowIsSound(d, period, duty);
    WaitIsShort(d, w, period, duty, setting);
    DesireShort(a, Active, now, ts, reachable);
    DesireShort(a, Inactive, now, ts, reachable);
  }

  lemma SettingAtMost(setting: nat)
    requires setting <= FULL
    ensures 0.0 <= setting as real / 4096.0 <= 100.0
  {
    QuotientAtMost(setting, 4096, 100);
  }

  lemma ExtremeWindow(d: Durations, period: u32, duty: nat)
    requires InRange(d, period) && duty <= period
    ensures duty == 0 || duty == period ==> WindowOf(d, period, duty).currentPeriod == 2 * period
  {
  }
}
