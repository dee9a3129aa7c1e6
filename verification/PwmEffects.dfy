/** What slow PWM makes of its actuator: the state after an update, and the rhythm of whole runs. */
module PwmEffects {
  import opened Bytes
  import opened Products
  import opened Ticks
  import opened ChangeLog
  import opened Constraints
  import opened PwmPlan
  import opened PwmLaws
  import opened Pwm

  // ---------- one update ----------

  /** The constraints do not object to the state. */
  predicate Passes(a: Actuator, val: State, now: u32, ts: seq<Target>, reachable: set<nat>)
    requires AllFit(a.constraints, |ts|)
  {
    Desire(a, val, now, ts, reachable).remaining == 0
  }

  /** The actuator has taken the state. */
  predicate Took(r: Response, val: State) {
    r.actuator.log.output == r.state == r.actuator.desired == val && r.wait == 0
  }

  lemma PassedIsTaken(a: Actuator, val: State, now: u32, ts: seq<Target>, reachable: set<nat>)
    requires AllFit(a.constraints, |ts|) && Passes(a, val, now, ts, reachable)
    ensures var o := Desire(a, val, now, ts, reachable); o.actuator.log.output == val && o.actuator.desired == val
  {
    hide Check;
  }

  /** In a steady rhythm, an actuator that nothing blocks is active after the update once the off time is over, and is
      left alone before. */
  lemma OffTimeEnds(setting: nat, period: u32, duty: nat, low: nat, a: Actuator, now: u32, ts: seq<Target>,
                    reachable: set<nat>)
    requires Exact(setting, period, duty) && 4 <= period < 0x800_0000 && low + duty <= 2 * period
    requires AllFit(a.constraints, |ts|) && Passes(a, Active, now, ts, reachable)
    ensures InRange(SteadyOff(period, duty, low), period) &&
      var r := Respond(SteadyOff(period, duty, low), period, setting, duty, true, a, now, ts, reachable);
      if low >= period - duty then Took(r, Active) else r.actuator == a && r.targets == ts && r.wait > 0
  {
    hide Exact, WaitFor, WindowOf, Desire, DutyTime;
    ExactBounds(setting, period, duty);
    SteadyOffToggles(setting, period, duty, low);
    PassedIsTaken(a, Active, now, ts, reachable);
  }

  /** When the on-time of a steady rhythm is over. Above 50 percent rounding down can end it early. */
  predicate OnIsOver(period: u32, duty: nat, high: nat) {
    if HighIsFixed(period, duty) then high >= duty
    else high >= duty - duty / 4 && (duty - high) * (period - duty) < period
  }

  /** It is inactive once the on-time is over, and is left alone before. */
  lemma OnTimeEnds(setting: nat, period: u32, duty: nat, high: nat, a: Actuator, now: u32, ts: seq<Target>,
                   reachable: set<nat>)
    requires Exact(setting, period, duty) && 4 <= period < 0x800_0000 && high + period - duty <= 2 * period
    requires AllFit(a.constraints, |ts|) && Passes(a, Inactive, now, ts, reachable)
    ensures InRange(SteadyOn(period, duty, high), period) &&
      var r := Respond(SteadyOn(period, duty, high), period, setting, duty, true, a, now, ts, reachable);
      if OnIsOver(period, duty, high) then Took(r, Inactive) else r.actuator == a && r.targets == ts && r.wait > 0
  {
    hide Exact, WaitFor, WindowOf, Desire, DutyTime;
    ExactBounds(setting, period, duty);
    SteadyOnToggles(setting, period, duty, high);
    PassedIsTaken(a, Inactive, now, ts, reachable);
  }

  /** At 0 percent every update asks for the inactive state, at 100 percent for the active state, whatever the history
      is; an actuator that nothing blocks takes it. While it is held, the wait is a second, or what a constraint asks
      for. */
  lemma ExtremesHold(d: Durations, period: u32, setting: nat, a: Actuator, now: u32, ts: seq<Target>,
                     reachable: set<nat>)
    requires InRange(d, period) && setting <= FULL && AllFit(a.constraints, |ts|) && d.lastState != Unknown
    ensures var o := Respond(d, period, setting, 0, true, a, now, ts, reachable).actuator;
      o.desired == Inactive && (Passes(a, Inactive, now, ts, reachable) ==> o.log.output == Inactive)
    ensures var r := Respond(d, period, setting, 0, true, a, now, ts, reachable);
      d.lastState == Inactive ==> r.wait >= 1000 && (Passes(a, Inactive, now, ts, reachable) ==> r.wait == 1000)
    ensures var o := Respond(d, period, setting, period, true, a, now, ts, reachable).actuator;
      o.desired == Active && (Passes(a, Active, now, ts, reachable) ==> o.log.output == Active)
    ensures var r := Respond(d, period, setting, period, true, a, now, ts, reachable);
      d.lastState == Active ==> r.wait >= 1000 && (Passes(a, Active, now, ts, reachable) ==> r.wait == 1000)
  {
    hide Check, WindowOf, AdaptWait, KeptShare, Longest, Share;
    WindowIsSound(d, period, 0);
    WindowIsSound(d, period, period);
  }

  /** Without a valid setting, or when disabled, an update between 0 and 100 percent leaves the actuator alone. */
  lemma DisabledLeaves(d: Durations, period: u32, setting: nat, duty: nat, a: Actuator, now: u32, ts: seq<Target>,
                       reachable: set<nat>)
    requires InRange(d, period) && setting <= FULL && AllFit(a.constraints, |ts|) && 0 < duty < period
    ensures var r := Respond(d, period, setting, duty, false, a, now, ts, reachable);
      r.actuator == a && r.targets == ts
  {
    hide Desire, WaitFor, WindowOf;
  }

  // ---------- a steady rhythm ----------

  /** How long a state lasts. */
  function Length(period: u32, duty: nat, state: State): nat
    requires duty <= period
  {
    if state == Active then duty else period - duty
  }

  /** All on- and off times of the log were exact. */
  predicate Rhythmic(full: seq<Change>, period: u32, duty: nat)
    requires duty <= period
  {
    && |full| >= 5 && Switched(full)
    && forall i :: 0 <= i < |full| - 1 ==> full[i].time == full[i + 1].time + Length(period, duty, full[i + 1].state)
  }

  /** The durations of such a log. */
  lemma RhythmDurations(full: seq<Change>, period: u32, duty: nat, now: nat)
    requires 0 < duty < period < 0x800_0000 && Recorded(full, now) && Rhythmic(full, period, duty)
    requires now - full[0].time <= period
    ensures var time := now - full[0].time;
      DurationsOf(Shown(full), Wrap(now))
      == if full[0].state == Active then SteadyOn(period, duty, time) else SteadyOff(period, duty, time)
  {
    hide Shown, DurationsOf, Wrap;
    DurationsAreTrue(full, now);
    SmallStays(now - full[0].time);
    SmallStays(now - full[1].time);
    SmallStays(full[0].time - full[1].time);
    SmallStays(full[1].time - full[2].time);
    SmallStays(full[2].time - full[3].time);
    SmallStays(full[1].time - full[3].time);
    StatesAlternate(full, now, 1);
    StatesAlternate(full, now, 2);
    StatesAlternate(full, now, 3);
  }

  /** Up to 50 percent, the wait in the on state ends with the on-time. */
  lemma OnWaits(setting: nat, period: u32, duty: nat, high: nat)
    requires Exact(setting, period, duty) && HighIsFixed(period, duty) && 4 <= period < 0x800_0000 && high <= duty
    ensures var d := SteadyOn(period, duty, high);
      InRange(d, period)
      && WaitFor(d, Window(high, high + period - duty, duty, period), period, duty, setting) == duty - high
  {
    hide Exact, WaitFor, AdaptWait, KeptShare, Longest, Share, InRange, SteadyOn;
    ExactBounds(setting, period, duty);
    SteadyOnInRange(period, duty, high);
    SteadyOnPlan(setting, period, duty, high);
  }

  /** The wait in the off state does not end after the off time. */
  lemma OffWaits(setting: nat, period: u32, duty: nat, low: nat)
    requires Exact(setting, period, duty) && HighIsFixed(period, duty) && 4 <= period < 0x800_0000
    requires low <= period - duty
    ensures var d := SteadyOff(period, duty, low);
      InRange(d, period)
      && WaitFor(d, Window(duty, low + duty, duty, period), period, duty, setting) <= period - duty - low
  {
    hide Exact, WaitFor, KeptShare, Share, Covers, AdaptWait, InRange, SteadyOff;
    ExactBounds(setting, period, duty);
    var e, off := period + duty + low, period - duty;
    SteadyOffInRange(period, duty, low);
    SteadyOffPlan(setting, period, duty, low);
    LowShareOf(e, setting, period, duty, low);
    OffShare(e, setting, period, duty);
    AdaptEnds(low, off, period, e - Share(e, setting));
  }

  /** The adaptable part does not wait beyond its normal time for a share of at most two of them. */
  lemma AdaptEnds(current: nat, normal: nat, period: u32, share: nat)
    requires current <= normal && share <= 2 * normal && share < RANGE && Covers(share, current)
    ensures AdaptWait(current, normal + current, normal, Longest(normal, normal, period, period),
                      KeptShare(share, current, normal, normal)) <= normal - current
  {
    hide KeptShare;
    KeptIsAimed(share, current, normal, normal);
  }

  /** Within two periods, the off state is asked for no more than two off times. */
  lemma OffShare(e: nat, setting: nat, period: u32, duty: nat)
    requires Exact(setting, period, duty) && e <= 2 * period
    ensures e - Share(e, setting) <= 2 * (period - duty)
  {
    hide Share;
    SameShare(e, setting, period, duty);
    var x, q := 2 * period - e, e * duty / period;
    DivBounds(e * duty, period);
    Grow(duty, period, x);
    assert (2 * duty - x) * period <= e * duty by {
      assert (2 * duty - x) * period == 2 * duty * period - x * period;
      assert e * duty == 2 * period * duty - x * duty;
      assert duty * x == x * duty && period * x == x * period && duty * period == period * duty;
    }
    Cancel(2 * duty - x, q + 1, period);
  }

  // ---------- whole runs ----------

  /** A setting of up to 50 percent that is a whole number of milliseconds per period. */
  datatype Plan = Plan(setting: nat, period: u32, duty: nat) {
    predicate Valid() {
      Exact(setting, period, duty) && HighIsFixed(period, duty) && 4 <= period < 0x800_0000
    }

    function Achievable(): real {
      setting as real / 4096.0
    }
  }

  /** The actuator, the log of all its changes, the time of the next update and the achieved value. */
  datatype Pulse = Pulse(actuator: Actuator, full: seq<Change>, now: nat, achieved: real) {
    function Since(): int
      requires full != []
    {
      now - full[0].time
    }
  }

  /** An actuator without constraints in the middle of a steady rhythm. */
  ghost predicate Steady(l: Plan, p: Pulse) {
    && l.Valid() && l.duty < l.period && p.actuator.constraints == []
    && p.actuator.log.history == Shown(p.full) && Recorded(p.full, p.now)
    && p.actuator.log.output == p.full[0].state
    && Rhythmic(p.full, l.period, l.duty) && p.Since() <= Length(l.period, l.duty, p.full[0].state)
  }

  lemma PlanBounds(l: Plan)
    requires l.Valid()
    ensures l.setting <= FULL && 0 < l.duty < l.period && 4 <= l.period < 0x800_0000
  {
  }

  /** The counted durations and the window at an update. */
  lemma SteadyWindow(l: Plan, p: Pulse)
    requires Steady(l, p)
    ensures var d := DurationsOf(p.actuator.log.history, Wrap(p.now));
      && d == (if p.full[0].state == Active then SteadyOn(l.period, l.duty, p.Since())
               else SteadyOff(l.period, l.duty, p.Since()))
      && InRange(d, l.period) && l.setting <= FULL
      && WindowOf(d, l.period, l.duty) == Window(d.currentActive, d.currentPeriod, d.previousActive, d.previousPeriod)
  {
    hide DurationsOf, Wrap, Shown, WindowOf;
    PlanBounds(l);
    RhythmDurations(p.full, l.period, l.duty, p.now);
    OrdinaryWindow(DurationsOf(p.actuator.log.history, Wrap(p.now)), l.period, l.duty);
  }

  /** One update, and the next one at the time that it asks for. */
  ghost function Beat(l: Plan, p: Pulse): Pulse
    requires Steady(l, p)
  {
    SteadyWindow(l, p);
    var d := DurationsOf(p.actuator.log.history, Wrap(p.now));
    var r := Respond(d, l.period, l.setting, l.duty, true, p.actuator, Wrap(p.now), [], {});
    var w := WindowOf(d, l.period, l.duty);
    Pulse(r.actuator, Grown(p.full, r.actuator.log.output, p.now), p.now + Pause(r.wait),
          Achieved(p.achieved, Percentage(w, r.wait, r.state), r.state, l.setting).0)
  }

  function Other(state: State): State {
    if state == Active then Inactive else Active
  }

  /** The response to a steady rhythm: the other state exactly at the end of its time, and otherwise a wait that does
      not go beyond that end. */
  lemma SteadyResponse(l: Plan, p: Pulse)
    requires Steady(l, p)
    ensures InRange(DurationsOf(p.actuator.log.history, Wrap(p.now)), l.period) && l.setting <= FULL &&
      var state, time := p.full[0].state, Length(l.period, l.duty, p.full[0].state);
      var r := Respond(DurationsOf(p.actuator.log.history, Wrap(p.now)), l.period, l.setting, l.duty, true, p.actuator,
                       Wrap(p.now), [], {});
      && r.state == r.actuator.log.output && r.actuator.constraints == []
      && (p.Since() == time ==> r.wait == 0 && r.actuator.log == Logged(p.actuator.log, Other(state), Wrap(p.now)))
      && (p.Since() < time ==> r.actuator == p.actuator && 0 < r.wait <= time - p.Since()
                               && (state == Active ==> r.wait == time - p.Since()))
  {
    hide DurationsOf, Wrap, Shown, WindowOf, WaitFor, Exact, Recorded;
    SteadyWindow(l, p);
    PlanBounds(l);
    NothingObjects(p.actuator, Active, Wrap(p.now));
    NothingObjects(p.actuator, Inactive, Wrap(p.now));
    assert p.full[0].state != Unknown;
    if p.full[0].state == Active {
      OnTimeEnds(l.setting, l.period, l.duty, p.Since(), p.actuator, Wrap(p.now), [], {});
      OnWaits(l.setting, l.period, l.duty, p.Since());
    } else {
      OffTimeEnds(l.setting, l.period, l.duty, p.Since(), p.actuator, Wrap(p.now), [], {});
      OffWaits(l.setting, l.period, l.duty, p.Since());
    }
  }

  lemma NothingObjects(a: Actuator, val: State, now: u32)
    requires a.constraints == []
    ensures AllFit(a.constraints, 0) && Passes(a, val, now, [], {})
    ensures Desire(a, val, now, [], {})
            == Outcome(0, Actuator(Logged(a.log.(lastUpdateTime := now), val, now), [], val), [])
  {
  }

  /** Pausing never goes beyond the wait, and takes at least half of it or a second. */
  lemma PauseIsShort(wait: nat)
    ensures wait <= 2 * Pause(wait) || Pause(wait) == 1000
    ensures 1 <= Pause(wait) <= 1000 && Pause(wait) <= Max(1, wait)
  {
  }

  /** An update keeps the rhythm: it switches the actuator exactly at the end of its on- or off time. */
  lemma BeatKeeps(l: Plan, p: Pulse)
    requires Steady(l, p)
    ensures Steady(l, Beat(l, p))
    ensures var q, state := Beat(l, p), p.full[0].state;
      && p.now < q.now <= p.now + 1000
      && q.full == (if p.Since() < Length(l.period, l.duty, state) then p.full
                    else [Change(Other(state), p.now)] + p.full)
  {
    hide DurationsOf, Wrap, Shown, WindowOf, Exact, HighIsFixed, Recorded, Rhythmic, Respond, Achieved, Percentage,
      Pause, Logged;
    SteadyResponse(l, p);
    PlanBounds(l);
    SteadyStarts(l, p);
    var q, state := Beat(l, p), p.full[0].state;
    var wait := Respond(DurationsOf(p.actuator.log.history, Wrap(p.now)), l.period, l.setting, l.duty, true, p.actuator,
                        Wrap(p.now), [], {}).wait;
    PauseIsShort(wait);
    if p.Since() == Length(l.period, l.duty, state) {
      HistoryIsNewest(p.actuator.log, p.full, Other(state), p.now, p.now);
      LoggedOutput(p.actuator.log, Other(state), Wrap(p.now));
      RhythmGoesOn(p.full, l.period, l.duty, p.now);
      LaterRecorded(q.full, p.now, q.now);
    } else {
      LaterRecorded(p.full, p.now, q.now);
    }
  }

  lemma SteadyStarts(l: Plan, p: Pulse)
    requires Steady(l, p)
    ensures |p.full| >= 5 && p.full[0].time <= p.now && p.full[0].state != Unknown
    ensures p.full[1].state == Other(p.full[0].state)
    ensures p.full[0].time == p.full[1].time + Length(l.period, l.duty, p.full[1].state)
    ensures p.actuator.log.output == p.full[0].state && p.Since() <= Length(l.period, l.duty, p.full[0].state)
  {
    hide Shown, Exact, HighIsFixed;
  }

  lemma LoggedOutput(log: Log, val: State, now: u32)
    ensures Logged(log, val, now).output == val
  {
  }

  lemma RhythmGoesOn(full: seq<Change>, period: u32, duty: nat, now: nat)
    requires duty <= period && Rhythmic(full, period, duty)
    requires now == full[0].time + Length(period, duty, full[0].state)
    ensures Rhythmic([Change(Other(full[0].state), now)] + full, period, duty)
  {
    var more := [Change(Other(full[0].state), now)] + full;
    forall i | 0 <= i < |more| - 1
      ensures more[i].time == more[i + 1].time + Length(period, duty, more[i + 1].state)
    {
      if i > 0 {
        assert more[i] == full[i - 1] && more[i + 1] == full[i];
      }
    }
  }

  /** A run of updates, each at the time that the one before it asks for. */
  ghost function Beats(l: Plan, p: Pulse, n: nat): (q: Pulse)
    requires Steady(l, p)
    ensures Steady(l, q)
  {
    if n == 0 then p
    else
      var q := Beats(l, p, n - 1);
      BeatKeeps(l, q);
      Beat(l, q)
  }

  /** The last time that the actuator has gone on. */
  function Rise(full: seq<Change>): nat
    requires |full| >= 2
  {
    if full[0].state == Active then full[0].time else full[1].time
  }

  /** How long ago the actuator last went on, at an update; and what it does then. */
  lemma PhaseDecides(l: Plan, p: Pulse)
    requires Steady(l, p)
    ensures |p.full| >= 2 && 0 <= p.now - Rise(p.full) <= l.period
    ensures Beat(l, p).actuator.log.output == Active
      <==> p.now - Rise(p.full) < l.duty || p.now - Rise(p.full) == l.period
  {
    hide Beat, Steady, Plan.Valid;
    SteadyStarts(l, p);
    BeatKeeps(l, p);
    SteadyStarts(l, Beat(l, p));
    SteadyBounds(l, p);
  }

  /** Successive switch-ons lie one period apart. */
  lemma RisesApart(l: Plan, p: Pulse)
    requires Steady(l, p)
    ensures |p.full| >= 2 && |Beat(l, p).full| >= 2
    ensures Rise(Beat(l, p).full) == Rise(p.full) || Rise(Beat(l, p).full) == Rise(p.full) + l.period
  {
    hide Beat, Steady, Plan.Valid;
    SteadyStarts(l, p);
    BeatKeeps(l, p);
    SteadyStarts(l, Beat(l, p));
    SteadyBounds(l, p);
  }

  lemma SteadyBounds(l: Plan, p: Pulse)
    requires Steady(l, p)
    ensures l.Valid() && 0 < l.duty < l.period
  {
    hide Shown, Recorded, Rhythmic;
  }

  /** The ideal wave is on for the duty time at the start of each period. */
  predicate IdealOn(time: int, period: nat, duty: nat)
    requires period > 0
  {
    time % period < duty
  }

  lemma PhaseRepeats(time: nat, phase: nat, rounds: nat, period: nat, duty: nat)
    requires 0 < duty < period && phase <= period && time == phase + rounds * period
    ensures IdealOn(time, period, duty) <==> phase < duty || phase == period
  {
    var whole := if phase == period then 1 else 0;
    var rest := phase - whole * period;
    assert (rounds + whole) * period == rounds * period + whole * period;
    DivIs(time, period, rounds + whole);
    assert time == time / period * period + time % period;
  }

  /** How many periods a run has lasted. */
  lemma {:induction false} Rounds(l: Plan, p: Pulse, n: nat) returns (rounds: nat)
    requires Steady(l, p)
    ensures var q := Beats(l, p, n);
      && |q.full| >= 2 && |p.full| >= 2 && Rise(q.full) == Rise(p.full) + rounds * l.period
      && p.now + n <= q.now <= p.now + 1000 * n
  {
    hide Beat, Steady, Plan.Valid, Rise;
    SteadyStarts(l, p);
    if n == 0 {
      rounds := 0;
    } else {
      var q := Beats(l, p, n - 1);
      var before := Rounds(l, p, n - 1);
      BeatKeeps(l, q);
      RisesApart(l, q);
      rounds := if Rise(Beat(l, q).full) == Rise(q.full) then before else before + 1;
      assert (before + 1) * l.period == before * l.period + l.period;
    }
  }

  /** Through whole runs of any length, also when the clock wraps, the actuator follows the ideal wave: after each
      update it is active exactly in the first part of the period, for the duty time. */
  lemma IdealWave(l: Plan, p: Pulse, n: nat)
    requires Steady(l, p)
    ensures |p.full| >= 2 && l.period > 0 && p.now + n <= Beats(l, p, n).now <= p.now + 1000 * n
    ensures var q := Beats(l, p, n);
      Beat(l, q).actuator.log.output == Active <==> IdealOn(q.now - Rise(p.full), l.period, l.duty)
  {
    hide Beat, Steady, Plan.Valid, Rise, Beats, IdealOn;
    var q := Beats(l, p, n);
    var rounds := Rounds(l, p, n);
    SteadyBounds(l, p);
    PhaseDecides(l, q);
    PhaseRepeats(q.now - Rise(p.full), q.now - Rise(q.full), rounds, l.period, l.duty);
  }

  /** An actuator that was switched by hand for two periods. */
  function ByHand(l: Plan): seq<Change> {
    [Change(Active, 2 * l.period), Change(Inactive, l.period + l.duty), Change(Active, l.period),
     Change(Inactive, l.duty), Change(Active, 0)]
  }

  lemma ByHandIsRecorded(l: Plan)
    requires 0 < l.duty < l.period
    ensures Recorded(ByHand(l), 2 * l.period)
  {
  }

  lemma ByHandIsRhythmic(l: Plan)
    requires 0 < l.duty < l.period
    ensures Rhythmic(ByHand(l), l.period, l.duty)
  {
  }

  /** Every plan has a steady rhythm. */
  lemma SteadyExists(l: Plan, achieved: real)
    requires l.Valid()
    ensures exists p :: Steady(l, p) && p.achieved == achieved
  {
    hide Exact, Shown, Recorded, Rhythmic;
    PlanBounds(l);
    ByHandIsRecorded(l);
    ByHandIsRhythmic(l);
    var p := Pulse(Actuator(Log(Active, Shown(ByHand(l)), 0), [], Active), ByHand(l), 2 * l.period, achieved);
    assert Steady(l, p);
  }

  // ---------- the achieved value ----------

  lemma SettingIsQuotient(setting: nat, period: u32, duty: nat)
    requires Exact(setting, period, duty)
    ensures Quotient(200 * duty, 2 * period) == setting as real / 4096.0
  {
    var y := setting as real / 4096.0;
    assert (setting * period) as real == (duty * FULL) as real;
    assert setting as real * period as real == (setting * period) as real;
    assert y * (2 * period) as real == (200 * duty) as real;
  }

  lemma QuotientFalls(part: nat, less: nat, whole: nat)
    requires 0 < less <= whole
    ensures Quotient(part, less) >= Quotient(part, whole)
  {
  }

  /** In a steady rhythm the percentage is that of the setting, or more while off. */
  lemma SteadyPercentage(l: Plan, p: Pulse)
    requires Steady(l, p) && 200 * l.duty < RANGE
    ensures InRange(DurationsOf(p.actuator.log.history, Wrap(p.now)), l.period) && l.setting <= FULL &&
      var d := DurationsOf(p.actuator.log.history, Wrap(p.now));
      var r := Respond(d, l.period, l.setting, l.duty, true, p.actuator, Wrap(p.now), [], {});
      var w := WindowOf(d, l.period, l.duty);
      && w.Elapsed() + r.wait > 0
      && Percentage(w, r.wait, r.state) >= l.Achievable()
      && (p.full[0].state == Active || r.state == Active ==> Percentage(w, r.wait, r.state) == l.Achievable())
  {
    hide DurationsOf, Wrap, Shown, WindowOf, Exact, HighIsFixed, Recorded, Rhythmic, Respond, Quotient, Logged;
    SteadyWindow(l, p);
    SteadyResponse(l, p);
    SteadyStarts(l, p);
    SteadyBounds(l, p);
    SettingIsQuotient(l.setting, l.period, l.duty);
    SmallStays(200 * l.duty);
    LoggedOutput(p.actuator.log, Other(p.full[0].state), Wrap(p.now));
    var d := DurationsOf(p.actuator.log.history, Wrap(p.now));
    var total := WindowOf(d, l.period, l.duty).Elapsed()
      + Respond(d, l.period, l.setting, l.duty, true, p.actuator, Wrap(p.now), [], {}).wait;
    QuotientFalls(200 * l.duty, total, 2 * l.period);
  }

  lemma AchievedStep(l: Plan, p: Pulse)
    requires Steady(l, p) && 200 * l.duty < RANGE
    ensures var q, aim := Beat(l, p), l.Achievable();
      && (p.achieved == aim ==> q.achieved == aim)
      && (q.actuator.log.output == Active ==> q.achieved >= aim)
      && (p.actuator.log.output == Active && q.actuator.log.output == Inactive ==> q.achieved <= aim)
  {
    hide DurationsOf, Wrap, Shown, WindowOf, Exact, HighIsFixed, Recorded, Rhythmic, Respond, Percentage, Logged;
    SteadyResponse(l, p);
    SteadyPercentage(l, p);
    SteadyStarts(l, p);
    LoggedOutput(p.actuator.log, Other(p.full[0].state), Wrap(p.now));
  }

  /** In every run, the achieved value is the setting from the end of the first on-time on in which it was updated. */
  lemma {:induction false} AchievesSetting(l: Plan, p: Pulse, n: nat, m: nat)
    requires Steady(l, p) && 200 * l.duty < RANGE && 0 < n < m
    requires Beats(l, p, n).actuator.log.output == Active && Beats(l, p, n + 1).actuator.log.output == Inactive
    ensures Beats(l, p, m).achieved == l.Achievable()
  {
    hide Beat, Steady, Plan.Valid;
    AchievedStep(l, Beats(l, p, m - 1));
    if m == n + 1 {
      AchievedStep(l, Beats(l, p, n - 1));
      KeepsAtLeast(l, Beats(l, p, n));
    } else {
      AchievesSetting(l, p, n, m - 1);
    }
  }

  /** The end of an on-time does not take the achieved value below the setting. */
  lemma KeepsAtLeast(l: Plan, p: Pulse)
    requires Steady(l, p) && 200 * l.duty < RANGE && p.achieved >= l.Achievable()
    ensures Beat(l, p).achieved >= l.Achievable()
  {
    hide DurationsOf, Wrap, Shown, WindowOf, Exact, HighIsFixed, Recorded, Rhythmic, Respond, Percentage, Logged;
    SteadyResponse(l, p);
    SteadyPercentage(l, p);
    SteadyStarts(l, p);
    LoggedOutput(p.actuator.log, Other(p.full[0].state), Wrap(p.now));
  }
}
