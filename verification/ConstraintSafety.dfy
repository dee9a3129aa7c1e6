/** What every run of constrained actuators keeps: mutual exclusion, hold times and minimum times. */
module ConstraintSafety {
  import opened Ticks
  import opened ChangeLog
  import opened Constraints
  import opened ConstraintRuns

  /** Every time spent in the state was at least as long as the limit. */
  ghost predicate LastsAtLeast(log: seq<Change>, during: State, limit: u32) {
    forall k :: 0 <= k < |log| - 1 && log[k + 1].state == during ==> log[k + 1].time + limit <= log[k].time
  }

  ghost predicate MinimumTimes(log: seq<Change>, c: Constraint) {
    && (c.MinOffTime? ==> LastsAtLeast(log, Inactive, c.limit))
    && (c.MinOnTime? ==> LastsAtLeast(log, Active, c.limit))
  }

  /** Since each time it switched off, the actuator has rested for the hold time. */
  ghost predicate Rested(log: seq<Change>, hold: u32, now: nat) {
    forall k :: 0 <= k < |log| - 1 && log[k + 1].state == Active ==> log[k].time + hold <= now
  }

  ghost predicate MutexKept(c: Constraint, log: seq<Change>, ts: seq<Target>, now: nat) {
    c.Mutex? && c.target < |ts| && !c.locked ==> Rested(log, HoldTime(c, ts[c.target]), now)
  }

  ghost predicate HoldsAllLocks(cs: seq<Constraint>) {
    forall i :: 0 <= i < |cs| ==> cs[i].Mutex? ==> cs[i].locked
  }

  /** The log of an actuator tells its true history. */
  ghost predicate Faithful(a: Actuator, log: seq<Change>, now: nat) {
    Recorded(log, now) && a.log.history == Shown(log) && a.log.output == log[0].state
  }

  /** An actuator has kept its constraints, and holds its locks while it is active. */
  ghost predicate ActuatorSafe(a: Actuator, log: seq<Change>, ts: seq<Target>, now: nat) {
    && Sorted(a.constraints) && AllFit(a.constraints, |ts|) && HoldsBounded(a.constraints)
    && Faithful(a, log, now)
    && (a.log.output == Active ==> HoldsAllLocks(a.constraints))
    && (forall i :: 0 <= i < |a.constraints| ==> MinimumTimes(log, a.constraints[i]))
    && forall i :: 0 <= i < |a.constraints| ==> MutexKept(a.constraints[i], log, ts, now)
  }

  /** `off` had rested for the hold time each time that `on` switched on later. */
  ghost predicate Spaced(off: seq<Change>, on: seq<Change>, hold: u32) {
    forall k, m ::
      (&& 0 <= k < |off| - 1 && off[k + 1].state == Active
       && 0 <= m < |on| && on[m].state == Active && off[k].time < on[m].time)
      ==> off[k].time + hold <= on[m].time
  }

  ghost predicate Shares(cs: seq<Constraint>, target: nat) {
    exists a :: 0 <= a < |cs| && cs[a].Mutex? && cs[a].target == target
  }

  ghost predicate HoldTimesKept(p: Plant)
    requires Fit(p)
  {
    forall i, j, b ::
      (0 <= i < |p.actuators| && 0 <= j < |p.actuators| && i != j && 0 <= b < |p.actuators[j].constraints|)
      ==> PairKept(p, i, j, p.actuators[j].constraints[b])
  }

  ghost predicate PairKept(p: Plant, i: nat, j: nat, c: Constraint)
    requires Fit(p) && i < |p.actuators| && j < |p.actuators|
  {
    c.Mutex? && c.target < |p.targets| && Shares(p.actuators[i].constraints, c.target) ==>
      Spaced(p.logs[j], p.logs[i], HoldTime(c, p.targets[c.target]))
  }

  ghost predicate Safe(p: Plant) {
    && Fit(p) && TargetsBounded(p.targets) && LocksOwned(p)
    && (forall i :: 0 <= i < |p.actuators| ==> ActuatorSafe(p.actuators[i], p.logs[i], p.targets, p.clock))
    && HoldTimesKept(p)
  }

  // ---------- one actuator, one step ----------

  lemma GapHolds(during: State, limit: u32, val: State, log: Log, full: seq<Change>, now: nat)
    requires log.history == Shown(full) && Recorded(full, now) && log.output == full[0].state
    requires MinTime(limit, during, val, Wrap(now), log) == 0
    ensures full[0].state == during && val != during ==> full[0].time + limit <= now
  {
    hide LastStartEnd, Shown;
    if full[0].state == during && val != during {
      StateSince(log, full, Wrap(now));
      ElapsedAtMost(now, full[0].time);
    }
  }

  lemma OffFor(log: Log, full: seq<Change>, now: nat)
    requires log.history == Shown(full) && Recorded(full, now) && log.output == full[0].state
    ensures full[0].time + TimeOff(log, Wrap(now)) <= now
  {
    hide LastStartEnd, Shown;
    if log.output == Inactive {
      StateSince(log, full, Wrap(now));
      ElapsedAtMost(now, full[0].time);
    }
  }

  lemma LastsGrows(full: seq<Change>, val: State, now: nat, during: State, limit: u32)
    requires full != [] && LastsAtLeast(full, during, limit)
    requires full[0].state == during && val != during ==> full[0].time + limit <= now
    ensures LastsAtLeast(Grown(full, val, now), during, limit)
  {
    var more := Grown(full, val, now);
    if val != full[0].state {
      forall k | 0 <= k < |more| - 1 && more[k + 1].state == during ensures more[k + 1].time + limit <= more[k].time {
        if k > 0 {
          assert more[k + 1] == full[k] && more[k] == full[k - 1];
        }
      }
    }
  }

  lemma RestedGrows(full: seq<Change>, val: State, hold: u32, before: nat, now: nat)
    requires full != [] && Rested(full, hold, before) && before <= now
    requires full[0].state == Active ==> val == Active || hold == 0
    ensures Rested(Grown(full, val, now), hold, now)
  {
    var more := Grown(full, val, now);
    if val != full[0].state {
      forall k | 0 <= k < |more| - 1 && more[k + 1].state == Active ensures more[k].time + hold <= now {
        if k > 0 {
          assert more[k + 1] == full[k] && more[k] == full[k - 1];
        }
      }
    }
  }

  /** When a lock is given up, the actuator has rested, or it switches off now and need not rest. */
  lemma RestedAtRelease(log: Log, full: seq<Change>, hold: u32, now: nat)
    requires log.history == Shown(full) && Recorded(full, now) && log.output == full[0].state
    requires hold <= TimeOff(log, Wrap(now))
    ensures Rested(Grown(full, Inactive, now), hold, now)
  {
    OffFor(log, full, now);
    RestedGrows(full, Inactive, hold, now, now) by {
      assert forall k :: 0 <= k < |full| - 1 ==> full[k].time <= full[0].time;
    }
  }

  lemma MinimumTimesStep(c: Constraint, val: State, log: Log, full: seq<Change>, now: nat)
    requires log.history == Shown(full) && Recorded(full, now) && log.output == full[0].state
    requires MinimumTimes(full, c)
    requires c.MinOffTime? ==> MinTime(c.limit, Inactive, val, Wrap(now), log) == 0
    requires c.MinOnTime? ==> MinTime(c.limit, Active, val, Wrap(now), log) == 0
    ensures MinimumTimes(Grown(full, val, now), c)
  {
    hide MinTime, LastsAtLeast, Shown;
    if c.MinOffTime? {
      GapHolds(Inactive, c.limit, val, log, full, now);
      LastsGrows(full, val, now, Inactive, c.limit);
    }
    if c.MinOnTime? {
      GapHolds(Active, c.limit, val, log, full, now);
      LastsGrows(full, val, now, Active, c.limit);
    }
  }

  lemma ActuatorStep(a: Actuator, full: seq<Change>, ts: seq<Target>, before: nat, val: State, now: nat,
      reachable: set<nat>)
    requires ActuatorSafe(a, full, ts, before) && TargetsBounded(ts) && before <= now
    ensures var o := Desire(a, val, Wrap(now), ts, reachable);
      ActuatorSafe(o.actuator, After(full, o.remaining, val, now), o.targets, now)
  {
    hide Check, Shown, MinimumTimes, MutexKept, TargetsBounded, HoldBounded, MinTime, Recorded, Sorted, HoldsAllLocks,
      Rule;
    var w, log := Wrap(now), a.log.(lastUpdateTime := Wrap(now));
    var o, v := Desire(a, val, w, ts, reachable), Check(a.constraints, val, w, log, ts, reachable);
    CheckKeeps(a.constraints, val, w, log, ts, reachable);
    SameRulesKeep(a.constraints, o.actuator.constraints);
    LaterRecorded(full, before, now);
    FaithfulStep(a, full, before, val, now, o.remaining);
    LocksStep(a, val, w, ts, reachable);
    forall i | 0 <= i < |a.constraints|
      ensures MinimumTimes(After(full, o.remaining, val, now), o.actuator.constraints[i])
      ensures MutexKept(o.actuator.constraints[i], After(full, o.remaining, val, now), o.targets, now)
    {
      SameMinimum(full, a.constraints[i], o.actuator.constraints[i]);
      SameMinimum(After(full, o.remaining, val, now), a.constraints[i], o.actuator.constraints[i]);
      if o.remaining == 0 {
        CheckPassed(a.constraints, val, w, log, ts, reachable, i);
        MinimumTimesStep(a.constraints[i], val, log, full, now);
      }
      MutexStep(a, full, ts, before, val, now, reachable, i);
    }
  }

  lemma FaithfulStep(a: Actuator, full: seq<Change>, before: nat, val: State, now: nat, remaining: u32)
    requires Faithful(a, full, before) && before <= now
    ensures var log := a.log.(lastUpdateTime := Wrap(now));
      Faithful(a.(log := if remaining == 0 then Logged(log, val, Wrap(now)) else log),
        After(full, remaining, val, now), now)
  {
    hide Shown;
    HistoryIsNewest(a.log.(lastUpdateTime := Wrap(now)), full, val, before, now);
    LaterRecorded(full, before, now);
  }

  lemma SameRulesKeep(cs: seq<Constraint>, ds: seq<Constraint>)
    requires SameRules(cs, ds) && Sorted(cs) && HoldsBounded(cs)
    ensures Sorted(ds) && HoldsBounded(ds)
  {
    hide Rule, HoldBounded;
    forall i | 0 <= i < |cs| ensures cs[i].Order() == ds[i].Order() && HoldBounded(ds[i]) {
      SameKind(cs[i], ds[i]);
    }
  }

  lemma SameMinimum(log: seq<Change>, c: Constraint, d: Constraint)
    requires Rule(c) == Rule(d)
    ensures MinimumTimes(log, c) <==> MinimumTimes(log, d)
  {
    hide LastsAtLeast;
  }

  lemma LocksStep(a: Actuator, val: State, w: u32, ts: seq<Target>, reachable: set<nat>)
    requires AllFit(a.constraints, |ts|) && Sorted(a.constraints) && HoldsBounded(a.constraints) && TargetsBounded(ts)
    requires a.log.output == Active ==> HoldsAllLocks(a.constraints)
    ensures var o := Desire(a, val, w, ts, reachable);
      o.actuator.log.output == Active ==> HoldsAllLocks(o.actuator.constraints)
  {
    hide Check, TargetsBounded, HoldBounded, MinTime, TimeOff, Rule, Sorted;
    var o, log := Desire(a, val, w, ts, reachable), a.log.(lastUpdateTime := w);
    CheckKeeps(a.constraints, val, w, log, ts, reachable);
    if o.actuator.log.output == Active {
      forall i | 0 <= i < |a.constraints| && o.actuator.constraints[i].Mutex? ensures o.actuator.constraints[i].locked {
        SameKind(a.constraints[i], o.actuator.constraints[i]);
        if o.remaining == 0 {
          CheckPassed(a.constraints, val, w, log, ts, reachable, i);
        } else if !o.actuator.constraints[i].locked {
          CheckReleases(a.constraints, val, w, log, ts, reachable, i);
        }
      }
    }
  }

  lemma MutexStep(a: Actuator, full: seq<Change>, ts: seq<Target>, before: nat, val: State, now: nat,
      reachable: set<nat>, i: nat)
    requires ActuatorSafe(a, full, ts, before) && TargetsBounded(ts) && before <= now && i < |a.constraints|
    ensures var o := Desire(a, val, Wrap(now), ts, reachable);
      MutexKept(o.actuator.constraints[i], After(full, o.remaining, val, now), o.targets, now)
  {
    hide Check, Shown, MinimumTimes, TargetsBounded, HoldBounded, MinTime, TimeOff, Rule, Recorded, Sorted, Rested,
      Grown;
    var w, log := Wrap(now), a.log.(lastUpdateTime := Wrap(now));
    var o := Desire(a, val, w, ts, reachable);
    var c, d := a.constraints[i], o.actuator.constraints[i];
    CheckKeeps(a.constraints, val, w, log, ts, reachable);
    SameKind(c, d);
    LaterRecorded(full, before, now);
    if d.Mutex? && d.target < |ts| && !d.locked {
      var hold := HoldTime(c, ts[c.target]);
      if c.locked {
        CheckReleases(a.constraints, val, w, log, ts, reachable, i);
        RestedAtRelease(log, full, hold, now);
      } else {
        RestedLater(full, hold, before, now);
        assert MutexKept(c, full, ts, before);
        if o.remaining == 0 {
          RestedGrows(full, val, hold, before, now);
        }
      }
    }
  }

  lemma RestedLater(full: seq<Change>, hold: u32, before: nat, now: nat)
    requires before <= now
    ensures Rested(full, hold, before) ==> Rested(full, hold, now)
  {
  }

  // ---------- all actuators, one step ----------

  /** An actuator that a step does not drive stays safe. */
  lemma OthersStay(a: Actuator, log: seq<Change>, ts: seq<Target>, us: seq<Target>, before: nat, now: nat)
    requires ActuatorSafe(a, log, ts, before) && SameHolds(ts, us) && before <= now
    ensures ActuatorSafe(a, log, us, now)
  {
    hide MinimumTimes, Sorted, HoldBounded, Shown, Recorded, Rested;
    LaterRecorded(log, before, now);
    forall i | 0 <= i < |a.constraints| ensures MutexKept(a.constraints[i], log, us, now) {
      var c := a.constraints[i];
      assert MutexKept(c, log, ts, before);
      if c.Mutex? && c.target < |ts| && !c.locked {
        RestedLater(log, HoldTime(c, ts[c.target]), before, now);
      }
    }
  }

  lemma LocksOwnedStep(p: Plant, e: Event)
    requires Fit(p) && e.actuator < |p.actuators| && LocksOwned(p)
    ensures LocksOwned(Step(p, e))
  {
    hide Check, Held, Locked;
    var i, q := e.actuator, Step(p, e);
    var a := p.actuators[i];
    var log := a.log.(lastUpdateTime := Wrap(e.time));
    forall k: nat ensures Held(a.constraints, k) <= Locked(p.targets, k) {
      TotalAtLeast(p.actuators, i, k);
      assert TotalHeld(p.actuators, k) == Locked(p.targets, k);
    }
    forall k: nat ensures TotalHeld(q.actuators, k) == Locked(q.targets, k) {
      CheckCounts(a.constraints, e.val, Wrap(e.time), log, p.targets, e.reachable, k);
      TotalChange(p.actuators, i, q.actuators[i], k);
      assert TotalHeld(p.actuators, k) == Locked(p.targets, k);
    }
  }

  /** Two actuators that share a mutex are not active together. */
  lemma Excludes(p: Plant, i: nat, j: nat, a: nat, b: nat)
    requires LocksOwned(p) && i < |p.actuators| && j < |p.actuators| && i != j
    requires a < |p.actuators[i].constraints| && b < |p.actuators[j].constraints|
    requires var c, d := p.actuators[i].constraints[a], p.actuators[j].constraints[b];
      c.Mutex? && d.Mutex? && c.target == d.target && c.locked
    ensures !p.actuators[j].constraints[b].locked
  {
    hide Held;
    var target := p.actuators[i].constraints[a].target;
    assert TotalHeld(p.actuators, target) == Locked(p.targets, target);
    HeldAt(p.actuators[i].constraints, a);
    TotalAtLeastTwo(p.actuators, if i < j then i else j, if i < j then j else i, target);
    if p.actuators[j].constraints[b].locked {
      HeldAt(p.actuators[j].constraints, b);
    }
  }

  lemma SpacedOn(off: seq<Change>, on: seq<Change>, hold: u32, val: State, now: nat)
    requires on != [] && Spaced(off, on, hold) && (val == Active && on[0].state != Active ==> Rested(off, hold, now))
    ensures Spaced(off, Grown(on, val, now), hold)
  {
    if val != on[0].state {
      assert forall m :: 1 <= m <= |on| ==> Grown(on, val, now)[m] == on[m - 1];
    }
  }

  lemma SpacedOff(off: seq<Change>, on: seq<Change>, hold: u32, val: State, before: nat, now: nat)
    requires off != [] && Spaced(off, on, hold) && Recorded(on, before) && before <= now
    ensures Spaced(Grown(off, val, now), on, hold)
  {
    if val != off[0].state {
      var more := Grown(off, val, now);
      forall k, m |
        && 0 <= k < |more| - 1 && more[k + 1].state == Active
        && 0 <= m < |on| && on[m].state == Active && more[k].time < on[m].time
        ensures more[k].time + hold <= on[m].time
      {
        assert on[m].time <= before;
        if k > 0 {
          assert more[k + 1] == off[k] && more[k] == off[k - 1];
        }
      }
    }
  }

  lemma SharesSame(cs: seq<Constraint>, ds: seq<Constraint>, target: nat)
    requires SameRules(cs, ds)
    ensures Shares(cs, target) <==> Shares(ds, target)
  {
    hide Rule;
    forall i | 0 <= i < |cs|
      ensures (cs[i].Mutex? <==> ds[i].Mutex?) && (cs[i].Mutex? ==> cs[i].target == ds[i].target)
    {
      SameKind(cs[i], ds[i]);
    }
  }

  /** The other actuator has rested when one switches on. */
  lemma OtherRested(p: Plant, i: nat, j: nat, b: nat)
    requires Fit(p) && LocksOwned(p) && i < |p.actuators| && j < |p.actuators| && i != j
    requires HoldsAllLocks(p.actuators[i].constraints) && ActuatorSafe(p.actuators[j], p.logs[j], p.targets, p.clock)
    requires b < |p.actuators[j].constraints|
    ensures var c := p.actuators[j].constraints[b];
      c.Mutex? && c.target < |p.targets| && Shares(p.actuators[i].constraints, c.target)
      ==> Rested(p.logs[j], HoldTime(c, p.targets[c.target]), p.clock)
  {
    hide LocksOwned, Rested, MinimumTimes, Faithful, Sorted;
    var c := p.actuators[j].constraints[b];
    if c.Mutex? && c.target < |p.targets| && Shares(p.actuators[i].constraints, c.target) {
      var a :| 0 <= a < |p.actuators[i].constraints|
        && p.actuators[i].constraints[a].Mutex? && p.actuators[i].constraints[a].target == c.target;
      Excludes(p, i, j, a, b);
      assert MutexKept(c, p.logs[j], p.targets, p.clock);
    }
  }

  lemma PairStep(p: Plant, e: Event, i: nat, j: nat, b: nat)
    requires Safe(p) && e.actuator < |p.actuators| && p.clock <= e.time
    requires forall k :: 0 <= k < |p.actuators| ==>
      ActuatorSafe(Step(p, e).actuators[k], Step(p, e).logs[k], Step(p, e).targets, e.time)
    requires LocksOwned(Step(p, e)) && SameHolds(p.targets, Step(p, e).targets)
    requires i < |p.actuators| && j < |p.actuators| && i != j && b < |p.actuators[j].constraints|
    requires forall k :: 0 <= k < |p.actuators| ==>
      SameRules(p.actuators[k].constraints, Step(p, e).actuators[k].constraints)
    ensures PairKept(Step(p, e), i, j, Step(p, e).actuators[j].constraints[b])
  {
    hide Desire, LocksOwned, Shown, MinimumTimes, Sorted, HoldBounded, MutexKept, Shares, Spaced, Rested, Grown,
      TargetsBounded, HoldsAllLocks, Rule;
    var q := Step(p, e);
    var c, d := p.actuators[j].constraints[b], q.actuators[j].constraints[b];
    SameKind(c, d);
    assert PairKept(p, i, j, c);
    if d.Mutex? {
      SharesSame(p.actuators[i].constraints, q.actuators[i].constraints, d.target);
    }
    if d.Mutex? && d.target < |q.targets| && Shares(q.actuators[i].constraints, d.target) {
      var hold := HoldTime(d, q.targets[d.target]);
      if e.actuator == i && q.logs[i] != p.logs[i] {
        if e.val == Active {
          OtherRested(q, i, j, b);
        }
        SpacedOn(p.logs[j], p.logs[i], hold, e.val, e.time);
      } else if e.actuator == j && q.logs[j] != p.logs[j] {
        SpacedOff(p.logs[j], p.logs[i], hold, e.val, p.clock, e.time);
      }
    }
  }

  lemma SafeStep(p: Plant, e: Event)
    requires Safe(p) && e.actuator < |p.actuators| && p.clock <= e.time
    ensures Safe(Step(p, e)) && Step(p, e).clock == e.time
  {
    hide Check, ActuatorSafe, PairKept, LocksOwned, TargetsBounded, SameHolds, SameRules;
    var q, x, w := Step(p, e), e.actuator, Wrap(e.time);
    var a := p.actuators[x];
    LocksOwnedStep(p, e);
    Bounds(p, x);
    CheckKeeps(a.constraints, e.val, w, a.log.(lastUpdateTime := w), p.targets, e.reachable);
    forall i | 0 <= i < |p.actuators|
      ensures ActuatorSafe(q.actuators[i], q.logs[i], q.targets, q.clock)
      ensures SameRules(p.actuators[i].constraints, q.actuators[i].constraints)
    {
      SameSelf(p.actuators[i].constraints);
      if i == x {
        ActuatorStep(a, p.logs[x], p.targets, p.clock, e.val, e.time, e.reachable);
      } else {
        OthersStay(p.actuators[i], p.logs[i], p.targets, q.targets, p.clock, e.time);
      }
    }
    PairsStep(p, e);
  }

  lemma PairsStep(p: Plant, e: Event)
    requires Safe(p) && e.actuator < |p.actuators| && p.clock <= e.time
    requires forall k :: 0 <= k < |p.actuators| ==>
      ActuatorSafe(Step(p, e).actuators[k], Step(p, e).logs[k], Step(p, e).targets, e.time)
    requires LocksOwned(Step(p, e)) && SameHolds(p.targets, Step(p, e).targets)
    requires forall k :: 0 <= k < |p.actuators| ==>
      SameRules(p.actuators[k].constraints, Step(p, e).actuators[k].constraints)
    ensures HoldTimesKept(Step(p, e))
  {
    hide Desire, ActuatorSafe, PairKept, LocksOwned, TargetsBounded, SameHolds;
    var q := Step(p, e);
    forall i, j, b | 0 <= i < |q.actuators| && 0 <= j < |q.actuators| && i != j && 0 <= b < |q.actuators[j].constraints|
      ensures PairKept(q, i, j, q.actuators[j].constraints[b])
    {
      assert |p.actuators[j].constraints| == |q.actuators[j].constraints|;
      PairStep(p, e, i, j, b);
    }
  }

  lemma Bounds(p: Plant, x: nat)
    requires Safe(p) && x < |p.actuators|
    ensures AllFit(p.actuators[x].constraints, |p.targets|) && HoldsBounded(p.actuators[x].constraints)
    ensures TargetsBounded(p.targets)
  {
    hide LocksOwned, HoldTimesKept;
  }

  // ---------- runs ----------

  /** Actuators as they are made: off, with constraints in order and nothing locked. */
  ghost predicate Start(p: Plant) {
    && Fit(p) && p.clock == 0
    && (forall i :: 0 <= i < |p.actuators| ==>
         && p.logs[i] == [Change(Inactive, 0)] && p.actuators[i].log == Empty(Inactive)
         && Sorted(p.actuators[i].constraints) && HoldsBounded(p.actuators[i].constraints)
         && forall a :: 0 <= a < |p.actuators[i].constraints| ==>
              p.actuators[i].constraints[a].Mutex? ==> !p.actuators[i].constraints[a].locked)
    && TargetsBounded(p.targets) && forall k :: 0 <= k < |p.targets| ==> !p.targets[k].locked
  }

  lemma {:induction false} NothingHeld(acts: seq<Actuator>, target: nat)
    requires forall i :: 0 <= i < |acts| ==> Held(acts[i].constraints, target) == 0
    ensures TotalHeld(acts, target) == 0
  {
    hide Held;
    if acts != [] {
      NothingHeld(acts[1..], target);
    }
  }

  lemma {:induction false} NoneHeld(cs: seq<Constraint>, target: nat)
    requires forall a :: 0 <= a < |cs| ==> cs[a].Mutex? ==> !cs[a].locked
    ensures Held(cs, target) == 0
  {
    if cs != [] {
      NoneHeld(cs[1..], target);
    }
  }

  lemma StartIsSafe(p: Plant)
    requires Start(p)
    ensures Safe(p)
  {
    hide Held, TargetsBounded, HoldsBounded, Sorted;
    forall target: nat ensures TotalHeld(p.actuators, target) == Locked(p.targets, target) {
      forall i | 0 <= i < |p.actuators| ensures Held(p.actuators[i].constraints, target) == 0 {
        NoneHeld(p.actuators[i].constraints, target);
      }
      NothingHeld(p.actuators, target);
    }
    assert Empty(Inactive).history == Shown([Change(Inactive, 0)]);
  }

  /** Every run is safe. */
  lemma {:induction false} RunIsSafe(p: Plant, events: seq<Event>)
    requires Safe(p) && Follows(events, |p.actuators|, p.clock)
    ensures Safe(Run(p, events))
    decreases |events|
  {
    hide Step, LocksOwned, ActuatorSafe, HoldTimesKept, TargetsBounded;
    if events != [] {
      SafeStep(p, events[0]);
      RunIsSafe(Step(p, events[0]), events[1..]);
    }
  }
}
