/**
 When constraints let a change pass, and which wait they announce until then: in true time, for minimum times,
 delays and mutexes.
 */
module ConstraintTimes {
  import opened Ticks
  import opened ChangeLog
  import opened Constraints
  import opened ConstraintRuns
  import opened ConstraintSafety
  import opened ConstraintLaws

  /** How long the clock shows the present state to last. This is the true time before the clock has gone round. */
  function Shows(full: seq<Change>, now: nat): nat
    requires full != [] && full[0].time <= now
  {
    (now - full[0].time) % RANGE
  }

  lemma ShowsElapsed(log: Log, full: seq<Change>, now: nat)
    requires log.history == Shown(full) && Recorded(full, now) && log.output == full[0].state
    ensures TimeInState(log, log.output, Wrap(now)) == Shows(full, now)
    ensures now - full[0].time < RANGE ==> Shows(full, now) == now - full[0].time
  {
    hide LastStartEnd, Shown, Minus, Wrap;
    StateSince(log, full, Wrap(now));
    WrapIsHomomorphic(now, full[0].time);
    WrapIsRemainder(now - full[0].time);
  }

  lemma HasBegun(full: seq<Change>, now: nat)
    requires Recorded(full, now)
    ensures full != [] && full[0].time <= now
  {
  }

  // ---------- minimum times ----------

  /** The actuator would leave a state that has not lasted long enough. */
  predicate TooEarly(c: Constraint, state: State, elapsed: nat, val: State) {
    || (c.MinOnTime? && state == Active && val != Active && elapsed < c.limit)
    || (c.MinOffTime? && state == Inactive && val != Inactive && elapsed < c.limit)
  }

  /** A minimum time objects exactly when the state would be left too early, and announces exactly what is missing. */
  lemma MinimumTimeLeft(c: Constraint, val: State, log: Log, full: seq<Change>, now: nat, ts: seq<Target>,
                        reachable: set<nat>)
    requires c.MinOnTime? || c.MinOffTime?
    requires log.history == Shown(full) && Recorded(full, now) && log.output == full[0].state
    ensures Allowed(c, val, Wrap(now), log, ts, reachable)
      == Reply(if TooEarly(c, full[0].state, Shows(full, now), val) then c.limit - Shows(full, now) else 0, c, ts)
  {
    hide TimeInState, Shown, Recorded;
    HasBegun(full, now);
    ShowsElapsed(log, full, now);
  }

  /** This minimum time has not passed, and so much of it is left. */
  predicate Waits(c: Constraint, state: State, elapsed: nat, val: State, remaining: nat) {
    TooEarly(c, state, elapsed, val) && remaining == c.limit - elapsed
  }

  predicate OnlyMinimumTimes(cs: seq<Constraint>) {
    forall i :: 0 <= i < |cs| ==> cs[i].MinOnTime? || cs[i].MinOffTime?
  }

  /** With only minimum times in the list, a request passes exactly when it is too early for none of them. Otherwise
      the wait is what is missing for one of them, and nothing changes. */
  lemma {:induction false} MinimumTimesLeft(cs: seq<Constraint>, val: State, log: Log, full: seq<Change>, now: nat,
                                            ts: seq<Target>, reachable: set<nat>)
    requires AllFit(cs, |ts|) && OnlyMinimumTimes(cs)
    requires log.history == Shown(full) && Recorded(full, now) && log.output == full[0].state
    ensures var v, elapsed := Check(cs, val, Wrap(now), log, ts, reachable), Shows(full, now);
      && v.constraints == cs && v.targets == ts
      && (v.remaining == 0 <==> forall i :: 0 <= i < |cs| ==> !TooEarly(cs[i], full[0].state, elapsed, val))
      && (v.remaining > 0 ==> exists i :: 0 <= i < |cs| && Waits(cs[i], full[0].state, elapsed, val, v.remaining))
  {
    hide Allowed, Shown, Recorded;
    HasBegun(full, now);
    if cs != [] {
      MinimumTimeLeft(cs[0], val, log, full, now, ts, reachable);
      var r := Allowed(cs[0], val, Wrap(now), log, ts, reachable);
      assert [cs[0]] + cs[1..] == cs;
      if r.remaining == 0 {
        MinimumTimesLeft(cs[1..], val, log, full, now, ts, reachable);
        assert forall i :: 1 <= i < |cs| ==> cs[i] == cs[1..][i - 1];
        var v := Check(cs[1..], val, Wrap(now), log, ts, reachable);
        if v.remaining > 0 {
          var j :| 0 <= j < |cs[1..]| && Waits(cs[1..][j], full[0].state, Shows(full, now), val, v.remaining);
          assert cs[j + 1] == cs[1..][j];
        }
      } else {
        assert Waits(cs[0], full[0].state, Shows(full, now), val, r.remaining);
      }
    }
  }

  lemma OnlyMinimumTimesSame(cs: seq<Constraint>, ds: seq<Constraint>)
    requires SameRules(cs, ds) && OnlyMinimumTimes(cs)
    ensures cs == ds
  {
    hide Rule;
    forall i | 0 <= i < |cs| ensures cs[i] == ds[i] {
      SameKind(cs[i], ds[i]);
    }
  }

  /** In every run, an actuator with only minimum times takes a request exactly when it is too early for none of
      them. A refused request changes nothing but the desired state, and is answered with what is missing. */
  lemma TakesExactly(p: Plant, events: seq<Event>, e: Event)
    requires Start(p) && Follows(events, |p.actuators|, 0) && e.actuator < |p.actuators|
    requires OnlyMinimumTimes(p.actuators[e.actuator].constraints) && Run(p, events).clock <= e.time
    ensures var i, q, r := e.actuator, Run(p, events), Step(Run(p, events), e);
      var cs, full := p.actuators[i].constraints, q.logs[i];
      full != [] && full[0].time <= e.time &&
      var elapsed := Shows(full, e.time);
      var remaining := Desire(q.actuators[i], e.val, Wrap(e.time), q.targets, e.reachable).remaining;
      var passes := forall k :: 0 <= k < |cs| ==> !TooEarly(cs[k], full[0].state, elapsed, e.val);
      && r.logs[i] == (if passes then Grown(full, e.val, e.time) else full)
      && r.actuators[i].log.output == (if passes then e.val else full[0].state)
      && r.actuators[i].desired == e.val && r.actuators[i].log.lastUpdateTime == Wrap(e.time)
      && r.actuators[i].constraints == cs && r.targets == q.targets
      && (remaining == 0 <==> passes)
      && (!passes ==> exists k :: 0 <= k < |cs| && Waits(cs[k], full[0].state, elapsed, e.val, remaining))
  {
    hide Start, Follows, Run, Safe, Shown, Recorded, Rule, SameRules, SameHolds, Check, TooEarly, Shows, Wrap;
    StartFits(p);
    var i, q := e.actuator, Run(p, events);
    FromStart(p, events, i);
    HistoryIsTail(p, events, i);
    OnlyMinimumTimesSame(p.actuators[i].constraints, q.actuators[i].constraints);
    LaterRecorded(q.logs[i], q.clock, e.time);
    HasBegun(q.logs[i], e.time);
    MinimumTimesLeft(q.actuators[i].constraints, e.val, q.actuators[i].log.(lastUpdateTime := Wrap(e.time)),
      q.logs[i], e.time, q.targets, e.reachable);
  }

  /** A constraint that objects leaves those behind it as they are. */
  lemma {:induction false} StopsBefore(cs: seq<Constraint>, val: State, now: u32, log: Log, ts: seq<Target>,
                                       reachable: set<nat>, i: nat, j: nat)
    requires AllFit(cs, |ts|) && i < j < |cs| && (cs[i].MinOnTime? || cs[i].MinOffTime?)
    requires Allowed(cs[i], val, now, log, ts, reachable).remaining > 0
    ensures var v := Check(cs, val, now, log, ts, reachable); v.remaining > 0 && v.constraints[j] == cs[j]
  {
    hide MinTime;
    var r := Allowed(cs[0], val, now, log, ts, reachable);
    if r.remaining == 0 {
      StopsBefore(cs[1..], val, now, log, r.targets, reachable, i - 1, j - 1);
    }
  }

  /** A delay does not begin to count before the minimum times have passed: in a sorted list, while one of them objects,
      every delay stays as it is. */
  lemma DelaysWait(cs: seq<Constraint>, val: State, now: u32, log: Log, ts: seq<Target>, reachable: set<nat>, i: nat,
                   j: nat)
    requires AllFit(cs, |ts|) && Sorted(cs) && i < |cs| && j < |cs|
    requires (cs[i].MinOnTime? || cs[i].MinOffTime?) && (cs[j].DelayedOn? || cs[j].DelayedOff? || cs[j].Mutex?)
    requires Allowed(cs[i], val, now, log, ts, reachable).remaining > 0
    ensures var v := Check(cs, val, now, log, ts, reachable); v.remaining > 0 && v.constraints[j] == cs[j]
  {
    hide Allowed, Check;
    assert cs[i].Order() < cs[j].Order();
    StopsBefore(cs, val, now, log, ts, reachable, i, j);
  }

  // ---------- delays ----------

  /** What is missing of a limit. */
  function Missing(limit: nat, elapsed: nat): nat {
    if elapsed < limit then limit - elapsed else 0
  }

  /** How long the clock shows a change to have been requested. A request at clock value 0 counts from one tick
      earlier. */
  function Asked(first: nat, now: nat): nat
    requires first <= now
  {
    (now - first + if Wrap(first) == 0 then 1 else 0) % RANGE
  }

  /** Through all requests for a change, a delay announces exactly what is missing since the first of them, and lets
      it pass when nothing is. A request for any other state passes at once, and the delay starts anew. */
  lemma DelayPasses(limit: u32, first: nat, again: nat, now: nat, other: State, log: Log, ts: seq<Target>,
                    reachable: set<nat>)
    requires first <= again <= now
    ensures var a := Allowed(DelayedOn(limit, 0), Active, Wrap(first), log, ts, reachable).constraint;
      && Allowed(a, Active, Wrap(again), log, ts, reachable).constraint == a
      && Allowed(a, Active, Wrap(now), log, ts, reachable).remaining == Missing(limit, Asked(first, now))
      && (other != Active ==> Allowed(a, other, Wrap(now), log, ts, reachable) == Reply(0, DelayedOn(limit, 0), ts))
    ensures var b := Allowed(DelayedOff(limit, 0), Inactive, Wrap(first), log, ts, reachable).constraint;
      && Allowed(b, Inactive, Wrap(again), log, ts, reachable).constraint == b
      && Allowed(b, Inactive, Wrap(now), log, ts, reachable).remaining == Missing(limit, Asked(first, now))
      && (other != Inactive ==> Allowed(b, other, Wrap(now), log, ts, reachable) == Reply(0, DelayedOff(limit, 0), ts))
  {
    hide Wrap, Minus;
    var early := if Wrap(first) == 0 then 1 else 0;
    WrapIsHomomorphic(now, first - early);
    WrapIsRemainder(now - first + early);
    RequestedAt(first);
  }

  lemma WrapIsRemainder(a: int)
    ensures Wrap(a) == a % RANGE
  {
  }

  lemma RequestedAt(first: nat)
    ensures Requested(0, Wrap(first)) == Wrap(first - if Wrap(first) == 0 then 1 else 0) != 0
  {
    if Wrap(first) == 0 {
      Shifted(first - 1, -(first / RANGE) + 1);
    }
  }

  // ---------- mutexes ----------

  /** Which part of the hold time the clock shows to have passed. */
  function Rest(state: State, full: seq<Change>, now: nat): nat
    requires full != [] && full[0].time <= now
  {
    if state == Inactive then Shows(full, now) else 0
  }

  lemma TimeOffShows(log: Log, full: seq<Change>, now: nat)
    requires log.history == Shown(full) && Recorded(full, now) && log.output == full[0].state
    requires full != [] && full[0].time <= now
    ensures TimeOff(log, Wrap(now)) == Rest(log.output, full, now)
  {
    hide Shown, Recorded, TimeInState;
    if log.output == Inactive {
      ShowsElapsed(log, full, now);
    }
  }

  /** What a request of the holder leaves in the mutex: the lock, unless it has rested for the hold time, and what is
      missing of that time. */
  predicate LeftBehind(t: Target, hold: nat, rest: nat, val: State) {
    if val == Inactive then t.timeRemaining == Missing(hold, rest) && (t.locked <==> rest < hold)
    else t.timeRemaining == hold && t.locked
  }

  lemma HolderAsks(c: Constraint, val: State, log: Log, now: u32, ts: seq<Target>, reachable: set<nat>)
    requires c.Fits(|ts|) && c.Mutex? && c.locked && ts[c.target].locked
    ensures var r := Allowed(c, val, now, log, ts, reachable);
      && r.remaining == 0
      && LeftBehind(r.targets[c.target], HoldTime(c, ts[c.target]), TimeOff(log, now), val)
  {
    hide TimeOff;
  }

  lemma OthersLeave(c: Constraint, val: State, log: Log, now: u32, ts: seq<Target>, reachable: set<nat>, target: nat)
    requires c.Fits(|ts|) && target < |ts| && Holds(c, target) == 0 && (ts[target].locked || val == Inactive)
    ensures Allowed(c, val, now, log, ts, reachable).targets[target] == ts[target]
  {
    hide TimeOff, MinTime;
  }

  lemma {:induction false} NonHoldersLeave(cs: seq<Constraint>, val: State, log: Log, now: u32, ts: seq<Target>,
                                           reachable: set<nat>, target: nat)
    requires AllFit(cs, |ts|) && target < |ts| && Held(cs, target) == 0
    requires ts[target].locked || val == Inactive
    ensures Check(cs, val, now, log, ts, reachable).targets[target] == ts[target]
  {
    hide Allowed, Holds;
    if cs != [] {
      OthersLeave(cs[0], val, log, now, ts, reachable, target);
      var r := Allowed(cs[0], val, now, log, ts, reachable);
      if r.remaining == 0 {
        NonHoldersLeave(cs[1..], val, log, now, r.targets, reachable, target);
      }
    }
  }

  /** The holder is the only one in its list that changes the mutex. */
  lemma {:induction false} HolderLeaves(cs: seq<Constraint>, val: State, log: Log, now: u32, ts: seq<Target>,
                                        reachable: set<nat>, c: nat)
    requires AllFit(cs, |ts|) && c < |cs| && cs[c].Mutex? && cs[c].locked
    requires ts[cs[c].target].locked && Held(cs, cs[c].target) == 1
    requires Check(cs, val, now, log, ts, reachable).remaining == 0
    ensures LeftBehind(Check(cs, val, now, log, ts, reachable).targets[cs[c].target],
                       HoldTime(cs[c], ts[cs[c].target]), TimeOff(log, now), val)
  {
    hide Allowed, LeftBehind, TimeOff, HoldTime;
    var target := cs[c].target;
    var r := Allowed(cs[0], val, now, log, ts, reachable);
    if c == 0 {
      HolderAsks(cs[0], val, log, now, ts, reachable);
      LeftLocked(r.targets[target], HoldTime(cs[0], ts[target]), TimeOff(log, now), val);
      NonHoldersLeave(cs[1..], val, log, now, r.targets, reachable, target);
    } else {
      HeldAt(cs[1..], c - 1);
      OthersLeave(cs[0], val, log, now, ts, reachable, target);
      HolderLeaves(cs[1..], val, log, now, r.targets, reachable, c - 1);
    }
  }

  lemma LeftLocked(t: Target, hold: nat, rest: nat, val: State)
    requires LeftBehind(t, hold, rest, val)
    ensures t.locked || val == Inactive
  {
  }

  /** What is missing of the hold time after a request that the actuator has taken: all of it, until it is off. */
  function HoldLeft(val: State, full: seq<Change>, hold: nat, now: nat): nat
    requires full != [] && full[0].time <= now
  {
    if val == Inactive then Missing(hold, Shows(full, now)) else hold
  }

  lemma HeldOnce(p: Plant, i: nat, c: nat)
    requires LocksOwned(p) && i < |p.actuators| && AllFit(p.actuators[i].constraints, |p.targets|)
    requires c < |p.actuators[i].constraints|
    requires p.actuators[i].constraints[c].Mutex? && p.actuators[i].constraints[c].locked
    ensures var target := p.actuators[i].constraints[c].target;
      target < |p.targets| && p.targets[target].locked && Held(p.actuators[i].constraints, target) == 1
  {
    hide Held;
    var target := p.actuators[i].constraints[c].target;
    assert TotalHeld(p.actuators, target) == Locked(p.targets, target);
    HeldAt(p.actuators[i].constraints, c);
    TotalAtLeast(p.actuators, i, target);
  }

  lemma RestIsShown(full: seq<Change>, val: State, now: nat)
    requires Recorded(full, now) && full[0].time <= now
    ensures var more := Grown(full, val, now);
      && more[0].time <= now
      && (val == Inactive ==> Rest(full[0].state, full, now) == Shows(more, now))
  {
  }

  /** A request that the holder takes leaves in the mutex what is missing of the hold time, and the lock unless
      nothing is missing. */
  lemma HolderStep(q: Plant, e: Event, c: nat)
    requires Safe(q) && e.actuator < |q.actuators| && q.clock <= e.time && c < |q.actuators[e.actuator].constraints|
    requires var m := q.actuators[e.actuator].constraints[c]; m.Mutex? && m.locked
    requires Desire(q.actuators[e.actuator], e.val, Wrap(e.time), q.targets, e.reachable).remaining == 0
    ensures var m, full := q.actuators[e.actuator].constraints[c], Step(q, e).logs[e.actuator];
      full != [] && full[0].time <= e.time && m.target < |q.targets| &&
      var left, t := HoldLeft(e.val, full, HoldTime(m, q.targets[m.target]), e.time), Step(q, e).targets[m.target];
      t.timeRemaining == left && (t.locked <==> left > 0 || e.val != Inactive)
  {
    hide Check, Shown, Recorded, HoldTimesKept, Held, HoldTime, Shows, TimeOff, Wrap, TargetsBounded, HoldsAllLocks,
      MinimumTimes, MutexKept, Sorted;
    var i := e.actuator;
    var a, full, log := q.actuators[i], q.logs[i], q.actuators[i].log.(lastUpdateTime := Wrap(e.time));
    var m := a.constraints[c];
    LaterRecorded(full, q.clock, e.time);
    HasBegun(full, e.time);
    HeldOnce(q, i, c);
    HolderLeaves(a.constraints, e.val, log, Wrap(e.time), q.targets, e.reachable, c);
    TimeOffShows(log, full, e.time);
    RestIsShown(full, e.val, e.time);
  }

  /** An unlocked mutex constraint that may take the mutex. */
  lemma OtherAsks(c: Constraint, now: u32, log: Log, ts: seq<Target>, reachable: set<nat>)
    requires c.Mutex? && !c.locked && c.target < |ts| && ts[c.target].timeRemaining <= LONGEST_HOLD
    ensures var r := Allowed(c, Active, now, log, ts, reachable);
      && (r.constraint.Mutex? && r.constraint.locked <==> c.target in reachable && !ts[c.target].locked)
      && r.remaining == (if c.target !in reachable then 1000
                         else if ts[c.target].locked then ts[c.target].timeRemaining + 1
                         else 0)
  {
  }

  /** In every run, the wait that another actuator with the mutex is told is one tick more than what is missing of the
      hold time since the last request that the holder took; once nothing is missing, it gets the lock. */
  lemma MutexWait(p: Plant, events: seq<Event>, e: Event, c: nat, j: nat, d: nat, target: nat, later: u32,
                  reachable: set<nat>)
    requires Start(p) && Follows(events, |p.actuators|, 0) && e.actuator < |p.actuators| && j < |p.actuators|
    requires IsMutex(p.actuators[e.actuator], c, target) && IsMutex(p.actuators[j], d, target) && j != e.actuator
    requires target < |p.targets| && target in reachable && Run(p, events).clock <= e.time
    requires IsMutex(Run(p, events).actuators[e.actuator], c, target)
             && Run(p, events).actuators[e.actuator].constraints[c].locked
    requires Desire(Run(p, events).actuators[e.actuator], e.val, Wrap(e.time), Run(p, events).targets, e.reachable)
               .remaining == 0
    ensures var i, r := e.actuator, Step(Run(p, events), e);
      var full := r.logs[i];
      && full != [] && full[0].time <= e.time && |r.targets| == |p.targets| && IsMutex(r.actuators[j], d, target)
      && var left := HoldLeft(e.val, full, HoldTime(p.actuators[i].constraints[c], p.targets[target]), e.time);
         var answer := Allowed(r.actuators[j].constraints[d], Active, later, r.actuators[j].log, r.targets, reachable);
         if left == 0 && e.val == Inactive then answer.remaining == 0 && answer.constraint.locked
         else answer.remaining == left + 1
  {
    hide Start, Follows, Run, Step, Rule, Check, Allowed, Shows, Wrap, LocksOwned, HoldTimesKept, ActuatorSafe;
    StartFits(p);
    var i, q := e.actuator, Run(p, events);
    FromStart(p, events, i);
    FromStart(p, events, j);
    HolderStep(q, e, c);
    var r := Step(q, e);
    StepKeepsRules(q, e, j);
    SameMutex(p.actuators[i].constraints, q.actuators[i].constraints, c);
    SameMutex(p.actuators[j].constraints, q.actuators[j].constraints, d);
    Excludes(q, i, j, c, d);
    OtherStays(q, e, j);
    SafeStep(q, e);
    OtherAsks(r.actuators[j].constraints[d], later, r.actuators[j].log, r.targets, reachable);
  }

  lemma OtherStays(p: Plant, e: Event, j: nat)
    requires Fit(p) && e.actuator < |p.actuators| && j < |p.actuators| && j != e.actuator
    ensures Step(p, e).actuators[j] == p.actuators[j]
  {
  }
}
