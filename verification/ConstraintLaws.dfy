/** The promises of constrained actuators over every run, and the limits of those promises. */
module ConstraintLaws {
  import opened Ticks
  import opened ChangeLog
  import opened Constraints
  import opened ConstraintRuns
  import opened ConstraintSafety

  lemma {:induction false} RunKeepsRules(p: Plant, events: seq<Event>, i: nat)
    requires Fit(p) && Follows(events, |p.actuators|, p.clock) && i < |p.actuators|
    ensures SameRules(p.actuators[i].constraints, Run(p, events).actuators[i].constraints)
    ensures SameHolds(p.targets, Run(p, events).targets)
    decreases |events|
  {
    hide Rule, Check, Fit;
    if events == [] {
      SameSelf(p.actuators[i].constraints);
    } else {
      var e := events[0];
      StepKeepsRules(p, e, i);
      RunKeepsRules(Step(p, e), events[1..], i);
      SameThrough(p.actuators[i].constraints, Step(p, e).actuators[i].constraints,
        Run(p, events).actuators[i].constraints);
    }
  }

  lemma StepKeepsRules(p: Plant, e: Event, i: nat)
    requires Fit(p) && e.actuator < |p.actuators| && i < |p.actuators|
    ensures SameRules(p.actuators[i].constraints, Step(p, e).actuators[i].constraints)
    ensures SameHolds(p.targets, Step(p, e).targets) && Step(p, e).clock == e.time
  {
    hide Rule, Check;
    var a := p.actuators[e.actuator];
    SameSelf(p.actuators[i].constraints);
    CheckKeeps(a.constraints, e.val, Wrap(e.time), a.log.(lastUpdateTime := Wrap(e.time)), p.targets, e.reachable);
  }

  lemma SameThrough(a: seq<Constraint>, b: seq<Constraint>, c: seq<Constraint>)
    requires SameRules(a, b) && SameRules(b, c)
    ensures SameRules(a, c)
  {
    hide Rule;
  }

  lemma StartFits(p: Plant)
    requires Start(p)
    ensures Fit(p) && p.clock == 0
  {
  }

  /** From the start, every run is safe and has the constraints of the start. */
  lemma FromStart(p: Plant, events: seq<Event>, i: nat)
    requires Start(p) && Follows(events, |p.actuators|, 0) && i < |p.actuators|
    ensures Safe(Run(p, events))
    ensures SameRules(p.actuators[i].constraints, Run(p, events).actuators[i].constraints)
    ensures SameHolds(p.targets, Run(p, events).targets)
  {
    hide Safe;
    StartIsSafe(p);
    RunIsSafe(p, events);
    RunKeepsRules(p, events, i);
  }

  ghost predicate IsMutex(a: Actuator, c: nat, target: nat) {
    c < |a.constraints| && a.constraints[c].Mutex? && a.constraints[c].target == target
  }

  lemma SameMutex(cs: seq<Constraint>, ds: seq<Constraint>, c: nat)
    requires SameRules(cs, ds) && c < |cs| && cs[c].Mutex?
    ensures ds[c].Mutex? && ds[c].target == cs[c].target
    ensures ds[c].hold == cs[c].hold && ds[c].useCustomHold == cs[c].useCustomHold
  {
    SameKind(cs[c], ds[c]);
  }

  /** An active actuator holds the lock of every mutex in its list. */
  lemma ActiveHoldsLocks(p: Plant, events: seq<Event>, i: nat, c: nat, target: nat)
    requires Start(p) && Follows(events, |p.actuators|, 0) && i < |p.actuators|
    requires IsMutex(p.actuators[i], c, target)
    ensures var a := Run(p, events).actuators[i];
      a.log.output == Active ==> IsMutex(a, c, target) && a.constraints[c].locked
  {
    hide Rule, Start, Run, Fit, Follows, LocksOwned, HoldTimesKept, Faithful, Sorted;
    StartFits(p);
    FromStart(p, events, i);
    SameMutex(p.actuators[i].constraints, Run(p, events).actuators[i].constraints, c);
  }

  /** Two actuators that share a mutex are never active at the same time. */
  lemma MutualExclusion(p: Plant, events: seq<Event>, i: nat, j: nat, c: nat, d: nat, target: nat)
    requires Start(p) && Follows(events, |p.actuators|, 0) && i < |p.actuators| && j < |p.actuators| && i != j
    requires IsMutex(p.actuators[i], c, target) && IsMutex(p.actuators[j], d, target)
    ensures var q := Run(p, events);
      !(q.actuators[i].log.output == Active && q.actuators[j].log.output == Active)
  {
    hide Rule, Start, Run, Fit, Follows, ActuatorSafe, HoldTimesKept, LocksOwned;
    StartFits(p);
    var q := Run(p, events);
    FromStart(p, events, i);
    FromStart(p, events, j);
    SameMutex(p.actuators[i].constraints, q.actuators[i].constraints, c);
    SameMutex(p.actuators[j].constraints, q.actuators[j].constraints, d);
    ActiveHoldsLocks(p, events, i, c, target);
    ActiveHoldsLocks(p, events, j, d, target);
    if q.actuators[i].log.output == Active {
      Excludes(q, i, j, c, d);
    }
  }

  /** In every step of every run that leaves an actuator active, each other actuator with the same mutex has been
      off for the hold time in true time since it last switched off, however often the clock has wrapped.
      This includes a switch-on in the same tick as the switch-off. */
  lemma HoldTimePasses(p: Plant, events: seq<Event>, e: Event, i: nat, j: nat, c: nat, d: nat, target: nat)
    requires Start(p) && Follows(events, |p.actuators|, 0) && i < |p.actuators| && j < |p.actuators| && i != j
    requires IsMutex(p.actuators[i], c, target) && IsMutex(p.actuators[j], d, target) && target < |p.targets|
    requires e.actuator < |p.actuators| && Run(p, events).clock <= e.time
    ensures var q := Step(Run(p, events), e);
      q.actuators[i].log.output == Active ==>
        Rested(q.logs[j], HoldTime(p.actuators[j].constraints[d], p.targets[target]), e.time)
  {
    hide Rule, Start, Run, Follows, Step, LocksOwned, HoldTimesKept, Rested, Faithful, Sorted, MinimumTimes, MutexKept,
      TargetsBounded;
    StartFits(p);
    var r := Run(p, events);
    FromStart(p, events, i);
    FromStart(p, events, j);
    SafeStep(r, e);
    StepKeepsRules(r, e, i);
    StepKeepsRules(r, e, j);
    var q := Step(r, e);
    SameMutex(p.actuators[i].constraints, r.actuators[i].constraints, c);
    SameMutex(r.actuators[i].constraints, q.actuators[i].constraints, c);
    SameMutex(p.actuators[j].constraints, r.actuators[j].constraints, d);
    SameMutex(r.actuators[j].constraints, q.actuators[j].constraints, d);
    if q.actuators[i].log.output == Active {
      assert ActuatorSafe(q.actuators[i], q.logs[i], q.targets, q.clock);
      assert Shares(q.actuators[i].constraints, target);
      OtherRested(q, i, j, d);
    }
  }

  /** The same in the logs of a whole run: each switch-on that is logged later than a switch-off of another actuator
      with the mutex is later by at least the hold time. */
  lemma LoggedHoldTimes(p: Plant, events: seq<Event>, i: nat, j: nat, c: nat, d: nat, target: nat, k: nat, m: nat)
    requires Start(p) && Follows(events, |p.actuators|, 0) && i < |p.actuators| && j < |p.actuators| && i != j
    requires IsMutex(p.actuators[i], c, target) && IsMutex(p.actuators[j], d, target) && target < |p.targets|
    ensures var off, on := Run(p, events).logs[j], Run(p, events).logs[i];
      (&& k < |off| - 1 && off[k].state != Active && off[k + 1].state == Active
       && m < |on| && on[m].state == Active && off[k].time < on[m].time)
      ==> off[k].time + HoldTime(p.actuators[j].constraints[d], p.targets[target]) <= on[m].time
  {
    hide Rule, Start, Run, Follows, ActuatorSafe, LocksOwned;
    StartFits(p);
    var q := Run(p, events);
    FromStart(p, events, i);
    FromStart(p, events, j);
    SameMutex(p.actuators[i].constraints, q.actuators[i].constraints, c);
    SameMutex(p.actuators[j].constraints, q.actuators[j].constraints, d);
    assert Shares(q.actuators[i].constraints, target);
    assert PairKept(q, i, j, q.actuators[j].constraints[d]);
  }

  /** Between two changes lies at least the minimum time of the state in between. */
  lemma MinimumTimesPass(p: Plant, events: seq<Event>, i: nat, c: nat, k: nat)
    requires Start(p) && Follows(events, |p.actuators|, 0) && i < |p.actuators| && c < |p.actuators[i].constraints|
    ensures var log, rule := Run(p, events).logs[i], p.actuators[i].constraints[c];
      && (rule.MinOffTime? && k < |log| - 1 && log[k + 1].state == Inactive
        ==> log[k + 1].time + rule.limit <= log[k].time)
      && (rule.MinOnTime? && k < |log| - 1 && log[k + 1].state == Active
        ==> log[k + 1].time + rule.limit <= log[k].time)
  {
    hide Rule, Start, Run, Follows, LocksOwned, HoldTimesKept, Sorted, Faithful;
    StartFits(p);
    var q := Run(p, events);
    FromStart(p, events, i);
    var cs, ds := p.actuators[i].constraints, q.actuators[i].constraints;
    SameKind(cs[c], ds[c]);
    assert MinimumTimes(q.logs[i], ds[c]);
  }

  /** The history of an actuator is always the newest part of its whole log. */
  lemma HistoryIsTail(p: Plant, events: seq<Event>, i: nat)
    requires Start(p) && Follows(events, |p.actuators|, 0) && i < |p.actuators|
    ensures var q := Run(p, events);
      && q.actuators[i].log.history == Shown(q.logs[i]) && Recorded(q.logs[i], q.clock)
      && q.actuators[i].log.output == q.logs[i][0].state
  {
    hide Rule, Start, Run, Follows, LocksOwned, HoldTimesKept, Shown, Recorded;
    StartFits(p);
    FromStart(p, events, i);
  }

  // ---------- the longest hold time ----------

  /** An unlocked mutex constraint lets its actuator on without the lock exactly when the lock is taken
      and its remaining time is the largest clock value. */
  lemma PassesWithoutLock(c: Constraint, now: u32, log: Log, ts: seq<Target>, reachable: set<nat>)
    requires c.Mutex? && !c.locked
    ensures var r := Allowed(c, Active, now, log, ts, reachable);
      r.remaining == 0 && !r.constraint.locked
      <==> c.target in reachable && c.target < |ts| && ts[c.target].locked && ts[c.target].timeRemaining == RANGE - 1
  {
  }

  /** Two actuators that share one mutex with this hold time, their own or the default of the target. */
  function Pair(hold: u32, custom: bool): Plant {
    Twins([Sharing(hold, custom, false)], [Sharing(hold, custom, false)], if custom then 0 else hold)
  }

  function Sharing(hold: u32, custom: bool, locked: bool): Constraint {
    Mutex(0, if custom then hold else 0, custom, locked)
  }

  function Twins(cs: seq<Constraint>, ds: seq<Constraint>, hold: u32): Plant {
    Plant([Actuator(Empty(Inactive), cs, Inactive), Actuator(Empty(Inactive), ds, Inactive)],
          [[Change(Inactive, 0)], [Change(Inactive, 0)]], [Target(false, hold, 0)], 0)
  }

  predicate BothActive(p: Plant) {
    |p.actuators| == 2 && p.actuators[0].log.output == Active && p.actuators[1].log.output == Active
  }

  function Request(actuator: nat, val: State, time: nat): Event {
    Event(actuator, val, time, {0})
  }

  /** Sharing a mutex excludes on all runs exactly when the hold time that applies is not the largest clock
      value. */
  lemma HoldCondition(hold: u32, custom: bool)
    ensures (forall events :: Follows(events, 2, 0) ==> !BothActive(Run(Pair(hold, custom), events)))
      <==> hold <= LONGEST_HOLD
  {
    hide Step;
    if hold <= LONGEST_HOLD {
      forall events | Follows(events, 2, 0) ensures !BothActive(Run(Pair(hold, custom), events)) {
        PairStarts(hold, custom);
        MutualExclusion(Pair(hold, custom), events, 0, 1, 0, 0, 0);
      }
    } else {
      var events := [Request(0, Active, 1), Request(0, Active, 2), Request(1, Active, 3)];
      LongestHoldFails(custom);
      ThreeFollow(events);
    }
  }

  lemma PairStarts(hold: u32, custom: bool)
    requires hold <= LONGEST_HOLD
    ensures var p := Pair(hold, custom); Start(p) && IsMutex(p.actuators[0], 0, 0) && IsMutex(p.actuators[1], 0, 0)
  {
  }

  lemma ThreeFollow(events: seq<Event>)
    requires |events| == 3 && forall k :: 0 <= k < 3 ==> events[k].actuator < 2 && events[k].time == k + 1
    ensures Follows(events, 2, 0)
  {
    assert Follows(events[1..][1..][1..], 2, 3);
    assert Follows(events[1..][1..], 2, 2);
    assert Follows(events[1..], 2, 1);
  }

  lemma RunFirst(p: Plant, e: Event, events: seq<Event>)
    requires Fit(p) && Follows([e] + events, |p.actuators|, p.clock)
    ensures e.actuator < |p.actuators| && Fit(Step(p, e)) && Follows(events, |Step(p, e).actuators|, Step(p, e).clock)
    ensures Run(p, [e] + events) == Run(Step(p, e), events)
  {
    hide Step;
    assert ([e] + events)[1..] == events && ([e] + events)[0] == e;
    StepKeepsRules(p, e, e.actuator);
  }

  lemma RunThree(p: Plant, a: Event, b: Event, c: Event)
    requires Fit(p) && Follows([a, b, c], |p.actuators|, p.clock)
    ensures a.actuator < |p.actuators| && b.actuator < |p.actuators| && c.actuator < |p.actuators|
    ensures Run(p, [a, b, c]) == Step(Step(Step(p, a), b), c)
  {
    hide Step, Fit, Run, Follows;
    assert [a, b, c] == [a] + [b, c] && [b, c] == [b] + [c] && [c] == [c] + [];
    RunFirst(p, a, [b, c]);
    RunFirst(Step(p, a), b, [c]);
    RunFirst(Step(Step(p, a), b), c, []);
    RunNothing(Step(Step(Step(p, a), b), c));
  }

  lemma RunNothing(p: Plant)
    requires Fit(p)
    ensures Run(p, []) == p
  {
  }

  lemma CheckOne(c: Constraint, val: State, now: u32, log: Log, ts: seq<Target>, reachable: set<nat>)
    requires c.Fits(|ts|)
    ensures AllFit([c], |ts|)
    ensures var r := Allowed(c, val, now, log, ts, reachable);
      Check([c], val, now, log, ts, reachable) == Verdict(r.remaining, [r.constraint], r.targets)
  {
    hide Allowed;
    assert [c][1..] == [];
  }

  /** With the largest hold time the wait wraps to 0 and the second actuator switches on as well. */
  lemma LongestHoldFails(custom: bool)
    ensures var p := Pair(RANGE - 1, custom);
      Fit(p) && Follows([Request(0, Active, 1), Request(0, Active, 2), Request(1, Active, 3)], 2, 0)
      && BothActive(Run(p, [Request(0, Active, 1), Request(0, Active, 2), Request(1, Active, 3)]))
  {
    hide Check, Grown, Step;
    var p := Pair(RANGE - 1, custom);
    var a, b, c := Request(0, Active, 1), Request(0, Active, 2), Request(1, Active, 3);
    ThreeFollow([a, b, c]);
    RunThree(p, a, b, c);
    FirstTakes(RANGE - 1, custom, a);
    FirstKeeps(Step(p, a), custom, b);
    SecondWaits(Step(Step(p, a), b), custom, c);
  }

  /** The first actuator of a pair is active and holds the lock. */
  ghost predicate FirstActive(p: Plant, hold: u32, custom: bool, remaining: u32) {
    && Fit(p) && |p.actuators| == 2
    && p.actuators[0].log.output == Active && p.actuators[0].constraints == [Sharing(hold, custom, true)]
    && p.actuators[1].constraints == [Sharing(hold, custom, false)]
    && p.targets == [Target(true, if custom then 0 else hold, remaining)]
  }

  lemma FirstTakes(hold: u32, custom: bool, e: Event)
    requires e.actuator == 0 && e.val == Active && e.reachable == {0}
    ensures FirstActive(Step(Pair(hold, custom), e), hold, custom, 0)
  {
    hide Check, Grown;
    var p := Pair(hold, custom);
    CheckOne(Sharing(hold, custom, false), Active, Wrap(e.time), p.actuators[0].log.(lastUpdateTime := Wrap(e.time)),
      p.targets, {0});
  }

  lemma FirstKeeps(p: Plant, custom: bool, e: Event)
    requires FirstActive(p, RANGE - 1, custom, 0)
    requires e.actuator == 0 && e.val == Active && e.reachable == {0}
    ensures FirstActive(Step(p, e), RANGE - 1, custom, RANGE - 1)
  {
    hide Check, Grown;
    CheckOne(Sharing(RANGE - 1, custom, true), Active, Wrap(e.time),
      p.actuators[0].log.(lastUpdateTime := Wrap(e.time)), p.targets, {0});
  }

  lemma SecondWaits(p: Plant, custom: bool, e: Event)
    requires FirstActive(p, RANGE - 1, custom, RANGE - 1)
    requires e.actuator == 1 && e.val == Active && e.reachable == {0}
    ensures BothActive(Step(p, e))
  {
    hide Check, Grown;
    CheckOne(Sharing(RANGE - 1, custom, false), Active, Wrap(e.time),
      p.actuators[1].log.(lastUpdateTime := Wrap(e.time)), p.targets, {0});
  }

  // ---------- the order of constraints ----------

  /** The same constraints in another order: the mutex before the delay. */
  function Unsorted(): Plant {
    Twins([Mutex(0, 0, true, false), DelayedOff(10, 0)], [Mutex(0, 0, true, false)], 0)
  }

  lemma CheckTwo(c: Constraint, d: Constraint, val: State, now: u32, log: Log, ts: seq<Target>, reachable: set<nat>)
    requires c.Fits(|ts|) && d.Fits(|ts|) && Allowed(c, val, now, log, ts, reachable).remaining == 0
    ensures AllFit([c, d], |ts|)
    ensures var r := Allowed(c, val, now, log, ts, reachable);
      var s := Allowed(d, val, now, log, r.targets, reachable);
      Check([c, d], val, now, log, ts, reachable) == Verdict(s.remaining, [r.constraint, s.constraint], s.targets)
  {
    hide Allowed;
    var r := Allowed(c, val, now, log, ts, reachable);
    CheckOne(d, val, now, log, r.targets, reachable);
    assert [c, d][1..] == [d];
  }

  /** If mutexes were not checked last, a delay could keep an actuator on that has given up its lock. */
  lemma OrderMatters()
    ensures var p := Unsorted(); var events := [Request(0, Active, 1), Request(0, Inactive, 2), Request(1, Active, 3)];
      && Fit(p) && !Sorted(p.actuators[0].constraints)
      && Follows(events, 2, 0) && BothActive(Run(p, events))
  {
    hide Check, Grown, Step;
    var p := Unsorted();
    var a, b, c := Request(0, Active, 1), Request(0, Inactive, 2), Request(1, Active, 3);
    ThreeFollow([a, b, c]);
    RunThree(p, a, b, c);
    UnsortedOn(a);
    UnsortedDelays(Step(p, a), b);
    UnsortedSecond(Step(Step(p, a), b), c);
    assert p.actuators[0].constraints[0].Order() > p.actuators[0].constraints[1].Order();
  }

  ghost predicate UnsortedState(p: Plant, locked: bool, requested: u32) {
    && Fit(p) && |p.actuators| == 2
    && p.actuators[0].log.output == Active
    && p.actuators[0].constraints == [Mutex(0, 0, true, locked), DelayedOff(10, requested)]
    && p.actuators[1].constraints == [Mutex(0, 0, true, false)]
    && p.targets == [Target(locked, 0, 0)]
  }

  lemma UnsortedOn(e: Event)
    requires e == Request(0, Active, 1)
    ensures UnsortedState(Step(Unsorted(), e), true, 0)
  {
    hide Check, Grown;
    var p := Unsorted();
    CheckTwo(Mutex(0, 0, true, false), DelayedOff(10, 0), Active, 1, p.actuators[0].log.(lastUpdateTime := 1),
      p.targets, {0});
  }

  lemma UnsortedDelays(p: Plant, e: Event)
    requires UnsortedState(p, true, 0) && e == Request(0, Inactive, 2)
    ensures UnsortedState(Step(p, e), false, 2)
  {
    hide Check, Grown;
    CheckTwo(Mutex(0, 0, true, true), DelayedOff(10, 0), Inactive, 2, p.actuators[0].log.(lastUpdateTime := 2),
      p.targets, {0});
  }

  lemma UnsortedSecond(p: Plant, e: Event)
    requires UnsortedState(p, false, 2) && e == Request(1, Active, 3)
    ensures BothActive(Step(p, e))
  {
    hide Check, Grown;
    CheckOne(Mutex(0, 0, true, false), Active, 3, p.actuators[1].log.(lastUpdateTime := 3), p.targets, {0});
  }
}
