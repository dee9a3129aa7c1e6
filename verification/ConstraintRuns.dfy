/**
 Runs of many constrained actuators that share mutexes and one clock. The program sees the clock
 modulo 2^32; the logs here record true time.
 */
module ConstraintRuns {
  import opened Ticks
  import opened ChangeLog
  import opened Constraints

  datatype Plant = Plant(actuators: seq<Actuator>, logs: seq<seq<Change>>, targets: seq<Target>, clock: nat)

  /** A state is requested of one actuator. An update requests the state that was requested before. */
  datatype Event = Event(actuator: nat, val: State, time: nat, reachable: set<nat>)

  predicate Fit(p: Plant) {
    && |p.logs| == |p.actuators|
    && forall i :: 0 <= i < |p.logs| ==> p.logs[i] != [] && AllFit(p.actuators[i].constraints, |p.targets|)
  }

  function Step(p: Plant, e: Event): (r: Plant)
    requires Fit(p) && e.actuator < |p.actuators|
    ensures Fit(r) && |r.actuators| == |p.actuators|
  {
    var i := e.actuator;
    var o := Desire(p.actuators[i], e.val, Wrap(e.time), p.targets, e.reachable);
    Plant(p.actuators[i := o.actuator],
          p.logs[i := After(p.logs[i], o.remaining, e.val, e.time)],
          o.targets, e.time)
  }

  function After(log: seq<Change>, remaining: u32, val: State, time: nat): (r: seq<Change>)
    requires log != []
    ensures r != []
  {
    if remaining == 0 then Grown(log, val, time) else log
  }

  /** The clock does not run backwards. */
  predicate Follows(events: seq<Event>, actuators: nat, clock: nat) {
    events != [] ==>
      events[0].actuator < actuators && clock <= events[0].time && Follows(events[1..], actuators, events[0].time)
  }

  function Run(p: Plant, events: seq<Event>): (r: Plant)
    requires Fit(p) && Follows(events, |p.actuators|, p.clock)
    ensures Fit(r) && |r.actuators| == |p.actuators|
    decreases |events|
  {
    if events == [] then p else Run(Step(p, events[0]), events[1..])
  }

  // ---------- what a check keeps ----------

  /** The fixed part of a constraint. */
  function Rule(c: Constraint): Constraint {
    match c
    case DelayedOn(limit, _) => DelayedOn(limit, 0)
    case DelayedOff(limit, _) => DelayedOff(limit, 0)
    case Mutex(target, hold, custom, _) => Mutex(target, hold, custom, false)
    case _ => c
  }

  ghost predicate SameRules(cs: seq<Constraint>, ds: seq<Constraint>) {
    |cs| == |ds| && forall i :: 0 <= i < |cs| ==> Rule(cs[i]) == Rule(ds[i])
  }

  ghost predicate SameHolds(ts: seq<Target>, us: seq<Target>) {
    |ts| == |us| && forall k :: 0 <= k < |ts| ==> ts[k].hold == us[k].hold
  }

  /** The wait for a mutex is one more than its remaining time, which must not wrap to 0. */
  const LONGEST_HOLD: u32 := RANGE - 2

  predicate TargetsBounded(ts: seq<Target>) {
    forall k :: 0 <= k < |ts| ==> ts[k].hold <= LONGEST_HOLD && ts[k].timeRemaining <= LONGEST_HOLD
  }

  predicate HoldBounded(c: Constraint) {
    c.Mutex? ==> c.hold <= LONGEST_HOLD
  }

  predicate HoldsBounded(cs: seq<Constraint>) {
    forall i :: 0 <= i < |cs| ==> HoldBounded(cs[i])
  }

  lemma AllowedKeeps(c: Constraint, val: State, now: u32, log: Log, ts: seq<Target>, reachable: set<nat>)
    requires c.Fits(|ts|)
    ensures var r := Allowed(c, val, now, log, ts, reachable);
      && Rule(r.constraint) == Rule(c) && SameHolds(ts, r.targets)
      && (HoldBounded(c) && TargetsBounded(ts) ==> TargetsBounded(r.targets))
  {
    hide MinTime, TimeOff;
  }

  lemma NothingKept(ts: seq<Target>)
    ensures SameRules([], []) && SameHolds(ts, ts)
  {
  }

  lemma SameRulesCons(cs: seq<Constraint>, d: Constraint, ds: seq<Constraint>)
    requires cs != [] && Rule(cs[0]) == Rule(d) && SameRules(cs[1..], ds)
    ensures SameRules(cs, [d] + ds)
  {
    hide Rule;
    forall i | 0 <= i < |cs| ensures Rule(cs[i]) == Rule(([d] + ds)[i]) {
      if i > 0 {
        assert cs[i] == cs[1..][i - 1] && ([d] + ds)[i] == ds[i - 1];
      }
    }
  }

  lemma SameSelf(cs: seq<Constraint>)
    ensures SameRules(cs, cs)
  {
    hide Rule;
  }

  lemma SameHoldsThrough(a: seq<Target>, b: seq<Target>, c: seq<Target>)
    requires SameHolds(a, b) && SameHolds(b, c)
    ensures SameHolds(a, c)
  {
  }

  lemma {:induction false} CheckKeeps(cs: seq<Constraint>, val: State, now: u32, log: Log, ts: seq<Target>,
      reachable: set<nat>)
    requires AllFit(cs, |ts|)
    ensures var v := Check(cs, val, now, log, ts, reachable);
      && SameRules(cs, v.constraints) && SameHolds(ts, v.targets)
      && (HoldsBounded(cs) && TargetsBounded(ts) ==> TargetsBounded(v.targets))
  {
    hide Allowed, Rule, HoldBounded, TargetsBounded, SameRules, SameHolds;
    if cs == [] {
      NothingKept(ts);
    } else {
      var r := Allowed(cs[0], val, now, log, ts, reachable);
      AllowedKeeps(cs[0], val, now, log, ts, reachable);
      if r.remaining == 0 {
        CheckKeeps(cs[1..], val, now, log, r.targets, reachable);
        var v := Check(cs[1..], val, now, log, r.targets, reachable);
        SameRulesCons(cs, r.constraint, v.constraints);
        SameHoldsThrough(ts, r.targets, v.targets);
      } else {
        SameSelf(cs[1..]);
        SameRulesCons(cs, r.constraint, cs[1..]);
      }
    }
  }

  // ---------- who holds a mutex ----------

  function Holds(c: Constraint, target: nat): nat {
    if c.Mutex? && c.locked && c.target == target then 1 else 0
  }

  /** How many constraints of a list hold the mutex. */
  function Held(cs: seq<Constraint>, target: nat): nat {
    if cs == [] then 0 else Holds(cs[0], target) + Held(cs[1..], target)
  }

  function Locked(ts: seq<Target>, target: nat): nat {
    if target < |ts| && ts[target].locked then 1 else 0
  }

  function TotalHeld(acts: seq<Actuator>, target: nat): nat {
    if acts == [] then 0 else Held(acts[0].constraints, target) + TotalHeld(acts[1..], target)
  }

  lemma AllowedCounts(c: Constraint, val: State, now: u32, log: Log, ts: seq<Target>, reachable: set<nat>, target: nat)
    requires c.Fits(|ts|) && (c.Mutex? ==> Holds(c, c.target) <= Locked(ts, c.target))
    ensures var r := Allowed(c, val, now, log, ts, reachable);
      Holds(r.constraint, target) - Holds(c, target) == Locked(r.targets, target) - Locked(ts, target)
  {
    hide MinTime, TimeOff;
  }

  /** A lock is taken or given up exactly when a constraint begins or ends to hold it. */
  lemma {:induction false} CheckCounts(cs: seq<Constraint>, val: State, now: u32, log: Log, ts: seq<Target>,
      reachable: set<nat>, target: nat)
    requires AllFit(cs, |ts|) && forall k: nat :: Held(cs, k) <= Locked(ts, k)
    ensures var v := Check(cs, val, now, log, ts, reachable);
      Held(v.constraints, target) - Held(cs, target) == Locked(v.targets, target) - Locked(ts, target)
  {
    hide Allowed, Holds, Locked;
    if cs != [] {
      var r := Allowed(cs[0], val, now, log, ts, reachable);
      HeldHead(cs, ts);
      AllowedCounts(cs[0], val, now, log, ts, reachable, target);
      HeldCons(r.constraint, cs[1..], target);
      if r.remaining == 0 {
        forall k: nat ensures Held(cs[1..], k) <= Locked(r.targets, k) {
          AllowedCounts(cs[0], val, now, log, ts, reachable, k);
          assert Held(cs, k) <= Locked(ts, k);
        }
        CheckCounts(cs[1..], val, now, log, r.targets, reachable, target);
        HeldCons(r.constraint, Check(cs[1..], val, now, log, r.targets, reachable).constraints, target);
      }
    }
  }

  lemma HeldHead(cs: seq<Constraint>, ts: seq<Target>)
    requires cs != [] && forall k: nat :: Held(cs, k) <= Locked(ts, k)
    ensures cs[0].Mutex? ==> Holds(cs[0], cs[0].target) <= Locked(ts, cs[0].target)
  {
    hide Holds, Locked;
    if cs[0].Mutex? {
      assert Held(cs, cs[0].target) <= Locked(ts, cs[0].target);
    }
  }

  lemma HeldCons(c: Constraint, cs: seq<Constraint>, target: nat)
    ensures Held([c] + cs, target) == Holds(c, target) + Held(cs, target)
  {
    assert ([c] + cs)[1..] == cs;
  }

  lemma {:induction false} HeldAt(cs: seq<Constraint>, i: nat)
    requires i < |cs| && cs[i].Mutex? && cs[i].locked
    ensures Held(cs, cs[i].target) >= 1
  {
    if i > 0 {
      HeldAt(cs[1..], i - 1);
    }
  }

  lemma {:induction false} TotalChange(acts: seq<Actuator>, i: nat, a: Actuator, target: nat)
    requires i < |acts|
    ensures TotalHeld(acts[i := a], target) - TotalHeld(acts, target)
            == Held(a.constraints, target) - Held(acts[i].constraints, target)
  {
    hide Held;
    if i == 0 {
      assert acts[0 := a][1..] == acts[1..];
    } else {
      assert acts[i := a][1..] == acts[1..][i - 1 := a];
      TotalChange(acts[1..], i - 1, a, target);
    }
  }

  lemma {:induction false} TotalAtLeast(acts: seq<Actuator>, i: nat, target: nat)
    requires i < |acts|
    ensures Held(acts[i].constraints, target) <= TotalHeld(acts, target)
  {
    hide Held;
    if i > 0 {
      TotalAtLeast(acts[1..], i - 1, target);
    }
  }

  lemma {:induction false} TotalAtLeastTwo(acts: seq<Actuator>, i: nat, j: nat, target: nat)
    requires i < j < |acts|
    ensures Held(acts[i].constraints, target) + Held(acts[j].constraints, target) <= TotalHeld(acts, target)
  {
    hide Held;
    if i == 0 {
      TotalAtLeast(acts[1..], j - 1, target);
    } else {
      TotalAtLeastTwo(acts[1..], i - 1, j - 1, target);
    }
  }

  /** Every lock is held by exactly one constraint of exactly one actuator. */
  ghost predicate LocksOwned(p: Plant) {
    forall k: nat :: TotalHeld(p.actuators, k) == Locked(p.targets, k)
  }

  // ---------- what passing a check means ----------

  lemma AllowedPassed(c: Constraint, val: State, now: u32, log: Log, ts: seq<Target>, reachable: set<nat>)
    requires c.Fits(|ts|) && TargetsBounded(ts) && Allowed(c, val, now, log, ts, reachable).remaining == 0
    ensures c.MinOffTime? ==> MinTime(c.limit, Inactive, val, now, log) == 0
    ensures c.MinOnTime? ==> MinTime(c.limit, Active, val, now, log) == 0
    ensures val == Active && c.Mutex? ==> Allowed(c, val, now, log, ts, reachable).constraint.locked
  {
    hide MinTime, TimeOff;
  }

  lemma {:induction false} CheckPassed(cs: seq<Constraint>, val: State, now: u32, log: Log, ts: seq<Target>,
      reachable: set<nat>, i: nat)
    requires AllFit(cs, |ts|) && HoldsBounded(cs) && TargetsBounded(ts) && i < |cs|
    requires Check(cs, val, now, log, ts, reachable).remaining == 0
    ensures cs[i].MinOffTime? ==> MinTime(cs[i].limit, Inactive, val, now, log) == 0
    ensures cs[i].MinOnTime? ==> MinTime(cs[i].limit, Active, val, now, log) == 0
    ensures val == Active && cs[i].Mutex? ==>
      var c := Check(cs, val, now, log, ts, reachable).constraints[i]; c.Mutex? && c.locked
  {
    hide Allowed, MinTime, HoldBounded, TargetsBounded, Rule;
    AllowedKeeps(cs[0], val, now, log, ts, reachable);
    if i == 0 {
      AllowedPassed(cs[0], val, now, log, ts, reachable);
      SameKind(cs[0], Allowed(cs[0], val, now, log, ts, reachable).constraint);
    } else {
      CheckPassed(cs[1..], val, now, log, Allowed(cs[0], val, now, log, ts, reachable).targets, reachable, i - 1);
    }
  }

  lemma SameKind(c: Constraint, d: Constraint)
    requires Rule(c) == Rule(d)
    ensures c.Order() == d.Order() && (c.Mutex? <==> d.Mutex?) && (HoldBounded(c) <==> HoldBounded(d))
    ensures c.Mutex? ==> c.target == d.target && c.hold == d.hold && c.useCustomHold == d.useCustomHold
    ensures c.MinOffTime? || c.MinOnTime? ==> c == d
  {
  }

  lemma {:induction false} MutexesPass(cs: seq<Constraint>, now: u32, log: Log, ts: seq<Target>, reachable: set<nat>)
    requires AllFit(cs, |ts|) && forall i :: 0 <= i < |cs| ==> cs[i].Mutex?
    ensures Check(cs, Inactive, now, log, ts, reachable).remaining == 0
  {
    hide TimeOff;
    if cs != [] {
      MutexesPass(cs[1..], now, log, Allowed(cs[0], Inactive, now, log, ts, reachable).targets, reachable);
    }
  }

  ghost predicate Released(c: Constraint, d: Constraint) {
    c.Mutex? && c.locked && d.Mutex? && !d.locked
  }

  lemma AllowedReleases(c: Constraint, val: State, now: u32, log: Log, ts: seq<Target>, reachable: set<nat>)
    requires c.Fits(|ts|) && Released(c, Allowed(c, val, now, log, ts, reachable).constraint)
    ensures val == Inactive && c.target < |ts| && HoldTime(c, ts[c.target]) <= TimeOff(log, now)
  {
    hide TimeOff;
  }

  /** Mutexes come last: a lock is only given up when nothing else keeps the actuator on. */
  lemma {:induction false} CheckReleases(cs: seq<Constraint>, val: State, now: u32, log: Log, ts: seq<Target>,
      reachable: set<nat>, i: nat)
    requires AllFit(cs, |ts|) && Sorted(cs) && i < |cs|
    requires Released(cs[i], Check(cs, val, now, log, ts, reachable).constraints[i])
    ensures val == Inactive && Check(cs, val, now, log, ts, reachable).remaining == 0
    ensures cs[i].target < |ts| && HoldTime(cs[i], ts[cs[i].target]) <= TimeOff(log, now)
  {
    hide Allowed, TimeOff, MinTime, Rule;
    var r := Allowed(cs[0], val, now, log, ts, reachable);
    AllowedKeeps(cs[0], val, now, log, ts, reachable);
    if i == 0 {
      AllowedReleases(cs[0], val, now, log, ts, reachable);
      forall k | 0 <= k < |cs| ensures cs[k].Mutex? {
        assert cs[0].Order() <= cs[k].Order();
      }
      MutexesPass(cs, now, log, ts, reachable);
    } else {
      TailSorted(cs);
      CheckReleases(cs[1..], val, now, log, r.targets, reachable, i - 1);
    }
  }

  lemma TailSorted(cs: seq<Constraint>)
    requires Sorted(cs) && cs != []
    ensures Sorted(cs[1..])
  {
    assert forall i :: 0 <= i < |cs| - 1 ==> cs[1..][i] == cs[i + 1];
  }
}
