/** Digital actuators whose changes must be allowed by a list of constraints. */
module Constraints {
  import opened Ticks
  import opened ChangeLog

  /** A mutex is known by its place in the object container; `locked` while this constraint holds it. */
  datatype Constraint =
    | MinOffTime(limit: u32)
    | MinOnTime(limit: u32)
    | DelayedOn(limit: u32, requested: u32)
    | DelayedOff(limit: u32, requested: u32)
    | Mutex(target: nat, hold: u32, useCustomHold: bool, locked: bool)
  {
    /** Constraints are checked in this order. */
    function Order(): nat {
      match this
      case MinOffTime(_) => 0
      case MinOnTime(_) => 1
      case DelayedOn(_, _) => 2
      case DelayedOff(_, _) => 3
      case Mutex(_, _, _, _) => 4
    }

    predicate Fits(targets: nat) {
      Mutex? && locked ==> target < targets
    }
  }

  datatype Target = Target(locked: bool, hold: u32, timeRemaining: u32)

  /** The remaining time, 0 when the change is allowed, and the new state of constraint and mutexes. */
  datatype Reply = Reply(remaining: u32, constraint: Constraint, targets: seq<Target>)

  /** How long the actuator has been in the state it is in now. */
  function TimeInState(log: Log, state: State, now: u32): u32 {
    var (start, end) := LastStartEnd(log, state, now);
    Minus(end, start)
  }

  function Monus(a: u32, b: u32): u32 {
    if a <= b then 0 else a - b
  }

  function MinTime(limit: u32, during: State, val: State, now: u32, log: Log): u32 {
    if log.output != during || val == during then 0 else Monus(limit, TimeInState(log, during, now))
  }

  /** When a delayed change was first requested; 0 stands for not requested. */
  function Requested(requested: u32, now: u32): u32 {
    if requested != 0 then requested else if now != 0 then now else RANGE - 1
  }

  function HoldTime(c: Constraint, t: Target): u32
    requires c.Mutex?
  {
    if c.useCustomHold then c.hold else t.hold
  }

  function TimeOff(log: Log, now: u32): u32 {
    if log.output == Inactive then TimeInState(log, Inactive, now) else 0
  }

  function MutexAllowed(c: Constraint, val: State, now: u32, log: Log, ts: seq<Target>, reachable: set<nat>): (r: Reply)
    requires c.Mutex? && c.Fits(|ts|)
    ensures |r.targets| == |ts| && r.constraint.Fits(|ts|)
  {
    if c.locked then
      var t := ts[c.target];
      var minimal, off := HoldTime(c, t), TimeOff(log, now);
      if val != Inactive then Reply(0, c, ts[c.target := t.(timeRemaining := minimal)])
      else if off >= minimal then
        Reply(0, c.(locked := false), ts[c.target := t.(locked := false, timeRemaining := 0)])
      else Reply(0, c, ts[c.target := t.(timeRemaining := minimal - off)])
    else if val == Inactive then Reply(0, c, ts)
    else if val == Active && c.target in reachable && c.target < |ts| then
      if ts[c.target].locked then Reply(Plus(ts[c.target].timeRemaining, 1), c, ts)
      else Reply(0, c.(locked := true), ts[c.target := ts[c.target].(locked := true)])
    else Reply(1000, c, ts)
  }

  function Allowed(c: Constraint, val: State, now: u32, log: Log, ts: seq<Target>, reachable: set<nat>): (r: Reply)
    requires c.Fits(|ts|)
    ensures |r.targets| == |ts| && r.constraint.Fits(|ts|)
  {
    match c
    case MinOffTime(limit) => Reply(MinTime(limit, Inactive, val, now, log), c, ts)
    case MinOnTime(limit) => Reply(MinTime(limit, Active, val, now, log), c, ts)
    case DelayedOn(limit, requested) =>
      if val != Active then Reply(0, DelayedOn(limit, 0), ts)
      else
        var since := Requested(requested, now);
        Reply(Monus(limit, Minus(now, since)), DelayedOn(limit, since), ts)
    case DelayedOff(limit, requested) =>
      if val != Inactive then Reply(0, DelayedOff(limit, 0), ts)
      else
        var since := Requested(requested, now);
        Reply(Monus(limit, Minus(now, since)), DelayedOff(limit, since), ts)
    case Mutex(_, _, _, _) => MutexAllowed(c, val, now, log, ts, reachable)
  }

  predicate AllFit(cs: seq<Constraint>, targets: nat) {
    forall i :: 0 <= i < |cs| ==> cs[i].Fits(targets)
  }

  datatype Verdict = Verdict(remaining: u32, constraints: seq<Constraint>, targets: seq<Target>)

  /** Asks the constraints one by one until one objects. */
  function Check(cs: seq<Constraint>, val: State, now: u32, log: Log, ts: seq<Target>,
      reachable: set<nat>): (v: Verdict)
    requires AllFit(cs, |ts|)
    ensures |v.targets| == |ts| && |v.constraints| == |cs| && AllFit(v.constraints, |ts|)
  {
    if cs == [] then Verdict(0, [], ts)
    else
      var r := Allowed(cs[0], val, now, log, ts, reachable);
      if r.remaining > 0 then Verdict(r.remaining, [r.constraint] + cs[1..], r.targets)
      else
        var v := Check(cs[1..], val, now, log, r.targets, reachable);
        Verdict(v.remaining, [r.constraint] + v.constraints, v.targets)
  }

  ghost predicate Sorted(cs: seq<Constraint>) {
    forall i, j :: 0 <= i < j < |cs| ==> cs[i].Order() <= cs[j].Order()
  }

  const MAX_CONSTRAINTS := 8

  /** The state of one constrained actuator. */
  datatype Actuator = Actuator(log: Log, constraints: seq<Constraint>, desired: State)

  datatype Outcome = Outcome(remaining: u32, actuator: Actuator, targets: seq<Target>)

  /** Requests a state, which the actuator takes when no constraint objects. */
  function Desire(a: Actuator, val: State, now: u32, ts: seq<Target>, reachable: set<nat>): (o: Outcome)
    requires AllFit(a.constraints, |ts|)
    ensures |o.targets| == |ts| && AllFit(o.actuator.constraints, |ts|)
  {
    var log := a.log.(lastUpdateTime := now);
    var v := Check(a.constraints, val, now, log, ts, reachable);
    Outcome(v.remaining,
            Actuator(if v.remaining == 0 then Logged(log, val, now) else log, v.constraints, val),
            v.targets)
  }

  class MutexTarget {
    var locked: bool
    var holdAfterTurnOff: u32
    var timeRemaining: u32

    constructor ()
      ensures View() == Target(false, 0, 0)
    {
      locked, holdAfterTurnOff, timeRemaining := false, 0, 0;
    }

    ghost function View(): Target
      reads this
    {
      Target(locked, holdAfterTurnOff, timeRemaining)
    }

    method TryLock() returns (acquired: bool)
      modifies this`locked
      ensures acquired == !old(locked) && locked
    {
      acquired := !locked;
      locked := true;
    }
  }

  /** A stable sort by order. */
  function Inserted(cs: seq<Constraint>, c: Constraint): (r: seq<Constraint>)
    ensures multiset(r) == multiset(cs) + multiset{c}
    ensures Sorted(cs) ==> Sorted(r)
  {
    if cs == [] || cs[|cs| - 1].Order() <= c.Order() then cs + [c]
    else
      var r := Inserted(cs[..|cs| - 1], c);
      assert cs == cs[..|cs| - 1] + [cs[|cs| - 1]];
      InsertKeepsSorted(cs, c, r);
      r + [cs[|cs| - 1]]
  }

  lemma InsertKeepsSorted(cs: seq<Constraint>, c: Constraint, r: seq<Constraint>)
    requires cs != [] && c.Order() <= cs[|cs| - 1].Order()
    requires multiset(r) == multiset(cs[..|cs| - 1]) + multiset{c} && (Sorted(cs[..|cs| - 1]) ==> Sorted(r))
    ensures Sorted(cs) ==> Sorted(r + [cs[|cs| - 1]])
  {
    var front, last := cs[..|cs| - 1], cs[|cs| - 1];
    if Sorted(cs) {
      forall i | 0 <= i < |r| ensures r[i].Order() <= last.Order() {
        assert r[i] in multiset(r);
        assert r[i] == c || r[i] in front;
      }
    }
  }

  method Sort(cs: seq<Constraint>) returns (r: seq<Constraint>)
    ensures multiset(r) == multiset(cs) && Sorted(r)
  {
    r := [];
    for k := 0 to |cs|
      invariant multiset(r) == multiset(cs[..k]) && Sorted(r)
    {
      assert cs[..k + 1] == cs[..k] + [cs[k]];
      r := Inserted(r, cs[k]);
    }
    assert cs[..|cs|] == cs;
  }

  class ActuatorDigitalConstrained {
    const log: ActuatorDigitalChangeLogged
    /** The container in which mutexes are looked up. */
    const objects: seq<MutexTarget>
    var constraints: seq<Constraint>
    var desired: State

    ghost predicate Valid()
      reads this
    {
      && log.Valid() && AllFit(constraints, |objects|)
      && forall i, j :: 0 <= i < j < |objects| ==> objects[i] != objects[j]
    }

    ghost function Targets(): (ts: seq<Target>)
      reads objects
      ensures |ts| == |objects| && forall i :: 0 <= i < |ts| ==> ts[i] == objects[i].View()
    {
      seq(|objects|, i requires 0 <= i < |objects| reads objects => objects[i].View())
    }

    ghost function View(): Actuator
      requires log.Valid()
      reads this, log, log.history
    {
      Actuator(log.View(), constraints, desired)
    }

    constructor (log: ActuatorDigitalChangeLogged, objects: seq<MutexTarget>)
      requires log.Valid() && forall i, j :: 0 <= i < j < |objects| ==> objects[i] != objects[j]
      ensures Valid() && this.log == log && this.objects == objects && constraints == [] && desired == Inactive
    {
      this.log, this.objects := log, objects;
      constraints, desired := [], Inactive;
    }

    method AddConstraint(c: Constraint)
      requires Valid() && c.Fits(|objects|)
      modifies this`constraints
      ensures Valid() && Sorted(constraints)
      ensures multiset(constraints) == multiset(old(constraints))
        + if |old(constraints)| < 8 then multiset{c} else multiset{}
    {
      if |constraints| < MAX_CONSTRAINTS {
        constraints := constraints + [c];
      }
      ghost var before := constraints;
      constraints := Sort(constraints);
      forall i | 0 <= i < |constraints| ensures constraints[i].Fits(|objects|) {
        assert constraints[i] in multiset(before);
      }
    }

    method CheckConstraints(val: State, now: u32, reachable: set<nat>) returns (remaining: u32)
      requires Valid()
      modifies this`constraints, objects
      ensures Valid()
      ensures Verdict(remaining, constraints, Targets())
              == old(Check(constraints, val, now, log.View(), Targets(), reachable))
    {
      hide Allowed, AllFit;
      ghost var cs, ts, view := constraints, Targets(), log.View();
      assert cs[..0] == [] && cs[0..] == cs;
      PrependNone(Check(cs, val, now, view, ts, reachable));
      for k := 0 to |constraints|
        invariant Valid() && log.View() == view && |constraints| == |cs| && k <= |cs|
        invariant constraints[k..] == cs[k..] && AllFit(cs, |ts|) && AllFit(cs[k..], |objects|)
        invariant Check(cs, val, now, view, ts, reachable)
                  == Prepend(constraints[..k], Check(cs[k..], val, now, view, Targets(), reachable))
      {
        CheckStep(cs[k..], val, now, view, Targets(), reachable);
        assert constraints[k] == constraints[k..][0] == cs[k..][0];
        ghost var was := constraints;
        remaining := AskConstraint(k, val, now, reachable);
        UpdateAt(was, k, constraints[k], Check(cs[k..][1..], val, now, view, Targets(), reachable));
        if remaining > 0 {
          return;
        }
      }
      remaining := 0;
    }

    /** Asks one constraint, which remembers when a delay or a lock began. */
    method AskConstraint(k: nat, val: State, now: u32, reachable: set<nat>) returns (remaining: u32)
      requires Valid() && k < |constraints| && constraints[k].Fits(|objects|)
      modifies this`constraints, objects
      ensures Valid() && |constraints| == |old(constraints)| && constraints == old(constraints)[k := constraints[k]]
      ensures Reply(remaining, constraints[k], Targets())
              == old(Allowed(constraints[k], val, now, log.View(), Targets(), reachable))
    {
      var c := constraints[k];
      match c {
        case MinOffTime(limit) =>
          remaining := 0;
          if log.output == Inactive && val != Inactive {
            var start, end := log.GetLastStartEndTime(Inactive, now);
            remaining := Monus(limit, Minus(end, start));
          }
        case MinOnTime(limit) =>
          remaining := 0;
          if log.output == Active && val != Active {
            var start, end := log.GetLastStartEndTime(Active, now);
            remaining := Monus(limit, Minus(end, start));
          }
        case DelayedOn(limit, requested) =>
          if val == Active {
            var since := Requested(requested, now);
            c := DelayedOn(limit, since);
            remaining := Monus(limit, Minus(now, since));
          } else {
            c := DelayedOn(limit, 0);
            remaining := 0;
          }
        case DelayedOff(limit, requested) =>
          if val == Inactive {
            var since := Requested(requested, now);
            c := DelayedOff(limit, since);
            remaining := Monus(limit, Minus(now, since));
          } else {
            c := DelayedOff(limit, 0);
            remaining := 0;
          }
        case Mutex(_, _, _, _) =>
          remaining, c := AskMutex(c, val, now, reachable);
      }
      constraints := constraints[k := c];
    }

    method AskMutex(c: Constraint, val: State, now: u32, reachable: set<nat>) returns (remaining: u32, c': Constraint)
      requires Valid() && c.Mutex? && c.Fits(|objects|)
      modifies objects
      ensures Valid()
      ensures Reply(remaining, c', Targets()) == old(MutexAllowed(c, val, now, log.View(), Targets(), reachable))
    {
      hide LastStartEnd;
      c' := c;
      if c.locked {
        var lockedMutex := objects[c.target];
        var elapsedMinimal := if c.useCustomHold then c.hold else lockedMutex.holdAfterTurnOff;
        if val == Inactive {
          var elapsedOff := 0;
          if log.output == Inactive {
            var start, end := log.GetLastStartEndTime(Inactive, now);
            elapsedOff := Minus(end, start);
          }
          if elapsedOff >= elapsedMinimal {
            lockedMutex.timeRemaining := 0;
            lockedMutex.locked := false;
            c' := c.(locked := false);
          } else {
            lockedMutex.timeRemaining := elapsedMinimal - elapsedOff;
          }
        } else {
          lockedMutex.timeRemaining := elapsedMinimal;
        }
        return 0, c';
      }
      if val == Inactive {
        return 0, c;
      }
      if val == Active {
        if c.target in reachable && c.target < |objects| {
          var mutex := objects[c.target];
          var acquired := mutex.TryLock();
          if acquired {
            return 0, c.(locked := true);
          }
          return Plus(mutex.timeRemaining, 1), c;
        }
      }
      return 1000, c;
    }

    /** Requests a state at a time. */
    method SetDesiredState(val: State, now: u32, reachable: set<nat>) returns (remaining: u32)
      requires Valid()
      modifies this, log, log.history, objects
      ensures Valid()
      ensures Outcome(remaining, View(), Targets()) == old(Desire(View(), val, now, Targets(), reachable))
    {
      hide Check;
      log.lastUpdateTime := now;
      desired := val;
      remaining := CheckConstraints(val, now, reachable);
      if remaining == 0 {
        log.SetState(val, now);
      }
    }

    /** Requests a state at the time of the last update. */
    method SetDesiredStateUntimed(val: State, reachable: set<nat>) returns (remaining: u32)
      requires Valid()
      modifies this, log, log.history, objects
      ensures Valid()
      ensures Outcome(remaining, View(), Targets())
              == old(Desire(View(), val, log.lastUpdateTime, Targets(), reachable))
    {
      remaining := SetDesiredState(val, log.lastUpdateTime, reachable);
    }

    /** Requests the desired state again. The next update is at most a second later. */
    method Update(now: u32, reachable: set<nat>) returns (next: u32)
      requires Valid()
      modifies this, log, log.history, objects
      ensures Valid()
      ensures var o := old(Desire(View(), desired, now, Targets(), reachable));
        && View() == o.actuator && Targets() == o.targets
        && next == Plus(now, if o.remaining < 1000 then o.remaining else 1000)
    {
      hide Check;
      var remaining := SetDesiredState(desired, now, reachable);
      next := Plus(now, if remaining < 1000 then remaining else 1000);
    }
  }

  ghost function Prepend(done: seq<Constraint>, v: Verdict): Verdict {
    v.(constraints := done + v.constraints)
  }

  lemma PrependNone(v: Verdict)
    ensures Prepend([], v) == v
  {
    assert [] + v.constraints == v.constraints;
  }

  lemma CheckStep(cs: seq<Constraint>, val: State, now: u32, log: Log, ts: seq<Target>, reachable: set<nat>)
    requires cs != [] && AllFit(cs, |ts|)
    ensures cs[0].Fits(|ts|) && AllFit(cs[1..], |ts|)
    ensures var r := Allowed(cs[0], val, now, log, ts, reachable);
      Check(cs, val, now, log, ts, reachable) ==
        if r.remaining > 0 then Verdict(r.remaining, [r.constraint] + cs[1..], r.targets)
        else Prepend([r.constraint], Check(cs[1..], val, now, log, r.targets, reachable))
  {
    hide Allowed;
  }

  lemma UpdateAt(cs: seq<Constraint>, k: nat, c: Constraint, v: Verdict)
    requires k < |cs|
    ensures cs[k := c][..k + 1] == cs[..k] + [c] && cs[k := c][k + 1..] == cs[k..][1..] == cs[k + 1..]
    ensures cs[k := c] == cs[..k] + ([c] + cs[k..][1..])
    ensures Prepend(cs[..k], Prepend([c], v)) == Prepend(cs[..k] + [c], v)
  {
    assert cs[..k] + ([c] + v.constraints) == cs[..k] + [c] + v.constraints;
  }
}
