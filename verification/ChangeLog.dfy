/** A digital actuator that remembers its most recent state changes. */
module ChangeLog {
  import opened Ticks

  datatype State = Inactive | Active | Unknown

  datatype StateChange = StateChange(newState: State, startTime: u32)

  /** The depth of the history. */
  const DEPTH: nat := 5

  /** An unused history entry: its start time is the largest clock value. */
  const PADDING := StateChange(Unknown, RANGE - 1)

  type History = h: seq<StateChange> | |h| == DEPTH witness seq(DEPTH, _ => PADDING)

  datatype Log = Log(output: State, history: History, lastUpdateTime: u32)

  function Empty(output: State): Log {
    Log(output, [StateChange(output, 0)] + seq(DEPTH - 1, _ => PADDING), 0)
  }

  /** The log after the actuator was set to `val`. */
  function Logged(log: Log, val: State, now: u32): Log {
    Log(val,
        if val != log.history[0].newState then [StateChange(val, now)] + log.history[..DEPTH - 1] else log.history,
        now)
  }

  /** The most recent entry with this state. */
  function Latest(h: seq<StateChange>, state: State): (k: nat)
    ensures k <= |h|
    ensures forall i :: 0 <= i < k ==> h[i].newState != state
    ensures k < |h| ==> h[k].newState == state
  {
    if h == [] || h[0].newState == state then 0 else 1 + Latest(h[1..], state)
  }

  /** Start and end of the last time in this state. */
  function LastStartEnd(log: Log, state: State, now: u32): (u32, u32) {
    var k := Latest(log.history, state);
    var last := if log.output == state then now else Plus(now, 1);
    (if k < DEPTH then log.history[k].startTime else Plus(now, 1),
     if 0 < k < DEPTH then log.history[k - 1].startTime else last)
  }

  datatype Durations = Durations(
    currentActive: u32, currentPeriod: u32, previousActive: u32, previousPeriod: u32, lastState: State)

  function Actives(h: seq<StateChange>, n: nat): nat
    requires n <= |h|
  {
    if n == 0 then 0 else Actives(h, n - 1) + if h[n - 1].newState == Active then 1 else 0
  }

  /** Entries of the current period: up to and with the last active time when the actuator is off,
      up to the last active time but one otherwise. */
  predicate InCurrent(h: seq<StateChange>, i: nat)
    requires i < |h|
  {
    if h[0].newState == Inactive then Actives(h, i) == 0 else Actives(h, i + 1) <= 1
  }

  /** Entries of the current and the previous period. */
  predicate InPeriods(h: seq<StateChange>, i: nat)
    requires i < |h|
  {
    if h[0].newState == Inactive then Actives(h, i) <= 1 else Actives(h, i + 1) <= 2
  }

  function CurrentEntries(h: seq<StateChange>, from: nat): (n: nat)
    requires from <= |h|
    ensures from <= n <= |h| && (n < |h| ==> !InCurrent(h, n))
    ensures forall i :: from <= i < n ==> InCurrent(h, i)
    decreases |h| - from
  {
    if from < |h| && InCurrent(h, from) then CurrentEntries(h, from + 1) else from
  }

  function PeriodEntries(h: seq<StateChange>, from: nat): (n: nat)
    requires from <= |h|
    ensures from <= n <= |h| && (n < |h| ==> !InPeriods(h, n))
    ensures forall i :: from <= i < n ==> InPeriods(h, i)
    decreases |h| - from
  {
    if from < |h| && InPeriods(h, from) then PeriodEntries(h, from + 1) else from
  }

  /** When the first n entries began. */
  function Began(h: seq<StateChange>, n: nat, now: u32): u32
    requires n <= |h|
  {
    if n == 0 then now else h[n - 1].startTime
  }

  /** The length of the n-th most recent active time, 0 when it is not among the counted entries. */
  function ActiveTime(h: seq<StateChange>, counted: nat, n: nat, now: u32): u32
    requires counted <= |h|
  {
    if counted == 0 then 0
    else if h[counted - 1].newState == Active && Actives(h, counted) == n then
      Minus(Began(h, counted - 1, now), Began(h, counted, now))
    else ActiveTime(h, counted - 1, n, now)
  }

  /** The durations of the first n counted entries. The periods reach from the start of their last
      entry to the end of their first. */
  function Counted(h: History, n: nat, now: u32): Durations
    requires n <= |h|
  {
    var c := CurrentEntries(h, 0);
    var m := if n < c then n else c;
    Durations(
      ActiveTime(h, n, 1, now), Minus(now, Began(h, m, now)),
      ActiveTime(h, n, 2, now), Minus(Began(h, m, now), Began(h, n, now)),
      h[0].newState)
  }

  function DurationsOf(h: History, now: u32): Durations {
    Counted(h, PeriodEntries(h, 0), now)
  }

  lemma {:induction false} ActivesGrow(h: seq<StateChange>, i: nat, j: nat)
    requires i <= j <= |h|
    ensures Actives(h, i) <= Actives(h, j) <= Actives(h, i) + (j - i)
  {
    if i < j {
      ActivesGrow(h, i, j - 1);
    }
  }

  /** The current period is the front part of the counted entries. */
  lemma CurrentFirst(h: seq<StateChange>)
    requires h != []
    ensures 0 < CurrentEntries(h, 0) <= PeriodEntries(h, 0)
    ensures forall i :: 0 <= i < |h| ==> (InCurrent(h, i) <==> i < CurrentEntries(h, 0))
    ensures forall i :: 0 <= i < |h| ==> (InPeriods(h, i) <==> i < PeriodEntries(h, 0))
  {
    var c, p := CurrentEntries(h, 0), PeriodEntries(h, 0);
    ActivesGrow(h, 0, 1);
    forall i | 0 <= i < |h|
      ensures (InCurrent(h, i) <==> i < c) && (InPeriods(h, i) <==> i < p) && (InCurrent(h, i) ==> InPeriods(h, i))
    {
      if c <= i {
        ActivesGrow(h, c, i);
        ActivesGrow(h, c + 1, i + 1);
      }
      if p <= i {
        ActivesGrow(h, p, i);
        ActivesGrow(h, p + 1, i + 1);
      }
    }
    assert InCurrent(h, 0);
    assert p < |h| ==> !InPeriods(h, p) && !InCurrent(h, p);
  }

  /** What counting one more entry adds. */
  lemma CountNext(h: History, k: nat, now: u32)
    requires k < PeriodEntries(h, 0)
    ensures var d, e, duration := Counted(h, k, now), Counted(h, k + 1, now), Minus(Began(h, k, now), h[k].startTime);
      && e.lastState == d.lastState
      && e.currentPeriod == (if InCurrent(h, k) then Plus(d.currentPeriod, duration) else d.currentPeriod)
      && e.previousPeriod == (if InCurrent(h, k) then d.previousPeriod else Plus(d.previousPeriod, duration))
      && e.currentActive == (if h[k].newState == Active && Actives(h, k + 1) == 1 then duration else d.currentActive)
      && e.previousActive == (if h[k].newState == Active && Actives(h, k + 1) == 2 then duration else d.previousActive)
  {
    hide InCurrent, InPeriods, Minus, Plus;
    CurrentFirst(h);
    var c := CurrentEntries(h, 0);
    var m := if k < c then k else c;
    Telescopes(now, Began(h, k, now), h[k].startTime);
    Telescopes(Began(h, m, now), Began(h, k, now), h[k].startTime);
    MinusSelf(Began(h, k, now));
    MinusSelf(Began(h, k + 1, now));
  }

  lemma CountStart(h: History, now: u32)
    ensures Counted(h, 0, now) == Durations(0, 0, 0, 0, h[0].newState)
  {
  }

  /** How many active times precede an entry that may be counted. */
  lemma ActivesBefore(h: History, k: nat)
    requires k <= PeriodEntries(h, 0) && k < DEPTH
    ensures h[0].newState != Inactive ==> Actives(h, k) <= 2
    ensures InPeriods(h, k) <==> k < PeriodEntries(h, 0)
  {
    CurrentFirst(h);
    if k > 0 {
      assert InPeriods(h, k - 1);
    }
  }

  /** The two periods together reach back to the start of the oldest counted entry. */
  lemma PeriodsAddUp(h: History, now: u32)
    ensures var d, p := DurationsOf(h, now), PeriodEntries(h, 0);
      0 < p && Plus(d.currentPeriod, d.previousPeriod) == Minus(now, h[p - 1].startTime)
  {
    CurrentFirst(h);
    Telescopes(now, Began(h, CurrentEntries(h, 0), now), Began(h, PeriodEntries(h, 0), now));
  }

  // ---------- the log without limits ----------

  /** A change at a time that does not wrap. */
  datatype Change = Change(state: State, time: nat)

  /** All changes, newest first. */
  ghost predicate Recorded(full: seq<Change>, now: nat) {
    && full != [] && full[0].time <= now
    && (forall i, j :: 0 <= i < j < |full| ==> full[j].time <= full[i].time)
    && forall i :: 0 <= i < |full| - 1 ==> full[i].state != full[i + 1].state
  }

  lemma LaterRecorded(full: seq<Change>, before: nat, now: nat)
    requires Recorded(full, before) && before <= now
    ensures Recorded(full, now)
  {
  }

  function Grown(full: seq<Change>, val: State, now: nat): (r: seq<Change>)
    requires full != []
    ensures r != [] && r[0].state == val
  {
    if val != full[0].state then [Change(val, now)] + full else full
  }

  /** What the history holds of all changes. */
  function Shown(full: seq<Change>): History {
    seq(DEPTH, i requires 0 <= i < DEPTH =>
      if i < |full| then StateChange(full[i].state, Wrap(full[i].time)) else PADDING)
  }

  /** The history stays the newest part of all changes. */
  lemma HistoryIsNewest(log: Log, full: seq<Change>, val: State, before: nat, now: nat)
    requires log.history == Shown(full) && Recorded(full, before) && before <= now
    ensures Logged(log, val, Wrap(now)).history == Shown(Grown(full, val, now))
    ensures Recorded(Grown(full, val, now), now) && Grown(full, val, now)[0].state == val
  {
    var more := Grown(full, val, now);
    if val != full[0].state {
      assert forall i :: 1 <= i < DEPTH ==> Shown(more)[i] == Shown(full)[i - 1];
    }
  }

  /** While the actuator is in a state, that state began at its last change. */
  lemma StateSince(log: Log, full: seq<Change>, now: u32)
    requires log.history == Shown(full) && full != [] && log.output == full[0].state
    ensures LastStartEnd(log, log.output, now) == (Wrap(full[0].time), now)
  {
    assert log.history[0].newState == log.output;
  }

  lemma {:induction false} LatestIs(h: seq<StateChange>, state: State, k: nat)
    requires k <= |h| && forall i :: 0 <= i < k ==> h[i].newState != state
    requires k < |h| ==> h[k].newState == state
    ensures Latest(h, state) == k
  {
    if k > 0 {
      LatestIs(h[1..], state, k - 1);
    }
  }

  /** The last time in a state: from its change to the next one, as far as the history goes back. A state that is not
      in the history shows as an empty time one tick ahead. */
  lemma LastTimes(log: Log, full: seq<Change>, state: State, k: nat, now: u32)
    requires log.history == Shown(full) && full != [] && log.output == full[0].state && state != Unknown
    requires k <= |full| && forall i :: 0 <= i < k ==> full[i].state != state
    requires k < |full| ==> full[k].state == state
    ensures LastStartEnd(log, state, now) ==
      if k < |full| && k < DEPTH then (Wrap(full[k].time), if k == 0 then now else Wrap(full[k - 1].time))
      else (Plus(now, 1), Plus(now, 1))
  {
    hide Latest;
    LatestIs(log.history, state, if k < |full| && k < DEPTH then k else DEPTH);
  }

  /** The start of an entry; unused entries act as if they started one tick before the clock. */
  function StartTime(full: seq<Change>, i: nat): int {
    if i < |full| then full[i].time else -1
  }

  function BeganAt(full: seq<Change>, n: nat, now: nat): int {
    if n == 0 then now else StartTime(full, n - 1)
  }

  lemma BeganShown(full: seq<Change>, now: nat, i: nat, j: nat)
    requires Recorded(full, now) && now < RANGE - 1 && i <= j <= DEPTH
    ensures -1 <= BeganAt(full, j, now) <= BeganAt(full, i, now) <= now
    ensures Minus(Began(Shown(full), i, Wrap(now)), Began(Shown(full), j, Wrap(now)))
            == BeganAt(full, i, now) - BeganAt(full, j, now)
  {
    var a, b := BeganAt(full, i, now), BeganAt(full, j, now);
    WrapIsHomomorphic(a, b);
    SmallStays(a - b);
  }

  /** Which entry an active time comes from. */
  lemma {:induction false} ActiveTimeAt(h: seq<StateChange>, counted: nat, n: nat, now: u32) returns (k: nat)
    requires counted <= |h|
    ensures k < counted ==>
      h[k].newState == Active && Actives(h, k + 1) == n
      && ActiveTime(h, counted, n, now) == Minus(Began(h, k, now), Began(h, k + 1, now))
    ensures k >= counted ==> ActiveTime(h, counted, n, now) == 0
  {
    hide Minus;
    if counted == 0 {
      k := 0;
    } else if h[counted - 1].newState == Active && Actives(h, counted) == n {
      k := counted - 1;
    } else {
      k := ActiveTimeAt(h, counted - 1, n, now);
      if k == counted - 1 {
        k := counted;
      }
    }
  }

  /** Before the clock has wrapped, the periods are true durations and contain their active times. */
  lemma DurationsFit(full: seq<Change>, now: nat)
    requires Recorded(full, now) && now < RANGE - 1
    ensures var d := DurationsOf(Shown(full), Wrap(now));
      && d.currentActive <= d.currentPeriod && d.previousActive <= d.previousPeriod
      && d.currentPeriod + d.previousPeriod == now - StartTime(full, PeriodEntries(Shown(full), 0) - 1) <= now + 1
  {
    hide Minus, Shown, Recorded;
    var h, w := Shown(full), Wrap(now);
    var c, p := CurrentEntries(h, 0), PeriodEntries(h, 0);
    CurrentFirst(h);
    BeganShown(full, now, 0, c);
    BeganShown(full, now, c, p);
    var k := ActiveTimeAt(h, p, 1, w);
    if k < p {
      assert InCurrent(h, k);
      BeganShown(full, now, 0, k);
      BeganShown(full, now, k, k + 1);
      BeganShown(full, now, k + 1, c);
    }
    var m := ActiveTimeAt(h, p, 2, w);
    if m < p {
      assert !InCurrent(h, m);
      BeganShown(full, now, c, m);
      BeganShown(full, now, m, m + 1);
      BeganShown(full, now, m + 1, p);
    }
  }

  // ---------- what is counted ----------

  /** The actuator was never in an unknown state. */
  predicate Switched(full: seq<Change>) {
    forall i :: 0 <= i < |full| ==> full[i].state != Unknown
  }

  /** How many of the first n entries are active, when on and off alternate. */
  lemma ActivesAlternate(full: seq<Change>, now: nat, n: nat)
    requires Recorded(full, now) && Switched(full) && n <= DEPTH
    ensures var m := if n < |full| then n else |full|;
      Actives(Shown(full), n) == if full[0].state == Active then (m + 1) / 2 else m / 2
  {
    if n > 0 {
      ActivesAlternate(full, now, n - 1);
      StatesAlternate(full, now, n - 1);
    }
  }

  lemma {:induction false} StatesAlternate(full: seq<Change>, now: nat, i: nat)
    requires Recorded(full, now) && Switched(full)
    ensures i < |full| ==> (full[i].state == full[0].state <==> i % 2 == 0)
  {
    if 0 < i < |full| {
      StatesAlternate(full, now, i - 1);
      assert full[i - 1].state != full[i].state;
    }
  }

  lemma {:induction false} ActiveTimeIs(h: seq<StateChange>, counted: nat, k: nat, now: u32)
    requires k < counted <= |h| && h[k].newState == Active
    ensures ActiveTime(h, counted, Actives(h, k + 1), now) == Minus(Began(h, k, now), Began(h, k + 1, now))
  {
    hide Minus;
    if k < counted - 1 {
      ActivesGrow(h, k + 1, counted - 1);
      ActiveTimeIs(h, counted - 1, k, now);
    }
  }

  lemma {:induction false} NoActiveTime(h: seq<StateChange>, counted: nat, n: nat, now: u32)
    requires counted <= |h| && Actives(h, counted) < n
    ensures ActiveTime(h, counted, n, now) == 0
  {
    hide Minus;
    if counted > 0 {
      NoActiveTime(h, counted - 1, n, now);
    }
  }

  /** The start of the off time before an active time, of which there must be one. */
  function OffStart(full: seq<Change>, i: nat): int {
    if i + 1 < |full| then full[i].time else -1
  }

  /** When off: the last active time, the period that it began, and the same once more before that. When on: the
      active time so far, the period with the off time before it, and the same once more before that. */
  function TrueDurations(full: seq<Change>, now: nat): Durations
    requires full != []
  {
    var s := i => StartTime(full, i);
    if full[0].state == Active then
      Durations(Wrap(now - s(0)), Wrap(now - OffStart(full, 1)),
                if |full| > 2 then Wrap(s(1) - s(2)) else 0, Wrap(OffStart(full, 1) - OffStart(full, 3)), Active)
    else
      Durations(if |full| > 1 then Wrap(s(0) - s(1)) else 0, Wrap(now - s(1)),
                if |full| > 3 then Wrap(s(2) - s(3)) else 0, Wrap(s(1) - s(3)), full[0].state)
  }

  /** How many entries count, when on and off alternate. */
  lemma CountAlternate(full: seq<Change>, now: nat)
    requires Recorded(full, now) && Switched(full)
    ensures var h, on := Shown(full), full[0].state == Active;
      && CurrentEntries(h, 0) == (if |full| > (if on then 2 else 1) then 2 else DEPTH)
      && PeriodEntries(h, 0) == (if |full| > (if on then 4 else 3) then 4 else DEPTH)
  {
    hide Shown, Actives, Recorded;
    var h := Shown(full);
    FirstShown(full, now);
    CurrentFirst(h);
    ActivesAlternate(full, now, 0);
    ActivesAlternate(full, now, 1);
    ActivesAlternate(full, now, 2);
    ActivesAlternate(full, now, 3);
    ActivesAlternate(full, now, 4);
    ActivesAlternate(full, now, 5);
    assert InCurrent(h, 1) && InPeriods(h, 3);
    var few := if full[0].state == Active then 2 else 1;
    assert if |full| <= few then InCurrent(h, 4) else !InCurrent(h, 2);
    assert InPeriods(h, 4) <==> |full| <= few + 2;
  }

  /** For every run that switches on and off: the counted durations are the true ones, modulo 2^32. */
  lemma DurationsAreTrue(full: seq<Change>, now: nat)
    requires Recorded(full, now) && Switched(full)
    ensures DurationsOf(Shown(full), Wrap(now)) == TrueDurations(full, now)
  {
    hide Shown, Actives, Recorded, ActiveTime, CurrentEntries, PeriodEntries, Minus, Wrap;
    var h, w := Shown(full), Wrap(now);
    FirstShown(full, now);
    CountAlternate(full, now);
    var c, p := CurrentEntries(h, 0), PeriodEntries(h, 0);
    BeganTrue(full, now, 0, c);
    BeganTrue(full, now, c, p);
    ActiveTimesTrue(full, now, p);
  }

  lemma BeganTrue(full: seq<Change>, now: nat, i: nat, j: nat)
    requires full != [] && i <= j <= DEPTH
    ensures Minus(Began(Shown(full), i, Wrap(now)), Began(Shown(full), j, Wrap(now)))
            == Wrap(BeganAt(full, i, now) - BeganAt(full, j, now))
  {
    WrapIsHomomorphic(BeganAt(full, i, now), BeganAt(full, j, now));
  }

  lemma ActiveTimesTrue(full: seq<Change>, now: nat, p: nat)
    requires Recorded(full, now) && Switched(full)
    requires p == if |full| > (if full[0].state == Active then 4 else 3) then 4 else DEPTH
    ensures ActiveTime(Shown(full), p, 1, Wrap(now)) == TrueDurations(full, now).currentActive
    ensures ActiveTime(Shown(full), p, 2, Wrap(now)) == TrueDurations(full, now).previousActive
  {
    hide Actives, Recorded, ActiveTime, Minus, Wrap, Began;
    var h, w := Shown(full), Wrap(now);
    FirstShown(full, now);
    ActivesAlternate(full, now, p);
    var k := if full[0].state == Active then 0 else 1;
    StatesAlternate(full, now, k);
    StatesAlternate(full, now, k + 2);
    ActivesAlternate(full, now, k + 1);
    ActivesAlternate(full, now, k + 3);
    if k < |full| {
      ActiveTimeIs(h, p, k, w);
      BeganTrue(full, now, k, k + 1);
    } else {
      NoActiveTime(h, p, 1, w);
    }
    if k + 2 < |full| {
      ActiveTimeIs(h, p, k + 2, w);
      BeganTrue(full, now, k + 2, k + 3);
    } else {
      NoActiveTime(h, p, 2, w);
    }
  }

  lemma FirstShown(full: seq<Change>, now: nat)
    requires Recorded(full, now)
    ensures full != [] && Shown(full)[0] == StateChange(full[0].state, Wrap(full[0].time))
  {
  }

  class ActuatorDigitalChangeLogged {
    /** The state of the wrapped actuator, which does what it is told. */
    var output: State
    const history: array<StateChange>
    var lastUpdateTime: u32

    ghost predicate Valid() {
      history.Length == DEPTH
    }

    ghost function View(): Log
      requires Valid()
      reads this, history
    {
      Log(output, history[..], lastUpdateTime)
    }

    constructor (output: State)
      ensures Valid() && fresh(history) && View() == Empty(output)
    {
      this.output := output;
      history := new StateChange[DEPTH](_ => PADDING);
      lastUpdateTime := 0;
      new;
      ResetHistory();
    }

    method ResetHistory()
      requires Valid()
      modifies this`lastUpdateTime, history
      ensures View() == Empty(output)
    {
      for k := 0 to history.Length
        invariant forall i :: 0 <= i < k ==> history[i] == PADDING
      {
        history[k] := PADDING;
      }
      history[0] := StateChange(output, 0);
      lastUpdateTime := 0;
    }

    method SetState(val: State, now: u32)
      requires Valid()
      modifies this, history
      ensures View() == Logged(old(View()), val, now)
    {
      output := val;
      Update(now);
    }

    /** Logs the state of the wrapped actuator when it has changed. */
    method Update(now: u32)
      requires Valid()
      modifies this`lastUpdateTime, history
      ensures View() == Logged(old(View()), output, now)
    {
      var current := output;
      if current != history[0].newState {
        var k := history.Length - 1;
        while k > 0
          invariant 0 <= k < DEPTH
          invariant forall i :: 0 <= i <= k ==> history[i] == old(history[i])
          invariant forall i :: k < i < DEPTH ==> history[i] == old(history[i - 1])
        {
          history[k] := history[k - 1];
          k := k - 1;
        }
        history[0] := StateChange(current, now);
      }
      lastUpdateTime := now;
    }

    method GetLastStartEndTime(state: State, now: u32) returns (start: u32, end: u32)
      requires Valid()
      ensures (start, end) == LastStartEnd(View(), state, now)
    {
      start := Plus(now, 1);
      var last := if output == state then now else Plus(now, 1);
      end := last;
      ghost var first := Latest(history[..], state);
      for k := 0 to history.Length
        invariant forall i :: 0 <= i < k ==> history[i].newState != state
        invariant start == Plus(now, 1) && end == if output == state then now else Plus(now, 1)
        invariant last == if k == 0 then end else history[k - 1].startTime
      {
        if history[k].newState == state {
          assert first == k by {
            assert history[..][k] == history[k];
            assert forall i :: 0 <= i < k ==> history[..][i] == history[i];
          }
          start := history[k].startTime;
          end := last;
          return;
        }
        last := history[k].startTime;
      }
      assert first == DEPTH by {
        assert forall i :: 0 <= i < DEPTH ==> history[..][i] == history[i];
      }
    }

    /** The lengths of the last two on-off periods and of the active time in each. */
    method ActiveDurations(now: u32) returns (d: Durations)
      requires Valid()
      ensures d == DurationsOf(history[..], now)
    {
      hide Minus, Plus, Counted, ActiveTime, CurrentEntries;
      ghost var h: History := history[..];
      ghost var p := PeriodEntries(h, 0);
      d := Durations(0, 0, 0, 0, history[0].newState);
      var end, activePeriods := now, 0;
      CountStart(h, now);
      for k := 0 to history.Length
        invariant k <= p && activePeriods == Actives(h, k) && end == Began(h, k, now) && history[..] == h
        invariant d == Counted(h, k, now)
      {
        ActivesBefore(h, k);
        if k < p {
          CountNext(h, k, now);
        }
        var start := history[k].startTime;
        var duration := Minus(end, start);
        end := start;
        if history[k].newState == Active {
          activePeriods := activePeriods + 1;
          if activePeriods == 1 {
            d := d.(currentActive := duration, currentPeriod := Plus(d.currentPeriod, duration));
          } else if activePeriods == 2 {
            d := d.(previousActive := duration, previousPeriod := Plus(d.previousPeriod, duration));
          } else {
            break;
          }
        } else {
          if history[0].newState == Inactive {
            if activePeriods == 0 {
              d := d.(currentPeriod := Plus(d.currentPeriod, duration));
            } else if activePeriods <= 1 {
              d := d.(previousPeriod := Plus(d.previousPeriod, duration));
            } else {
              break;
            }
          } else {
            if activePeriods <= 1 {
              d := d.(currentPeriod := Plus(d.currentPeriod, duration));
            } else {
              d := d.(previousPeriod := Plus(d.previousPeriod, duration));
            }
          }
        }
      }
    }
  }
}
