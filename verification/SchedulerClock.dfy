/**
 How far apart by the clock the firings of a task of src/tools/scheduler/scheduler.c are: the
 earliest time at which the next one can come, in every state of every run.
 */
module SchedulerClock {
  import opened Bytes
  import opened Options
  import opened SchedulerJobs
  import opened Scheduler

  /** By a clock that never goes back, two consecutive firings of a task are at least a second apart,
      and at least its interval less the lag of the first one. */
  lemma WallGap(clock: int, events: seq<Event>, i: nat, k: nat)
    requires Run(clock, events).Some?
    requires var s := Run(clock, events).value; s.steady && i < |s.tasks| && 0 < k < |s.firings[i]|
    ensures var s := Run(clock, events).value;
            var first, second := s.firings[i][k - 1], s.firings[i][k];
            && first.stamp <= first.wall && second.wall - first.wall >= 1
            && second.wall - first.wall >= s.tasks[i].interval - (first.wall - first.stamp)
  {
    hide Run;
    var s := Run(clock, events).value;
    assert Spaced(s.tasks[i], s.firings[i]) && Stamped(s, i) && Rested(s, i);
    hide Ordered, Filed;
    assert s.firings[i][k].stamp <= s.firings[i][k].wall;
  }

  // ---- The earliest next firing ----------------------------------------------------------

  function Max(a: int, b: int): int { if a < b then b else a }

  /** The last firing of a task, and when it is due again. */
  function LastOf(s: State, i: nat): Firing
    requires i < |s.firings| && s.firings[i] != []
  {
    s.firings[i][|s.firings[i]| - 1]
  }
  function DueFrom(s: State, i: nat): int
    requires i < |s.tasks|
  {
    s.tasks[i].lastRun + s.tasks[i].interval
  }

  /** The scan under way may still fire it. */
  predicate InThisScan(s: State, i: nat)
    requires i < |s.tasks|
  {
    Upcoming(s, i) && s.thread.now >= DueFrom(s, i)
  }

  /** When the next scan can begin. */
  function NextScan(s: State): int { if s.thread.Asleep? then Max(s.clock, s.thread.since + 1) else s.clock + 1 }

  /** The earliest time at which task `i` can be fired next. */
  function Earliest(s: State, i: nat): int
    requires i < |s.tasks|
  {
    if InThisScan(s, i) then s.clock else Max(NextScan(s), DueFrom(s, i))
  }

  /** Some run without restarts and with a steady clock leads from `s` to `t`. */
  ghost predicate Later(s: State, t: State)
    requires Inv(s)
  {
    t.steady && exists events :: Exec(s, events) == Some(t) && NoRestart(events)
  }

  predicate NoRestart(events: seq<Event>) { forall k :: 0 <= k < |events| ==> !events[k].step.Restart? }

  /** `t` has fired task `i` once more than `s`, at time `wall`. */
  predicate FiredOnce(s: State, t: State, i: nat, wall: int) {
    && i < |s.firings| && i < |t.firings| && |t.firings[i]| == |s.firings[i]| + 1
    && t.firings[i][..|s.firings[i]|] == s.firings[i] && t.firings[i][|s.firings[i]|].wall == wall
  }

  /** The next firing of task `i` after `s` came at time `wall`. */
  predicate NextFired(s: State, t: State, i: nat, wall: int) {
    && i < |s.firings| && i < |t.firings| && |t.firings[i]| > |s.firings[i]|
    && t.firings[i][|s.firings[i]|].wall == wall
  }

  // ---- No firing comes earlier -----------------------------------------------------------

  /** The step fires task `i`. */
  predicate Fires(s: State, step: Step, i: nat)
    requires Enabled(s, step) && i < |s.tasks|
  {
    step.Visit? && s.thread.index == i && Due(s.tasks[i], s.thread.now)
  }

  lemma ControlledTimes(tasks: seq<Task>, id: int, action: Action, i: nat)
    requires i < |tasks|
    ensures var t := AfterControl(tasks, id, action)[i];
            t.interval == tasks[i].interval && t.lastRun == tasks[i].lastRun
  {
  }

  /** What a step that is no restart does to task `i` and its firings. */
  lemma TaskEffect(s: State, step: Step, time: int, i: nat)
    requires Inv(s) && Enabled(s, step) && !step.Restart? && i < |s.tasks|
    ensures var r := Apply(s, step, time);
            && |r.tasks| == |r.firings| && |s.tasks| == |s.firings| && i < |r.tasks|
            && r.tasks[i].interval == s.tasks[i].interval
            && (if Fires(s, step, i)
                then r.tasks[i].lastRun == s.thread.now && r.firings[i] == s.firings[i] + [Firing(s.thread.now, time)]
                else r.tasks[i].lastRun == s.tasks[i].lastRun && r.firings[i] == s.firings[i])
  {
    assert |s.tasks| == |s.firings|;
    if step.Visit? {
      VisitEffect(s, time);
    } else {
      hide Inv;
      OtherEffect(s, step, time, i);
    }
  }

  /** A visit stamps and records the one task that it fires, and changes no other. */
  lemma VisitEffect(s: State, time: int)
    requires Inv(s) && Enabled(s, Visit)
    ensures var r, now, k := Apply(s, Visit, time), s.thread.now, s.thread.index;
            && |s.tasks| == |s.firings| == |r.tasks| == |r.firings| && r.clock == time
            && (r.steady <==> s.steady && s.clock <= time)
            && (forall i :: 0 <= i < |s.tasks| && (i != k || !Due(s.tasks[i], now)) ==>
                  r.tasks[i] == s.tasks[i] && r.firings[i] == s.firings[i])
            && (Due(s.tasks[k], now) ==>
                  && r.tasks[k] == s.tasks[k].(lastRun := now) && r.firings[k] == s.firings[k] + [Firing(now, time)])
            && (r.thread == At(now, k + 1) || r.thread == Injecting(now, k))
  {
    assert |s.tasks| == |s.firings|;
    hide Ordered, Timed, Filed, Behind;
  }

  lemma OtherEffect(s: State, step: Step, time: int, i: nat)
    requires Inv(s) && Enabled(s, step) && !step.Restart? && !step.Visit? && i < |s.tasks| == |s.firings|
    ensures var r := Apply(s, step, time);
            && |r.tasks| == |r.firings| && i < |r.tasks|
            && r.tasks[i].interval == s.tasks[i].interval
            && r.tasks[i].lastRun == s.tasks[i].lastRun && r.firings[i] == s.firings[i]
  {
    hide Ordered, Timed, Filed, Behind, Jobs, JobsText, Load, AfterControl;
    if step.Control? { ControlledTimes(s.tasks, step.id, step.action, i); }
  }

  lemma ThreadEffect(s: State, step: Step, time: int)
    requires Inv(s) && Enabled(s, step) && !step.Restart?
    ensures var r := Apply(s, step, time);
            && r.clock == time && (r.steady ==> s.steady && s.clock <= time)
            && match step
               case Tick => r.thread == Awake(time) && (r.steady ==> s.thread.since < time)
               case Lock => r.thread == At(s.thread.now, 0)
               case Visit => r.thread == At(s.thread.now, s.thread.index + 1)
                   || r.thread == Injecting(s.thread.now, s.thread.index)
               case Injected => r.thread == At(s.thread.now, s.thread.index + 1)
               case EndScan => r.thread == Asleep(time)
               case _ => r.thread == s.thread
  {
    hide Ordered, Filed, Behind, Timed, Jobs, JobsText, Load;
  }

  /** A step either fires the task, not before the earliest time, or does not make that earlier. */
  lemma StepEarliest(s: State, step: Step, time: int, i: nat)
    requires Inv(s) && Enabled(s, step) && !step.Restart? && i < |s.tasks| && Apply(s, step, time).steady
    ensures var r := Apply(s, step, time);
            && i < |r.tasks| && |r.tasks| == |r.firings| && |s.tasks| == |s.firings|
            && (if r.firings[i] == s.firings[i] then Earliest(r, i) >= Earliest(s, i)
                else r.firings[i] == s.firings[i] + [Firing(s.thread.now, time)] && time >= Earliest(s, i))
  {
    TaskEffect(s, step, time, i);
    ThreadEffect(s, step, time);
    assert !s.thread.Asleep? ==> s.thread.now <= s.clock by { hide Ordered, Filed, Timed; }
    hide Inv, Apply;
  }

  lemma {:induction false} NeverEarlier(s: State, events: seq<Event>, t: State, i: nat, wall: int)
    requires Inv(s) && Exec(s, events) == Some(t) && t.steady && i < |s.tasks|
    requires NoRestart(events)
    requires NextFired(s, t, i, wall)
    ensures wall >= Earliest(s, i)
    decreases |events|
  {
    assert |s.firings| == |s.tasks|;
    if events != [] {
      var e := events[0];
      var r := Apply(s, e.step, e.time);
      StepKeeps(s, e.step, e.time);
      SteadyBefore(r, events[1..], t);
      StepEarliest(s, e.step, e.time, i);
      if r.firings[i] == s.firings[i] {
        hide Inv, Apply, Enabled, Earliest;
        NeverEarlier(r, events[1..], t, i, wall);
      } else {
        hide Apply, Enabled, Earliest;
        FiringsGrow(r, events[1..], t, i);
      }
    }
  }

  lemma {:induction false} SteadyBefore(s: State, events: seq<Event>, t: State)
    requires Inv(s) && Exec(s, events) == Some(t) && t.steady
    ensures s.steady
    decreases |events|
  {
    if events != [] {
      var e := events[0];
      StepKeeps(s, e.step, e.time);
      SteadyBefore(Apply(s, e.step, e.time), events[1..], t);
      hide Inv;
    }
  }

  /** What has been fired stays on record. */
  lemma {:induction false} FiringsGrow(s: State, events: seq<Event>, t: State, i: nat)
    requires Inv(s) && Exec(s, events) == Some(t) && i < |s.tasks|
    requires NoRestart(events)
    ensures |s.firings| == |s.tasks| && i < |t.firings| && s.firings[i] <= t.firings[i]
    decreases |events|
  {
    assert |s.firings| == |s.tasks|;
    if events != [] {
      var e := events[0];
      StepKeeps(s, e.step, e.time);
      TaskEffect(s, e.step, e.time, i);
      hide Inv, Apply, Enabled;
      FiringsGrow(Apply(s, e.step, e.time), events[1..], t, i);
    }
  }

  // ---- And it can come then --------------------------------------------------------------

  lemma {:induction false} ExecSplit(s: State, a: seq<Event>, b: seq<Event>)
    requires Inv(s) && Exec(s, a).Some?
    ensures Exec(s, a + b) == Exec(Exec(s, a).value, b)
    decreases |a|
  {
    hide Inv, Enabled;
    if a == [] {
      assert a + b == b;
    } else {
      assert (a + b)[0] == a[0] && (a + b)[1..] == a[1..] + b;
      StepKeeps(s, a[0].step, a[0].time);
      hide Apply;
      ExecSplit(Apply(s, a[0].step, a[0].time), a[1..], b);
    }
  }

  lemma LaterSelf(s: State)
    requires Inv(s) && s.steady
    ensures Later(s, s)
  {
    assert Exec(s, []) == Some(s) && NoRestart([]);
  }

  lemma LaterOn(s: State, t: State, u: State)
    requires Inv(s) && Inv(t) && Later(s, t) && Later(t, u)
    ensures Later(s, u)
  {
    hide Inv, Exec;
    var a :| Exec(s, a) == Some(t) && NoRestart(a);
    var b :| Exec(t, b) == Some(u) && NoRestart(b);
    ExecSplit(s, a, b);
    assert NoRestart(a + b);
  }

  lemma LaterStep(s: State, step: Step, time: int)
    requires Inv(s) && Enabled(s, step) && !step.Restart? && Apply(s, step, time).steady
    ensures Inv(Apply(s, step, time)) && Later(s, Apply(s, step, time))
  {
    StepKeeps(s, step, time);
    hide Inv, Enabled, Apply;
    var e := Event(step, time);
    assert [e][1..] == [] && Exec(s, [e]) == Exec(Apply(s, step, time), []);
    assert NoRestart([e]);
  }

  /** Task `i` and its record are the same in both states, and so are the clock and the table's size. */
  predicate SameTask(s: State, t: State, i: nat) {
    && t.clock == s.clock && t.steady == s.steady && |t.tasks| == |s.tasks| && |t.firings| == |s.firings|
    && i < |s.tasks| && i < |s.firings| && t.tasks[i] == s.tasks[i] && t.firings[i] == s.firings[i]
  }

  /** The scan passes over one task that is not `i`, or not due, without losing time. */
  lemma PassesOne(s: State, i: nat) returns (t: State)
    requires Inv(s) && s.steady && s.thread.At? && s.thread.index < |s.tasks| && i < |s.tasks|
    requires i == s.thread.index ==> !Due(s.tasks[i], s.thread.now)
    ensures Inv(t) && Later(s, t) && SameTask(s, t, i) && t.thread == At(s.thread.now, s.thread.index + 1)
  {
    VisitEffect(s, s.clock);
    hide Later, Inv, Apply;
    t := Apply(s, Visit, s.clock);
    LaterStep(s, Visit, s.clock);
    if t.thread.Injecting? {
      var u := TakesLock(t, i);
      LaterOn(s, t, u);
      t := u;
    }
  }

  lemma {:induction false} Passes(s: State, m: nat, i: nat) returns (t: State)
    requires Inv(s) && s.steady && s.thread.At? && s.thread.index <= m <= |s.tasks| && i < |s.tasks|
    requires s.thread.index <= i < m ==> !Due(s.tasks[i], s.thread.now)
    ensures Inv(t) && Later(s, t) && SameTask(s, t, i) && t.thread == At(s.thread.now, m)
    decreases m - s.thread.index
  {
    assert |s.firings| == |s.tasks|;
    hide Inv, Later;
    if s.thread.index == m {
      t := s;
      LaterSelf(s);
    } else {
      var u := PassesOne(s, i);
      t := Passes(u, m, i);
      LaterOn(s, u, t);
    }
  }

  /** The thread gets to hold the lock, as far into its scan as it is. */
  lemma TakesLock(s: State, i: nat) returns (t: State)
    requires Inv(s) && s.steady && !s.thread.Asleep? && i < |s.tasks|
    ensures Inv(t) && Later(s, t) && SameTask(s, t, i) && t.thread.At? && t.thread.now == s.thread.now
    ensures t.thread.index == if s.thread.Awake? then 0 else if s.thread.At? then s.thread.index else s.thread.index + 1
  {
    assert |s.firings| == |s.tasks|;
    t := s;
    if s.thread.Awake? {
      LaterStep(s, Lock, s.clock);
      t := Apply(s, Lock, s.clock);
    } else if s.thread.Injecting? {
      LaterStep(s, Injected, s.clock);
      t := Apply(s, Injected, s.clock);
    } else {
      LaterSelf(s);
    }
    hide Inv, Later;
  }

  /** A scan that does not fire task `i` any more can end at once. */
  lemma Rests(s: State, i: nat) returns (t: State)
    requires Inv(s) && s.steady && !s.thread.Asleep? && i < |s.tasks| && !InThisScan(s, i)
    ensures Inv(t) && Later(s, t) && SameTask(s, t, i) && t.thread == Asleep(s.clock)
  {
    hide Inv, Later;
    var u := TakesLock(s, i);
    var v := u;
    if u.thread.index <= |u.tasks| { v := Passes(u, |u.tasks|, i); } else { LaterSelf(u); }
    LaterStep(v, EndScan, v.clock);
    t := Apply(v, EndScan, v.clock);
    LaterOn(s, u, v);
    LaterOn(s, v, t);
  }

  lemma FiresNow(s: State, i: nat) returns (t: State)
    requires Inv(s) && s.steady && s.thread.At? && s.thread.index == i < |s.tasks| && Due(s.tasks[i], s.thread.now)
    ensures Later(s, t) && FiredOnce(s, t, i, s.clock)
  {
    assert |s.firings| == |s.tasks|;
    LaterStep(s, Visit, s.clock);
    t := Apply(s, Visit, s.clock);
    VisitEffect(s, s.clock);
    hide Inv, Later, Apply;
  }

  lemma FiresInScan(s: State, i: nat) returns (t: State)
    requires Inv(s) && s.steady && i < |s.tasks| && InThisScan(s, i) && s.tasks[i].active && !s.tasks[i].paused
    ensures Later(s, t) && FiredOnce(s, t, i, s.clock)
  {
    hide Inv, Later;
    var u := TakesLock(s, i);
    var v := Passes(u, i, i);
    t := FiresNow(v, i);
    LaterOn(s, u, v);
    LaterOn(s, v, t);
  }

  lemma FiresNextScan(s: State, i: nat, time: int) returns (t: State)
    requires Inv(s) && s.steady && i < |s.tasks| && s.thread.Asleep? && s.tasks[i].active && !s.tasks[i].paused
    requires time >= Max(NextScan(s), DueFrom(s, i))
    ensures Later(s, t) && FiredOnce(s, t, i, time)
  {
    assert |s.firings| == |s.tasks|;
    LaterStep(s, Tick, time);
    var u := Apply(s, Tick, time);
    hide Inv, Later;
    t := FiresInScan(u, i);
    LaterOn(s, u, t);
  }

  /** An active task that is not paused can be fired at that earliest time. */
  lemma FiresThen(s: State, i: nat) returns (t: State)
    requires Inv(s) && s.steady && i < |s.tasks| && s.tasks[i].active && !s.tasks[i].paused
    ensures Later(s, t) && FiredOnce(s, t, i, Earliest(s, i))
  {
    hide Inv, Later;
    if InThisScan(s, i) {
      t := FiresInScan(s, i);
    } else if s.thread.Asleep? {
      t := FiresNextScan(s, i, Earliest(s, i));
    } else {
      var u := Rests(s, i);
      t := FiresNextScan(u, i, Earliest(s, i));
      LaterOn(s, u, t);
    }
  }

  /** A paused task can be resumed whenever the lock is free. */
  lemma Resumed(s: State, i: nat) returns (r: State)
    requires Inv(s) && s.steady && i < |s.tasks| && s.tasks[i].active && LockFree(s)
    ensures Inv(r) && Later(s, r) && r.thread == s.thread && r.clock == s.clock && r.steady && r.firings == s.firings
    ensures |r.tasks| == |s.tasks| && r.tasks[i] == s.tasks[i].(paused := false)
  {
    var step := Control(s.tasks[i].id, Resume, false);
    OwnId(s, i);
    LaterStep(s, step, s.clock);
    r := Apply(s, step, s.clock);
    hide Inv, Later;
  }

  lemma OwnId(s: State, i: nat)
    requires Inv(s) && i < |s.tasks| && s.tasks[i].active
    ensures Lookup(s.tasks, s.tasks[i].id) == i
  {
    hide Timed, Filed, Behind;
    assert forall k :: 0 <= k < i ==> s.tasks[k].id < s.tasks[i].id;
  }

  // ---- Exactly when a firing comes early -------------------------------------------------

  /** Some run fires task `i` again less than its interval after its last firing. */
  ghost predicate MayComeEarly(s: State, i: nat)
    requires Inv(s) && i < |s.tasks| && |s.firings| == |s.tasks| && s.firings[i] != []
  {
    exists t, wall :: Later(s, t) && NextFired(s, t, i, wall) && wall - LastOf(s, i).wall < s.tasks[i].interval
  }

  lemma RecordKept(s: State, i: nat)
    requires Inv(s) && i < |s.tasks|
    ensures |s.firings| == |s.tasks| && s.firings[i] != [] && LastOf(s, i).stamp == s.tasks[i].lastRun
    ensures s.steady ==> LastOf(s, i).stamp <= LastOf(s, i).wall <= s.clock
  {
    hide Ordered, Filed;
    assert Spaced(s.tasks[i], s.firings[i]);
    if s.steady { assert Stamped(s, i); }
  }

  lemma FiresAtEarliest(s: State, i: nat)
    requires Inv(s) && s.steady && i < |s.tasks| && s.tasks[i].active && (!s.tasks[i].paused || LockFree(s))
    ensures exists t :: Later(s, t) && NextFired(s, t, i, Earliest(s, i))
  {
    assert |s.firings| == |s.tasks|;
    hide Inv, Later;
    var r := s;
    if s.tasks[i].paused { r := Resumed(s, i); } else { LaterSelf(s); }
    var t := FiresThen(r, i);
    LaterOn(s, r, t);
    assert Earliest(r, i) == Earliest(s, i) && NextFired(s, t, i, Earliest(s, i));
  }

  /** In every state of every run with a steady clock, and for every active task that is not paused or
      can be resumed: some continuation fires it less than its interval after its last firing if and
      only if the earliest time at which the scan can come to it allows that. */
  lemma EarlyExactly(clock: int, events: seq<Event>, i: nat)
    requires Run(clock, events).Some?
    requires var s := Run(clock, events).value;
             s.steady && i < |s.tasks| && s.tasks[i].active && (!s.tasks[i].paused || LockFree(s))
    ensures var s := Run(clock, events).value;
            && |s.firings| == |s.tasks| && s.firings[i] != []
            && (MayComeEarly(s, i) <==> Earliest(s, i) < LastOf(s, i).wall + s.tasks[i].interval)
  {
    hide Run;
    EarlyFrom(Run(clock, events).value, i);
  }

  lemma EarlyFrom(s: State, i: nat)
    requires Inv(s) && s.steady && i < |s.tasks| && s.tasks[i].active && (!s.tasks[i].paused || LockFree(s))
    ensures |s.firings| == |s.tasks| && s.firings[i] != []
    ensures MayComeEarly(s, i) <==> Earliest(s, i) < LastOf(s, i).wall + s.tasks[i].interval
  {
    RecordKept(s, i);
    FiresAtEarliest(s, i);
    hide Inv, Earliest;
    forall t, wall | Later(s, t) && NextFired(s, t, i, wall) ensures wall >= Earliest(s, i) {
      var more :| Exec(s, more) == Some(t) && NoRestart(more);
      NeverEarlier(s, more, t, i, wall);
    }
    hide Later, NextFired;
  }

  /** While the thread sleeps: if and only if the last firing lagged behind its stamp, and neither the
      clock nor the end of the sleep is an interval past it. */
  lemma EarlyWhileAsleep(clock: int, events: seq<Event>, i: nat)
    requires Run(clock, events).Some?
    requires var s := Run(clock, events).value; s.steady && i < |s.tasks| && s.tasks[i].active && s.thread.Asleep?
    ensures var s := Run(clock, events).value;
            && |s.firings| == |s.tasks| && s.firings[i] != []
            && var last, interval := LastOf(s, i), s.tasks[i].interval;
               MayComeEarly(s, i) <==>
                 last.stamp < last.wall && s.clock < last.wall + interval && s.thread.since + 1 < last.wall + interval
  {
    hide Run;
    var s := Run(clock, events).value;
    EarlyFrom(s, i);
    RecordKept(s, i);
    hide Inv;
  }

  /** Right after a firing: if and only if it lagged behind its stamp and the interval is more than the
      second that the thread sleeps. */
  lemma EarlyAfterFiring(clock: int, events: seq<Event>, time: int)
    requires Run(clock, events).Some?
    requires var s := Run(clock, events).value;
             s.steady && s.clock <= time && Enabled(s, Visit) && Due(s.tasks[s.thread.index], s.thread.now)
    ensures var s := Run(clock, events).value;
            var r, i := Apply(s, Visit, time), s.thread.index;
            && Inv(r) && i < |r.tasks| && |r.firings| == |r.tasks| && r.firings[i] != []
            && (MayComeEarly(r, i) <==> s.thread.now < time && s.tasks[i].interval > 1)
  {
    hide Run;
    var s := Run(clock, events).value;
    var r, i := Apply(s, Visit, time), s.thread.index;
    StepKeeps(s, Visit, time);
    VisitEffect(s, time);
    hide Inv, Apply;
    EarlyFrom(r, i);
  }

  // ---- The bound is reached --------------------------------------------------------------

  /** A state that some run from time 0 on reaches. */
  ghost predicate Reached(s: State) { exists events :: Run(0, events) == Some(s) }

  lemma ReachedLater(s: State, t: State)
    requires Reached(s) && Inv(s) && Later(s, t)
    ensures Reached(t)
  {
    FreshInv(0);
    hide Inv, Exec;
    var a :| Run(0, a) == Some(s);
    var b :| Exec(s, b) == Some(t) && NoRestart(b);
    ExecSplit(Fresh(0), a, b);
    assert Run(0, a + b) == Some(t);
  }

  lemma Then(s: State, step: Step, time: int, next: State)
    requires Reached(s) && Inv(s) && Enabled(s, step) && !step.Restart? && Apply(s, step, time) == next && next.steady
    ensures Reached(next) && Inv(next)
  {
    LaterStep(s, step, time);
    hide Inv, Apply, Later, Reached;
    ReachedLater(s, next);
  }

  /** Two tasks of the same interval, an agent turn and a shell command. */
  function Pair(n: int, thread: Thread, ra: int, rb: int, fa: seq<Firing>, fb: seq<Firing>, clock: int): State {
    State([Added(1, [], false, [], n, 0).(lastRun := ra), Added(2, [], true, [], n, 0).(lastRun := rb)], 3, thread,
          None, [], false, [fa, fb], clock, true)
  }

  lemma FirstAdded(n: int, f: seq<Firing>)
    requires f == [Firing(0, 0)] && 0 < n <= INT_MAX
    ensures var s := State([Added(1, [], false, [], n, 0)], 2, Asleep(0), None, [], false, [f], 0, true);
            Reached(s) && Inv(s)
  {
    FreshInv(0);
    assert Run(0, []) == Some(Fresh(0));
    hide Jobs, JobsText, Load, Run, Inv;
    var s := State([Added(1, [], false, [], n, 0)], 2, Asleep(0), None, [], false, [f], 0, true);
    assert s.tasks == [] + [Added(1, [], false, [], n, 0)] && s.firings == [] + [f];
    Then(Fresh(0), Add([], false, [], n, false), 0, s);
  }

  lemma PairAdded(n: int, f: seq<Firing>)
    requires f == [Firing(0, 0)] && 0 < n <= INT_MAX
    ensures var s := Pair(n, Asleep(0), 0, 0, f, f, 0); Reached(s) && Inv(s)
  {
    hide Jobs, JobsText, Load, Run, Inv, Reached;
    FirstAdded(n, f);
    var s, r := State([Added(1, [], false, [], n, 0)], 2, Asleep(0), None, [], false, [f], 0, true),
        Pair(n, Asleep(0), 0, 0, f, f, 0);
    assert r.tasks == s.tasks + [Added(2, [], true, [], n, 0)] && r.firings == s.firings + [f];
    Then(s, Add([], true, [], n, false), 0, r);
  }

  lemma PairBegins(n: int, f: seq<Firing>)
    requires f == [Firing(0, 0)] && n > 0
    requires var s := Pair(n, Asleep(0), 0, 0, f, f, 0); Reached(s) && Inv(s)
    ensures var r := Pair(n, At(n, 0), 0, 0, f, f, n); Reached(r) && Inv(r)
  {
    hide Inv, Run, Reached, Load, Jobs;
    Then(Pair(n, Asleep(0), 0, 0, f, f, 0), Tick, n, Pair(n, Awake(n), 0, 0, f, f, n));
    Then(Pair(n, Awake(n), 0, 0, f, f, n), Lock, n, Pair(n, At(n, 0), 0, 0, f, f, n));
  }

  /** The agent turn fires, and its message takes until `time` to be accepted. */
  lemma FirstBlocks(n: int, f: seq<Firing>, time: int)
    requires f == [Firing(0, 0)] && 0 < n <= time
    requires var s := Pair(n, At(n, 0), 0, 0, f, f, n); Reached(s) && Inv(s)
    ensures var r := Pair(n, At(n, 1), n, 0, f + [Firing(n, n)], f, time); Reached(r) && Inv(r)
  {
    hide Inv, Run, Reached, Load, Jobs;
    var s, fa := Pair(n, At(n, 0), 0, 0, f, f, n), f + [Firing(n, n)];
    var r := Pair(n, Injecting(n, 0), n, 0, fa, f, n);
    assert s.tasks[0 := s.tasks[0].(lastRun := n)] == r.tasks && s.firings[0 := fa] == r.firings;
    Then(s, Visit, n, r);
    Then(r, Injected, time, Pair(n, At(n, 1), n, 0, fa, f, time));
  }

  lemma SecondLags(n: int, f: seq<Firing>, fa: seq<Firing>, time: int)
    requires f == [Firing(0, 0)] && 0 < n <= time
    requires var s := Pair(n, At(n, 1), n, 0, fa, f, time); Reached(s) && Inv(s)
    ensures var r := Pair(n, At(n, 2), n, n, fa, f + [Firing(n, time)], time); Reached(r) && Inv(r)
  {
    hide Inv, Run, Reached, Load, Jobs;
    var s, fb := Pair(n, At(n, 1), n, 0, fa, f, time), f + [Firing(n, time)];
    var r := Pair(n, At(n, 2), n, n, fa, fb, time);
    assert s.tasks[1 := s.tasks[1].(lastRun := n)] == r.tasks && s.firings[1 := fb] == r.firings;
    Then(s, Visit, time, r);
  }

  /** A task of any interval that has fired with any lag. */
  lemma Lagged(n: int, lag: nat) returns (s: State)
    requires 0 < n <= INT_MAX
    ensures Reached(s) && Inv(s) && s.steady && |s.tasks| == |s.firings| == 2
    ensures s.tasks[1] == Added(2, [], true, [], n, 0).(lastRun := n) && s.thread == At(n, 2) && s.clock == n + lag
    ensures s.firings[1] == [Firing(0, 0), Firing(n, n + lag)]
  {
    var f := [Firing(0, 0)];
    var fa := f + [Firing(n, n)];
    s := Pair(n, At(n, 2), n, n, fa, f + [Firing(n, n + lag)], n + lag);
    hide Inv, Reached;
    PairAdded(n, f);
    PairBegins(n, f);
    FirstBlocks(n, f, n + lag);
    SecondLags(n, f, fa, n + lag);
  }

  /** For every interval and every lag some run has two firings exactly as close as the bound allows:
      while the message of an earlier task waits for room on the bus the scan stands still, and the
      next task fires late and then early. */
  lemma GapReached(interval: int, lag: nat)
    requires 0 < interval <= INT_MAX
    ensures exists s :: Reached(s) && s.steady && |s.tasks| > 1 && s.tasks[1].interval == interval && |s.firings| > 1
              && |s.firings[1]| == 3 && s.firings[1][1].wall - s.firings[1][1].stamp == lag
              && s.firings[1][2].wall - s.firings[1][1].wall == Max(1, interval - lag)
  {
    hide Inv, Reached, Later;
    var s := Lagged(interval, lag);
    var t := FiresThen(s, 1);
    ReachedLater(s, t);
    SameInterval(s, t, 1);
    assert t.firings[1][1] == t.firings[1][..2][1] == Firing(interval, interval + lag);
  }

  /** Nothing changes an interval or drops a task. */
  lemma SameInterval(s: State, t: State, i: nat)
    requires Inv(s) && Later(s, t) && i < |s.tasks|
    ensures t.steady && i < |t.tasks| && t.tasks[i].interval == s.tasks[i].interval
  {
    var events :| Exec(s, events) == Some(t) && NoRestart(events);
    IntervalKept(s, events, t, i);
  }

  lemma {:induction false} IntervalKept(s: State, events: seq<Event>, t: State, i: nat)
    requires Inv(s) && Exec(s, events) == Some(t) && NoRestart(events) && i < |s.tasks|
    ensures i < |t.tasks| && t.tasks[i].interval == s.tasks[i].interval
    decreases |events|
  {
    if events != [] {
      var e := events[0];
      StepKeeps(s, e.step, e.time);
      TaskEffect(s, e.step, e.time, i);
      hide Inv, Apply, Enabled;
      IntervalKept(Apply(s, e.step, e.time), events[1..], t, i);
    }
  }
}
