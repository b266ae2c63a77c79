/**
 The scheduler of src/tools/scheduler/scheduler.c as a machine: the scanning thread, which drops
 the lock while it injects a message, the tools that add and control tasks, and restarts of the
 process from jobs.json.
 */
module Scheduler {
  import opened Bytes
  import opened Options
  import opened SchedulerJobs
  import JsonValue
  import JsonParse

  // ---- Changes of the table of tasks -----------------------------------------------------

  predicate Due(t: Task, now: int) { t.active && !t.paused && now - t.lastRun >= t.interval }

  datatype Action = Pause | Resume | Delete | Unknown

  /** The first active task with the id, or the number of tasks. */
  function Lookup(tasks: seq<Task>, id: int): (i: nat)
    ensures i <= |tasks| && (i < |tasks| ==> tasks[i].id == id && tasks[i].active)
    ensures forall k :: 0 <= k < i ==> tasks[k].id != id || !tasks[k].active
  {
    if tasks == [] then 0
    else if tasks[0].id == id && tasks[0].active then 0
    else
      var r := Lookup(tasks[1..], id);
      assert forall k :: 0 <= k < r ==> tasks[1..][k] == tasks[k + 1];
      1 + r
  }

  function Controlled(t: Task, action: Action): Task {
    match action
    case Pause => t.(paused := true)
    case Resume => t.(paused := false)
    case Delete => t.(active := false, name := [], task := [])
    case Unknown => t
  }

  function AfterControl(tasks: seq<Task>, id: int, action: Action): (r: seq<Task>)
    ensures |r| == |tasks|
  {
    var i := Lookup(tasks, id);
    if i == |tasks| then tasks else tasks[i := Controlled(tasks[i], action)]
  }

  predicate AddOk(tasks: seq<Task>, interval: int) { interval > 0 && |tasks| < MAX_TASKS }

  function Added(id: int, name: Text, shell: bool, task: Text, interval: int, now: int): Task {
    Task(id, name, shell, task, interval, now, false, true)
  }

  class Table {
    const tasks: array<Task>
    var count: nat
    var nextId: int

    ghost predicate Valid() reads this, tasks { tasks.Length == MAX_TASKS && count <= MAX_TASKS }
    ghost function Tasks(): seq<Task> requires Valid() reads this, tasks { tasks[..count] }

    constructor (file: Option<Text>, now: int)
      ensures Valid() && fresh(tasks) && Loaded(Tasks(), nextId) == Load(file, now)
    {
      var l := Load(file, now);
      LoadFits(file, now);
      tasks := new Task[MAX_TASKS](i => if 0 <= i < |l.tasks| then l.tasks[i] else Added(0, [], false, [], 0, 0));
      count := |l.tasks|;
      nextId := l.nextId;
    }

    /** `tool_schedule_add` with the interval already parsed; false is the error answer. */
    method Add(name: Text, shell: bool, task: Text, interval: int, now: int) returns (ok: bool)
      requires Valid()
      modifies this`count, this`nextId, tasks
      ensures Valid() && ok == AddOk(old(Tasks()), interval)
      ensures ok ==> nextId == old(nextId) + 1
      ensures ok ==> Tasks() == old(Tasks()) + [Added(old(nextId), name, shell, task, interval, now)]
      ensures !ok ==> nextId == old(nextId) && Tasks() == old(Tasks())
    {
      if interval <= 0 || count >= MAX_TASKS { return false; }
      tasks[count] := Added(nextId, name, shell, task, interval, now);
      count := count + 1;
      nextId := nextId + 1;
      ok := true;
    }

    /** `tool_schedule_control` */
    method Control(id: int, action: Action) returns (found: bool)
      requires Valid()
      modifies tasks
      ensures Valid() && Tasks() == AfterControl(old(Tasks()), id, action)
      ensures found <==> Lookup(old(Tasks()), id) < |old(Tasks())|
    {
      ghost var all := Tasks();
      for i := 0 to count
        invariant Tasks() == all
        invariant forall k :: 0 <= k < i ==> all[k].id != id || !all[k].active
      {
        if tasks[i].id != id || !tasks[i].active { continue; }
        assert all[i] == tasks[i] && Lookup(all, id) == i;
        tasks[i] := Controlled(tasks[i], action);
        assert tasks[..count] == all[i := Controlled(all[i], action)];
        return true;
      }
      found := false;
    }

    /** One turn of the scan: a task that is due is fired and stamped. */
    method Visit(i: nat, now: int) returns (fired: bool)
      requires Valid() && i < count
      modifies tasks
      ensures Valid() && fired == Due(old(Tasks()[i]), now)
      ensures Tasks() == old(Tasks())[i := if fired then old(Tasks()[i]).(lastRun := now) else old(Tasks()[i])]
    {
      fired := tasks[i].active && !tasks[i].paused && now - tasks[i].lastRun >= tasks[i].interval;
      if fired { tasks[i] := tasks[i].(lastRun := now); }
    }
  }

  lemma {:induction false} LoadItemsFit(items: seq<JsonValue.Value>, l: Loaded, now: int)
    requires |l.tasks| <= MAX_TASKS
    ensures |LoadItems(items, l, now).tasks| <= MAX_TASKS
    decreases |items|
  {
    if items != [] && |l.tasks| < MAX_TASKS {
      match Revive(items[0], l.nextId, now)
      case None => LoadItemsFit(items[1..], l, now);
      case Some(t) => LoadItemsFit(items[1..], Loaded(l.tasks + [t], Raised(l.nextId, t.id)), now);
    }
  }

  /** However many items a file holds, the table is never overrun. */
  lemma LoadFits(file: Option<Text>, now: int)
    ensures |Load(file, now).tasks| <= MAX_TASKS
  {
    if file.Some? && JsonParse.Parse(file.value).Done? {
      LoadItemsFit(Children(JsonParse.Parse(file.value).value), NOTHING, now);
    }
  }

  // ---- The machine -----------------------------------------------------------------------

  /** Where the scanning thread is: asleep for a second since some time; awake with the time it has
      read, about to lock; at a task with the lock held; or injecting that task's message with the
      lock released. */
  datatype Thread = Asleep(since: int) | Awake(now: int) | At(now: int, index: nat) | Injecting(now: int, index: nat)

  /** A firing carries the stamp that is recorded and the time at which it happened. */
  datatype Firing = Firing(stamp: int, wall: int)

  /** `firings` holds for every task of this process its creation or loading followed by its
      firings; `saved` what the last successful save wrote, `synced` whether no save has failed
      since; `steady` whether the clock has never gone back and has always gone on by the second that
      the thread sleeps. */
  datatype State = State(
    tasks: seq<Task>,
    nextId: int,
    thread: Thread,
    file: Option<Text>,
    saved: seq<Job>,
    synced: bool,
    firings: seq<seq<Firing>>,
    clock: int,
    steady: bool)

  function Fresh(clock: int): State { State([], 1, Asleep(clock), None, [], true, [], clock, true) }

  datatype Step =
    | Tick
    | Lock
    | Visit
    | Injected
    | EndScan
    | Add(name: Text, shell: bool, task: Text, interval: int, written: bool)
    | Control(id: int, action: Action, written: bool)
    | Restart

  predicate LockFree(s: State) { !s.thread.At? }

  predicate Enabled(s: State, step: Step) {
    match step
    case Tick => s.thread.Asleep?
    case Lock => s.thread.Awake?
    case Visit => s.thread.At? && s.thread.index < |s.tasks|
    case Injected => s.thread.Injecting?
    case EndScan => s.thread.At? && s.thread.index >= |s.tasks|
    case Add(name, _, task, interval, _) =>
      LockFree(s) && NulFree(name) && NulFree(task) && interval <= INT_MAX && s.nextId < INT_MAX
    case Control(_, _, _) => LockFree(s)
    case Restart => true
  }

  /** A save that may fail to open its file. */
  function Save(s: State, written: bool): State
    requires JobsOk(Jobs(s.tasks))
  {
    if written then s.(file := Some(JobsText(Jobs(s.tasks))), saved := Jobs(s.tasks), synced := true)
        else s.(synced := false)
  }

  function FireAt(s: State, i: nat, stamp: int, wall: int): State
    requires i < |s.tasks| && i < |s.firings|
  {
    s.(tasks := s.tasks[i := s.tasks[i].(lastRun := stamp)],
        firings := s.firings[i := s.firings[i] + [Firing(stamp, wall)]])
  }

  function AddTask(s: State, t: Task): State {
    s.(tasks := s.tasks + [t], nextId := s.nextId + 1, firings := s.firings + [[Firing(t.lastRun, t.lastRun)]])
  }

  function Loadings(n: nat, now: int): seq<seq<Firing>> { seq(n, _ => [Firing(now, now)]) }

  function Reloaded(s: State, time: int): State {
    var l := Load(s.file, time);
    s.(tasks := l.tasks, nextId := l.nextId, thread := Asleep(time), synced := true,
       firings := Loadings(|l.tasks|, time))
  }

  function Act(s: State, step: Step, time: int): State
    requires Inv(s) && Enabled(s, step)
  {
    match step
    case Tick => s.(thread := Awake(time))
    case Lock => s.(thread := At(s.thread.now, 0))
    case Visit =>
      var now, i := s.thread.now, s.thread.index;
      if !Due(s.tasks[i], now) then s.(thread := At(now, i + 1))
      else FireAt(s, i, now, time).(thread := if s.tasks[i].shell then At(now, i + 1) else Injecting(now, i))
    case Injected => s.(thread := At(s.thread.now, s.thread.index + 1))
    case EndScan => s.(thread := Asleep(time))
    case Add(name, shell, task, interval, written) =>
      if !AddOk(s.tasks, interval) then s
      else
        var r := AddTask(s, Added(s.nextId, name, shell, task, interval, time));
        AddedOk(s, name, shell, task, interval, time);
        Save(r, written)
    case Control(id, action, written) =>
      if Lookup(s.tasks, id) == |s.tasks| || action.Unknown? then s
      else
        var r := s.(tasks := AfterControl(s.tasks, id, action));
        ControlledOk(s.tasks, s.nextId, id, action);
        Save(r, written)
    case Restart => Reloaded(s, time)
  }

  function Apply(s: State, step: Step, time: int): State
    requires Inv(s) && Enabled(s, step)
  {
    Act(s, step, time).(clock := time, steady := s.steady && s.clock <= time && (step.Tick? ==> s.thread.since < time))
  }

  // ---- What every step keeps -------------------------------------------------------------

  predicate TaskOk(t: Task) { 0 < t.id < INT_MAX && 0 < t.interval <= INT_MAX && NulFree(t.name) && NulFree(t.task) }

  /** Ids increase along the table and stay below the next one. */
  predicate Ordered(tasks: seq<Task>, nextId: int) {
    && |tasks| <= MAX_TASKS && nextId >= 1
    && (forall i :: 0 <= i < |tasks| ==> TaskOk(tasks[i]) && tasks[i].id < nextId)
    && (forall i, j :: 0 <= i < j < |tasks| ==> tasks[i].id < tasks[j].id)
  }

  /** Consecutive stamps are at least the interval apart, and the last one is that of its last run. */
  predicate Spaced(t: Task, fs: seq<Firing>) {
    && fs != [] && fs[|fs| - 1].stamp == t.lastRun
    && forall k :: 0 < k < |fs| ==> fs[k].stamp - fs[k - 1].stamp >= t.interval
  }

  predicate Timed(s: State) {
    |s.firings| == |s.tasks| && forall i :: 0 <= i < |s.tasks| ==> Spaced(s.tasks[i], s.firings[i])
  }

  /** The scan under way is yet to come to task `i`. */
  predicate Upcoming(s: State, i: nat) {
    s.thread.Awake? || (s.thread.At? && s.thread.index <= i) || (s.thread.Injecting? && s.thread.index < i)
  }

  /** Firings of a task are at least a second apart, and so is the scan that is yet to come to it. */
  predicate Rested(s: State, i: nat)
    requires i < |s.firings|
  {
    var fs := s.firings[i];
    && fs != [] && fs[0].stamp == fs[0].wall
    && (forall k :: 0 < k < |fs| ==> fs[k - 1].wall < fs[k].wall)
    && (|fs| > 1 && s.thread.Asleep? ==> fs[|fs| - 1].wall <= s.thread.since)
    && (|fs| > 1 && Upcoming(s, i) ==> fs[|fs| - 1].wall < s.thread.now)
  }

  predicate Stamped(s: State, i: nat)
    requires i < |s.firings|
  {
    forall k :: 0 <= k < |s.firings[i]| ==> s.firings[i][k].stamp <= s.firings[i][k].wall <= s.clock
  }

  /** Stamps are never ahead of the time of the firing, nor that of the clock. */
  predicate Behind(s: State) {
    s.steady ==>
      && (if s.thread.Asleep? then s.thread.since <= s.clock else s.thread.now <= s.clock)
      && forall i :: 0 <= i < |s.firings| ==> Stamped(s, i) && Rested(s, i)
  }

  predicate JobsOrdered(js: seq<Job>) {
    |js| <= MAX_TASKS && JobsOk(js) && forall i, j :: 0 <= i < j < |js| ==> js[i].id < js[j].id
  }

  predicate Filed(s: State) {
    && JobsOrdered(s.saved)
    && (s.file == None ==> s.saved == []) && (s.file.Some? ==> s.file == Some(JobsText(s.saved)))
    && (s.synced ==> s.saved == Jobs(s.tasks))
  }

  predicate Inv(s: State) { Ordered(s.tasks, s.nextId) && Timed(s) && Behind(s) && Filed(s) }

  /** The active tasks of an ordered table can be saved. */
  lemma {:induction false} OrderedJobs(tasks: seq<Task>, nextId: int)
    requires Ordered(tasks, nextId)
    ensures JobsOrdered(Jobs(tasks)) && |Jobs(tasks)| <= |tasks|
    ensures forall i :: 0 <= i < |Jobs(tasks)| ==> Jobs(tasks)[i].id < nextId
  {
    if tasks != [] {
      var t := tasks[|tasks| - 1];
      OrderedJobs(tasks[..|tasks| - 1], t.id);
    }
  }

  lemma AddedOk(s: State, name: Text, shell: bool, task: Text, interval: int, now: int)
    requires Ordered(s.tasks, s.nextId) && AddOk(s.tasks, interval) && NulFree(name) && NulFree(task)
          && interval <= INT_MAX && s.nextId < INT_MAX
    ensures var r := AddTask(s, Added(s.nextId, name, shell, task, interval, now));
            Ordered(r.tasks, r.nextId) && JobsOrdered(Jobs(r.tasks)) && JobsOk(Jobs(r.tasks))
  {
    var r := AddTask(s, Added(s.nextId, name, shell, task, interval, now));
    assert Ordered(r.tasks, r.nextId);
    OrderedJobs(r.tasks, r.nextId);
  }

  lemma ControlledOk(tasks: seq<Task>, nextId: int, id: int, action: Action)
    requires Ordered(tasks, nextId)
    ensures Ordered(AfterControl(tasks, id, action), nextId) && JobsOrdered(Jobs(AfterControl(tasks, id, action)))
  {
    assert Ordered(AfterControl(tasks, id, action), nextId);
    OrderedJobs(AfterControl(tasks, id, action), nextId);
  }

  /** A firing leaves what is saved as it is. */
  lemma {:induction false} FiredJobs(tasks: seq<Task>, i: nat, stamp: int)
    requires i < |tasks|
    ensures Jobs(tasks[i := tasks[i].(lastRun := stamp)]) == Jobs(tasks)
  {
    var r, n := tasks[i := tasks[i].(lastRun := stamp)], |tasks| - 1;
    if i == n {
      assert r[..n] == tasks[..n];
    } else {
      FiredJobs(tasks[..n], i, stamp);
      assert r[..n] == tasks[..n][i := tasks[..n][i].(lastRun := stamp)];
    }
  }

  /** What the invariant says, but for the clock. */
  predicate Core(s: State) { Ordered(s.tasks, s.nextId) && Timed(s) && Filed(s) }

  lemma FireKeeps(s: State, i: nat, now: int, wall: int)
    requires Core(s) && i < |s.tasks| && Due(s.tasks[i], now)
    ensures Core(FireAt(s, i, now, wall))
  {
    hide JobsText, JobsOrdered;
    FiredJobs(s.tasks, i, now);
    hide Jobs;
    var r := FireAt(s, i, now, wall);
    assert Spaced(s.tasks[i], s.firings[i]);
    assert Spaced(r.tasks[i], r.firings[i]);
    assert forall k :: 0 <= k < |s.tasks| && k != i ==> r.tasks[k] == s.tasks[k] && r.firings[k] == s.firings[k];
  }

  lemma AddKeeps(s: State, name: Text, shell: bool, task: Text, interval: int, now: int, written: bool)
    requires Core(s) && AddOk(s.tasks, interval) && NulFree(name) && NulFree(task) && interval <= INT_MAX
          && s.nextId < INT_MAX
    ensures var r := AddTask(s, Added(s.nextId, name, shell, task, interval, now));
            JobsOk(Jobs(r.tasks)) && Core(Save(r, written))
  {
    AddedOk(s, name, shell, task, interval, now);
    hide JobsText, JobsOrdered, Jobs, Ordered;
    var t := Added(s.nextId, name, shell, task, interval, now);
    assert Spaced(t, [Firing(t.lastRun, t.lastRun)]);
  }

  lemma ControlKeeps(s: State, id: int, action: Action, written: bool)
    requires Core(s)
    ensures var r := s.(tasks := AfterControl(s.tasks, id, action));
            JobsOk(Jobs(r.tasks)) && Core(Save(r, written))
  {
    hide JobsText, Jobs, Ordered, AfterControl;
    ControlledOk(s.tasks, s.nextId, id, action);
    var r := s.(tasks := AfterControl(s.tasks, id, action));
    assert Timed(r) by { ControlTimed(s, id, action); }
    hide Timed;
    SaveKeeps(r, written);
  }

  lemma ControlTimed(s: State, id: int, action: Action)
    requires Timed(s)
    ensures Timed(s.(tasks := AfterControl(s.tasks, id, action)))
  {
    var r := s.(tasks := AfterControl(s.tasks, id, action));
    forall k | 0 <= k < |s.tasks| ensures Spaced(r.tasks[k], r.firings[k]) { assert Spaced(s.tasks[k], s.firings[k]); }
  }

  lemma SaveKeeps(r: State, written: bool)
    requires Ordered(r.tasks, r.nextId) && Timed(r) && JobsOrdered(Jobs(r.tasks)) && JobsOrdered(r.saved)
    requires (r.file == None ==> r.saved == []) && (r.file.Some? ==> r.file == Some(JobsText(r.saved)))
    ensures Core(Save(r, written))
  {
    hide Jobs, JobsText, Ordered;
  }

  lemma LoadNothing(now: int)
    ensures Load(None, now) == Loaded([], 1) && RevivedAll([], now) == [] && NextAfter([]) == 1 && Jobs([]) == []
  {
  }

  /** A restart restores exactly what was saved last, in order. */
  lemma ReloadedRight(s: State, time: int)
    requires Filed(s)
    ensures Load(s.file, time) == Loaded(RevivedAll(s.saved, time), NextAfter(s.saved))
          && Jobs(Load(s.file, time).tasks) == s.saved
  {
    hide Load, Jobs, JobsText, RevivedAll, NextAfter;
    if s.file.None? { LoadNothing(time); } else { LoadAfterSave(s.saved, time); }
  }

  lemma RevivedOrdered(js: seq<Job>, now: int)
    requires JobsOrdered(js)
    ensures Ordered(RevivedAll(js, now), NextAfter(js))
    ensures forall i :: 0 <= i < |js| ==> Spaced(RevivedAll(js, now)[i], Loadings(|js|, now)[i])
  {
    hide NextAfter;
    var ts := RevivedAll(js, now);
    forall i | 0 <= i < |js| ensures TaskOk(ts[i]) && ts[i].id < NextAfter(js) { assert JobOk(js[i]); }
  }

  lemma RestartKeeps(s: State, time: int)
    requires Core(s)
    ensures Core(Reloaded(s, time)) && Jobs(Reloaded(s, time).tasks) == s.saved
  {
    ReloadedRight(s, time);
    RevivedOrdered(s.saved, time);
    hide Load, Jobs, JobsText, Ordered, RevivedAll, NextAfter, Spaced, JobsOrdered;
    var r := Reloaded(s, time);
    assert |r.firings| == |r.tasks| == |s.saved|;
  }

  lemma CoreKept(s: State, step: Step, time: int)
    requires Inv(s) && Enabled(s, step)
    ensures Core(Apply(s, step, time))
  {
    assert |s.firings| == |s.tasks|;
    hide Ordered, Timed, Filed, Jobs, JobsText, Load;
    var r := Act(s, step, time);
    assert Core(s);
    assert Core(r) by {
      match step
      case Visit =>
        var now, i := s.thread.now, s.thread.index;
        if Due(s.tasks[i], now) {
          FireKeeps(s, i, now, time);
          CoreOnly(FireAt(s, i, now, time), r);
        } else {
          CoreOnly(s, r);
        }
      case Add(name, shell, task, interval, written) =>
        if AddOk(s.tasks, interval) { AddKeeps(s, name, shell, task, interval, time, written); }
      case Control(id, action, written) => if !action.Unknown? { ControlKeeps(s, id, action, written); }
      case Restart => RestartKeeps(s, time);
      case _ => CoreOnly(s, r);
    }
    CoreOnly(r, Apply(s, step, time));
  }

  /** The thread and the clock play no part in it. */
  lemma CoreOnly(s: State, r: State)
    requires Core(s) && r.tasks == s.tasks && r.nextId == s.nextId && r.firings == s.firings
    requires r.file == s.file && r.saved == s.saved && r.synced == s.synced
    ensures Core(r)
  {
    hide Jobs, JobsText, Ordered;
  }

  lemma FireBehind(s: State, time: int)
    requires Inv(s) && Enabled(s, Visit) && Due(s.tasks[s.thread.index], s.thread.now)
    ensures Behind(Apply(s, Visit, time))
  {
    hide Ordered, Filed, Jobs, JobsText, Load;
    var r, i, now := Apply(s, Visit, time), s.thread.index, s.thread.now;
    if r.steady {
      var fs := s.firings[i];
      assert Spaced(s.tasks[i], fs) && Stamped(s, i) && Rested(s, i);
      assert s.tasks[i].interval > 0 by { PositiveInterval(s, i); }
      assert r.firings[i] == fs + [Firing(now, time)];
      assert fs[|fs| - 1].wall < time;
      forall j | 0 <= j < |r.firings| ensures Stamped(r, j) && Rested(r, j) {
        assert Stamped(s, j) && Rested(s, j);
        if j != i { assert r.firings[j] == s.firings[j]; }
      }
    }
  }

  lemma PositiveInterval(s: State, i: nat)
    requires Ordered(s.tasks, s.nextId) && i < |s.tasks|
    ensures s.tasks[i].interval > 0
  {
    assert TaskOk(s.tasks[i]);
  }

  /** Steps that fire nothing only move the thread and the clock, and add tasks. */
  lemma QuietBehind(s: State, step: Step, time: int)
    requires Inv(s) && Enabled(s, step) && !step.Restart?
    requires step.Visit? ==> !Due(s.tasks[s.thread.index], s.thread.now)
    ensures Behind(Apply(s, step, time))
  {
    hide Ordered, Filed, Timed, Jobs, JobsText, Load, AfterControl;
    var r := Apply(s, step, time);
    QuietRecord(s, step, time);
    if r.steady {
      forall j | 0 <= j < |r.firings| ensures Stamped(r, j) && Rested(r, j) {
        if j < |s.firings| {
          assert Stamped(s, j) && Rested(s, j) && r.firings[j] == s.firings[j];
        } else {
          assert r.firings[j] == [Firing(time, time)];
        }
      }
    }
  }

  lemma QuietRecord(s: State, step: Step, time: int)
    requires Inv(s) && Enabled(s, step) && !step.Restart?
    requires step.Visit? ==> !Due(s.tasks[s.thread.index], s.thread.now)
    ensures var r := Apply(s, step, time);
            r.firings == s.firings || (!step.Visit? && r.thread == s.thread
                && r.firings == s.firings + [[Firing(time, time)]])
  {
    hide Ordered, Filed, Timed, Behind, Jobs, JobsText, Load, AfterControl;
  }

  lemma BehindKept(s: State, step: Step, time: int)
    requires Inv(s) && Enabled(s, step)
    ensures Behind(Apply(s, step, time))
  {
    if step.Restart? {
      hide Ordered, Filed, Jobs, JobsText, Load;
    } else if step.Visit? && Due(s.tasks[s.thread.index], s.thread.now) {
      FireBehind(s, time);
    } else {
      QuietBehind(s, step, time);
    }
  }

  lemma StepKeeps(s: State, step: Step, time: int)
    requires Inv(s) && Enabled(s, step)
    ensures Inv(Apply(s, step, time))
  {
    CoreKept(s, step, time);
    BehindKept(s, step, time);
  }

  // ---- Runs ------------------------------------------------------------------------------

  datatype Event = Event(step: Step, time: int)

  /** A run from `s`, over any number of restarts. */
  function Exec(s: State, events: seq<Event>): (r: Option<State>)
    requires Inv(s)
    ensures r.Some? ==> Inv(r.value)
    decreases |events|
  {
    if events == [] then Some(s)
    else
      var e := events[0];
      if !Enabled(s, e.step) then None
      else
        StepKeeps(s, e.step, e.time);
        Exec(Apply(s, e.step, e.time), events[1..])
  }

  lemma FreshInv(clock: int)
    ensures Inv(Fresh(clock))
  {
  }

  /** A run of the program from its first start on. */
  function Run(clock: int, events: seq<Event>): (r: Option<State>)
    ensures r.Some? ==> Inv(r.value)
  {
    FreshInv(clock);
    Exec(Fresh(clock), events)
  }

  /** Over every run, whatever the clock does: the stamps of a task's firings, and of the first one
      after it was added or loaded, are at least its interval apart; ids of tasks are unique and
      below the next one; and a restart at any moment brings back exactly the active tasks in order,
      with a next id above theirs, if no save has failed since. */
  lemma SchedulerSafe(clock: int, events: seq<Event>, time: int)
    requires Run(clock, events).Some?
    ensures var s := Run(clock, events).value;
            && |s.firings| == |s.tasks|
            && (forall i, k :: 0 <= i < |s.tasks| && 0 < k < |s.firings[i]| ==>
                  s.firings[i][k].stamp - s.firings[i][k - 1].stamp >= s.tasks[i].interval)
            && (forall i, j :: 0 <= i < j < |s.tasks| ==> s.tasks[i].id != s.tasks[j].id)
            && (forall i :: 0 <= i < |s.tasks| ==> s.tasks[i].id < s.nextId)
            && (s.synced ==> Load(s.file, time) == Loaded(RevivedAll(Jobs(s.tasks), time), NextAfter(Jobs(s.tasks))))
            && (s.synced ==> Jobs(Load(s.file, time).tasks) == Jobs(s.tasks))
  {
    hide Run;
    var s := Run(clock, events).value;
    ReloadedRight(s, time);
    hide Load, Jobs, RevivedAll, NextAfter, JobsText;
    forall i | 0 <= i < |s.tasks| ensures Spaced(s.tasks[i], s.firings[i]) {}
  }
}
