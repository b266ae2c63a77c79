/**
 What the users of the scheduler see: a ledger of jobs that is kept from the calls of the tools alone.
 The table of tasks, the file and the restarts of the process are behind it, and a task fires only while
 its job stands in the ledger and is not paused.
 */
module SchedulerLedger {
  import opened SchedulerJobs
  import opened Scheduler
  import SchedulerClock

  /** The jobs, those that were written last, how many places of the table are taken since the process
      started, and the id that the next job gets. */
  datatype Ledger = Ledger(jobs: seq<Job>, written: seq<Job>, places: nat, nextId: int)

  const EMPTY: Ledger := Ledger([], [], 0, 1)

  predicate Listed(jobs: seq<Job>, id: int) { exists j :: j in jobs && j.id == id }

  /** What a call of the control tool makes of one job. */
  function ActedOne(j: Job, id: int, action: Action): seq<Job> {
    if j.id != id then [j]
    else
      match action
      case Pause => [Job(j.id, j.name, j.shell, j.task, j.interval, true)]
      case Resume => [Job(j.id, j.name, j.shell, j.task, j.interval, false)]
      case Delete => []
      case Unknown => [j]
  }

  function Acted(jobs: seq<Job>, id: int, action: Action): seq<Job> {
    if jobs == [] then [] else Acted(jobs[..|jobs| - 1], id, action) + ActedOne(jobs[|jobs| - 1], id, action)
  }

  /** New jobs in the ledger, which reach the file if that can be written. */
  function Entered(l: Ledger, jobs: seq<Job>, written: bool): Ledger {
    l.(jobs := jobs, written := if written then jobs else l.written)
  }

  function Noted(l: Ledger, step: Step): Ledger {
    match step
    case Add(name, shell, task, interval, written) =>
      if interval <= 0 || l.places >= MAX_TASKS then l
      else Entered(l, l.jobs + [Job(l.nextId, name, shell, task, interval, false)], written).
             (places := l.places + 1, nextId := l.nextId + 1)
    case Control(id, action, written) =>
      if action.Unknown? || !Listed(l.jobs, id) then l else Entered(l, Acted(l.jobs, id, action), written)
    case Restart =>
      Ledger(l.written, l.written, |l.written|, if l.written == [] then 1 else l.written[|l.written| - 1].id + 1)
    case _ => l
  }

  function LedgerOf(l: Ledger, events: seq<Event>): Ledger
    decreases |events|
  {
    if events == [] then l else LedgerOf(Noted(l, events[0].step), events[1..])
  }

  // ---- The table behind the ledger -------------------------------------------------------

  predicate Agrees(s: State, l: Ledger) {
    Jobs(s.tasks) == l.jobs && s.saved == l.written && |s.tasks| == l.places && s.nextId == l.nextId
  }

  /** The jobs are those of the active tasks. */
  lemma {:induction false} JobOfActive(tasks: seq<Task>, i: nat)
    requires i < |tasks| && tasks[i].active
    ensures JobOf(tasks[i]) in Jobs(tasks)
  {
    var n := |tasks| - 1;
    if i < n { JobOfActive(tasks[..n], i); }
  }

  lemma {:induction false} ActiveOfJob(tasks: seq<Task>, j: Job) returns (i: nat)
    requires j in Jobs(tasks)
    ensures i < |tasks| && tasks[i].active && JobOf(tasks[i]) == j
  {
    var n := |tasks| - 1;
    if tasks[n].active && JobOf(tasks[n]) == j { i := n; } else { i := ActiveOfJob(tasks[..n], j); }
  }

  lemma ListedExactly(tasks: seq<Task>, id: int)
    ensures Listed(Jobs(tasks), id) <==> Lookup(tasks, id) < |tasks|
  {
    var i := Lookup(tasks, id);
    if i < |tasks| { JobOfActive(tasks, i); }
    if Listed(Jobs(tasks), id) {
      var j :| j in Jobs(tasks) && j.id == id;
      var k := ActiveOfJob(tasks, j);
    }
  }

  function OneJob(t: Task): seq<Job> { if t.active then [JobOf(t)] else [] }

  lemma JobsAppend(tasks: seq<Task>, t: Task)
    ensures Jobs(tasks + [t]) == Jobs(tasks) + OneJob(t)
  {
    assert (tasks + [t])[..|tasks|] == tasks;
  }

  lemma ActedAppend(jobs: seq<Job>, t: Task, id: int, action: Action)
    ensures Acted(jobs + OneJob(t), id, action)
         == Acted(jobs, id, action) + if t.active then ActedOne(JobOf(t), id, action) else []
  {
    if t.active {
      assert (jobs + OneJob(t))[..|jobs|] == jobs;
    } else {
      assert jobs + OneJob(t) == jobs;
    }
  }

  lemma ActedOnTask(t: Task, id: int, action: Action)
    requires t.active
    ensures t.id == id ==> ActedOne(JobOf(t), id, action) == OneJob(Controlled(t, action))
    ensures t.id != id ==> ActedOne(JobOf(t), id, action) == OneJob(t)
  {
  }

  lemma {:induction false} ActedAbsent(jobs: seq<Job>, id: int, action: Action)
    requires forall i :: 0 <= i < |jobs| ==> jobs[i].id != id
    ensures Acted(jobs, id, action) == jobs
  {
    if jobs != [] {
      var most, j := jobs[..|jobs| - 1], jobs[|jobs| - 1];
      assert jobs == most + [j];
      ActedAbsent(most, id, action);
      assert ActedOne(j, id, action) == [j];
      assert Acted(jobs, id, action) == Acted(most, id, action) + ActedOne(j, id, action);
      hide *;
    }
  }

  lemma OrderedPrefix(tasks: seq<Task>, nextId: int, i: nat)
    requires Ordered(tasks, nextId) && i < |tasks|
    ensures Ordered(tasks[..|tasks| - 1], tasks[|tasks| - 1].id)
    ensures i < |tasks| - 1 ==> tasks[i].id != tasks[|tasks| - 1].id
  {
  }

  /** The task that is controlled is the last one, or an earlier one. */
  lemma LastControlled(most: seq<Task>, t: Task, action: Action)
    requires t.active && forall i :: 0 <= i < |Jobs(most)| ==> Jobs(most)[i].id != t.id
    ensures Jobs(most + [Controlled(t, action)]) == Acted(Jobs(most + [t]), t.id, action)
  {
    hide Jobs, Acted, ActedOne, Controlled, OneJob;
    JobsAppend(most, t);
    JobsAppend(most, Controlled(t, action));
    ActedAppend(Jobs(most), t, t.id, action);
    ActedAbsent(Jobs(most), t.id, action);
    ActedOnTask(t, t.id, action);
  }

  lemma EarlierControlled(most: seq<Task>, after: seq<Task>, t: Task, id: int, action: Action)
    requires t.id != id && Jobs(after) == Acted(Jobs(most), id, action)
    ensures Jobs(after + [t]) == Acted(Jobs(most + [t]), id, action)
  {
    hide Jobs, Acted, ActedOne, OneJob;
    JobsAppend(most, t);
    JobsAppend(after, t);
    ActedAppend(Jobs(most), t, id, action);
    if t.active { ActedOnTask(t, id, action); } else { NoJob(t); }
  }

  lemma NoJob(t: Task)
    requires !t.active
    ensures OneJob(t) == []
  {
  }

  lemma {:induction false} ControlledJobs(tasks: seq<Task>, nextId: int, i: nat, action: Action)
    requires Ordered(tasks, nextId) && i < |tasks| && tasks[i].active
    ensures Jobs(tasks[i := Controlled(tasks[i], action)]) == Acted(Jobs(tasks), tasks[i].id, action)
  {
    var n, id := |tasks| - 1, tasks[i].id;
    var r, t, most := tasks[i := Controlled(tasks[i], action)], tasks[n], tasks[..n];
    OrderedPrefix(tasks, nextId, i);
    hide Ordered, Jobs, Acted, Controlled, JobsOrdered;
    assert tasks == most + [t];
    if i == n {
      OrderedJobs(most, t.id);
      assert r == most + [Controlled(t, action)];
      LastControlled(most, t, action);
    } else {
      var after := most[i := Controlled(most[i], action)];
      assert r == after + [t];
      ControlledJobs(most, t.id, i, action);
      EarlierControlled(most, after, t, id, action);
    }
  }

  lemma NextIsAbove(js: seq<Job>)
    requires JobsOrdered(js)
    ensures NextAfter(js) == if js == [] then 1 else js[|js| - 1].id + 1
  {
    if js != [] {
      assert JobOk(js[|js| - 1]);
      NextIsAboveLast(js[..|js| - 1], js[|js| - 1]);
    }
  }

  lemma {:induction false} NextIsAboveLast(js: seq<Job>, j: Job)
    requires 0 < j.id && forall i :: 0 <= i < |js| ==> js[i].id < j.id
    ensures NextAfter(js) <= j.id
  {
    if js != [] { NextIsAboveLast(js[..|js| - 1], j); }
  }

  lemma AddAgrees(s: State, l: Ledger, step: Step, time: int)
    requires Inv(s) && Enabled(s, step) && Agrees(s, l) && step.Add?
    ensures Agrees(Apply(s, step, time), Noted(l, step))
  {
    hide Jobs, JobsText, Load, Behind, Filed, Timed, Ordered;
    if AddOk(s.tasks, step.interval) {
      var t := Task(s.nextId, step.name, step.shell, step.task, step.interval, time, false, true);
      JobsAppend(s.tasks, t);
      assert JobOf(t) == Job(s.nextId, step.name, step.shell, step.task, step.interval, false);
      assert Apply(s, step, time).tasks == s.tasks + [t];
    }
  }

  lemma ControlAgrees(s: State, l: Ledger, step: Step, time: int)
    requires Inv(s) && Enabled(s, step) && Agrees(s, l) && step.Control?
    ensures Agrees(Apply(s, step, time), Noted(l, step))
  {
    hide Jobs, JobsText, Load, Behind, Filed, Timed, Ordered, Acted, Listed, Controlled;
    var i := Lookup(s.tasks, step.id);
    ListedExactly(s.tasks, step.id);
    if i < |s.tasks| { ControlledJobs(s.tasks, s.nextId, i, step.action); }
  }

  lemma RestartAgrees(s: State, l: Ledger, time: int)
    requires Inv(s) && Agrees(s, l)
    ensures Agrees(Apply(s, Restart, time), Noted(l, Restart))
  {
    ReloadedRight(s, time);
    NextIsAbove(s.saved);
    hide Jobs, JobsText, Load, Behind, Timed, Ordered, NextAfter;
  }

  lemma StepAgrees(s: State, l: Ledger, step: Step, time: int)
    requires Inv(s) && Enabled(s, step) && Agrees(s, l)
    ensures Agrees(Apply(s, step, time), Noted(l, step))
  {
    if step.Add? {
      AddAgrees(s, l, step, time);
    } else if step.Control? {
      ControlAgrees(s, l, step, time);
    } else if step.Restart? {
      RestartAgrees(s, l, time);
    } else {
      if step.Visit? { FiredJobs(s.tasks, s.thread.index, s.thread.now); }
      hide Jobs, JobsText, Load, Behind, Filed, Timed, Ordered;
    }
  }

  lemma {:induction false} RunAgrees(s: State, l: Ledger, events: seq<Event>)
    requires Inv(s) && Agrees(s, l) && Exec(s, events).Some?
    ensures Agrees(Exec(s, events).value, LedgerOf(l, events))
    decreases |events|
  {
    hide Agrees, Apply, Enabled, Noted, Inv;
    if events != [] {
      StepAgrees(s, l, events[0].step, events[0].time);
      StepKeeps(s, events[0].step, events[0].time);
      RunAgrees(Apply(s, events[0].step, events[0].time), Noted(l, events[0].step), events[1..]);
    }
  }

  /** Over every run, restarts and failed writes included: the active tasks and what the file holds are
      exactly the jobs of the ledger, in order, under the same ids. */
  lemma TableIsLedger(clock: int, events: seq<Event>)
    requires Run(clock, events).Some?
    ensures Agrees(Run(clock, events).value, LedgerOf(EMPTY, events))
  {
    FreshInv(clock);
    hide Inv, Exec;
    RunAgrees(Fresh(clock), EMPTY, events);
  }

  /** The job of the task stands in the ledger, is not paused, and its interval has passed since the stamp
      of the last firing. */
  ghost predicate Calls(l: Ledger, s: State, i: nat)
    requires i < |s.tasks| && i < |s.firings| && s.firings[i] != [] && s.thread.At?
  {
    exists j :: && j in l.jobs && j.id == s.tasks[i].id && !j.paused
                && s.thread.now - s.firings[i][|s.firings[i]| - 1].stamp >= j.interval
  }

  lemma DueExactly(s: State, l: Ledger, i: nat)
    requires Inv(s) && Agrees(s, l) && i < |s.tasks| && s.thread.At?
    ensures i < |s.firings| && s.firings[i] != [] && (Due(s.tasks[i], s.thread.now) <==> Calls(l, s, i))
  {
    hide Jobs, JobsText, Load, Behind, Filed;
    var t := s.tasks[i];
    assert Spaced(t, s.firings[i]);
    if Due(t, s.thread.now) {
      JobOfActive(s.tasks, i);
      assert JobOf(t) in l.jobs && JobOf(t).id == t.id;
    }
    if Calls(l, s, i) {
      var j :| j in l.jobs && j.id == t.id && !j.paused
               && s.thread.now - s.firings[i][|s.firings[i]| - 1].stamp >= j.interval;
      var k := ActiveOfJob(s.tasks, j);
      assert k == i;
    }
  }

  lemma LockDropped(s: State, time: int)
    requires Inv(s) && Enabled(s, Visit)
    ensures var t := s.tasks[s.thread.index];
            LockFree(Apply(s, Visit, time)) <==> Due(t, s.thread.now) && !t.shell
  {
    hide Ordered, Filed, Behind, Jobs, JobsText, Load;
  }

  /** After every run: the thread fires the task that it visits exactly when the ledger calls for it, and
      no other step of thread or tools fires any task. So a task that was paused or deleted is silent
      until it is resumed, whatever happened in between. The lock is dropped after a visit exactly when a
      message is to be injected. */
  lemma FiresExactly(clock: int, events: seq<Event>, step: Step, time: int, i: nat)
    requires Run(clock, events).Some? && Enabled(Run(clock, events).value, step) && !step.Restart?
    requires i < |Run(clock, events).value.tasks|
    ensures var s, l := Run(clock, events).value, LedgerOf(EMPTY, events);
            var r := Apply(s, step, time);
            && i < |s.firings| && i < |r.firings| && s.firings[i] != []
            && r.firings[i] == (if step.Visit? && s.thread.index == i && Calls(l, s, i)
                                then s.firings[i] + [Firing(s.thread.now, time)] else s.firings[i])
            && (step.Visit? && s.thread.index == i ==> (LockFree(r) <==> Calls(l, s, i) && !s.tasks[i].shell))
  {
    TableIsLedger(clock, events);
    hide Run, LedgerOf;
    var s, l := Run(clock, events).value, LedgerOf(EMPTY, events);
    assert Spaced(s.tasks[i], s.firings[i]);
    hide Inv, Agrees, Calls, Due;
    if step.Visit? { LockDropped(s, time); }
    hide Apply;
    if step.Visit? { DueExactly(s, l, i); }
    SchedulerClock.TaskEffect(s, step, time, i);
  }
}
