/**
 How src/tools/scheduler/scheduler.c keeps its tasks in jobs.json: the active tasks as a JSON
 array, written formatted and read back at the start of the process.
 */
module SchedulerJobs {
  import opened Bytes
  import opened Options
  import opened JsonValue
  import opened JsonParse
  import opened JsonText
  import opened JsonLookup

  const MAX_TASKS: nat := 64

  datatype Task = Task(id: int, name: Text, shell: bool, task: Text, interval: int, lastRun: int, paused: bool,
      active: bool)

  /** What is kept of an active task. */
  datatype Job = Job(id: int, name: Text, shell: bool, task: Text, interval: int, paused: bool)

  const TASK: Text := [116, 97, 115, 107]
  const INTERVAL: Text := [105, 110, 116, 101, 114, 118, 97, 108, 95, 115, 101, 99]
  const PAUSED: Text := [112, 97, 117, 115, 101, 100]
  const SHELL: Text := [115, 104, 101, 108, 108]
  const AGENT_TURN: Text := [97, 103, 101, 110, 116, 95, 116, 117, 114, 110]

  function JobOf(t: Task): Job { Job(t.id, t.name, t.shell, t.task, t.interval, t.paused) }

  /** The active tasks, in order. */
  function Jobs(tasks: seq<Task>): seq<Job> {
    if tasks == [] then []
    else
      var t := tasks[|tasks| - 1];
      Jobs(tasks[..|tasks| - 1]) + if t.active then [JobOf(t)] else []
  }

  // ---- Writing ---------------------------------------------------------------------------

  function Bool(b: bool): Value { if b then True else False }

  function JobItem(j: Job): Value {
    Object([Member(ID, Number(j.id as real)), Member(NAME, Str(j.name)),
        Member(TYPE, Str(if j.shell then SHELL else AGENT_TURN)),
            Member(TASK, Str(j.task)), Member(INTERVAL, Number(j.interval as real)), Member(PAUSED, Bool(j.paused))])
  }

  function JobItems(js: seq<Job>): (items: seq<Value>)
    ensures |items| == |js| && forall i :: 0 <= i < |js| ==> items[i] == JobItem(js[i])
  {
    if js == [] then [] else JobItems(js[..|js| - 1]) + [JobItem(js[|js| - 1])]
  }

  /** C strings and positive `int`s. */
  predicate JobOk(j: Job) { NulFree(j.name) && NulFree(j.task) && 0 < j.id < INT_MAX && 0 < j.interval <= INT_MAX }

  predicate JobsOk(js: seq<Job>) { forall i :: 0 <= i < |js| ==> JobOk(js[i]) }

  predicate Flat(m: Member) { NulFree(m.key) && Printable(m.value) && Depth(m.value) == 0 }

  lemma {:induction false} FlatMembers(ms: seq<Member>)
    requires forall i :: 0 <= i < |ms| ==> Flat(ms[i])
    ensures MembersPrintable(ms) && MembersDepth(ms) == 0
  {
    if ms != [] { FlatMembers(ms[1..]); }
  }

  lemma ItemOk(j: Job)
    requires JobOk(j)
    ensures Printable(JobItem(j)) && Depth(JobItem(j)) == 1
  {
    var id, interval := Number(j.id as real), Number(j.interval as real);
    assert Printable(id) && Printable(interval) && Depth(id) == Depth(interval) == 0;
    assert Flat(Member(ID, id)) && Flat(Member(INTERVAL, interval));
    assert Flat(Member(NAME, Str(j.name))) && Flat(Member(TASK, Str(j.task)));
    assert NulFree(SHELL) && NulFree(AGENT_TURN);
    assert Flat(Member(TYPE, Str(if j.shell then SHELL else AGENT_TURN))) && Flat(Member(PAUSED, Bool(j.paused)));
    hide Flat;
    FlatMembers(JobItem(j).members);
    hide MembersPrintable, MembersDepth;
  }

  lemma {:induction false} AppendItem(vs: seq<Value>, v: Value)
    ensures ItemsPrintable(vs + [v]) <==> ItemsPrintable(vs) && Printable(v)
    ensures ItemsDepth(vs + [v]) == Max(ItemsDepth(vs), Depth(v))
  {
    if vs == [] {
      assert [v][1..] == [] && [] + [v] == [v];
    } else {
      assert (vs + [v])[1..] == vs[1..] + [v];
      AppendItem(vs[1..], v);
    }
  }

  lemma {:induction false} ItemsOk(js: seq<Job>)
    requires JobsOk(js)
    ensures ItemsPrintable(JobItems(js)) && ItemsDepth(JobItems(js)) <= 1
  {
    if js != [] {
      var j := js[|js| - 1];
      ItemsOk(js[..|js| - 1]);
      ItemOk(j);
      AppendItem(JobItems(js[..|js| - 1]), JobItem(j));
    }
  }

  function JobsText(js: seq<Job>): Text
    requires JobsOk(js)
  {
    ItemsOk(js);
    Print(Array(JobItems(js)), true)
  }

  /** The loop of `save_jobs`. */
  method CollectJobs(tasks: seq<Task>) returns (items: seq<Value>)
    ensures items == JobItems(Jobs(tasks))
  {
    items := [];
    for i := 0 to |tasks|
      invariant items == JobItems(Jobs(tasks[..i]))
    {
      assert tasks[..i + 1][..i] == tasks[..i];
      ghost var js := Jobs(tasks[..i]);
      assert js + [] == js;
      if !tasks[i].active { continue; }
      var j := JobOf(tasks[i]);
      assert (js + [j])[..|js|] == js;
      items := items + [JobItem(j)];
    }
    assert tasks[..|tasks|] == tasks;
  }

  // ---- Reading ---------------------------------------------------------------------------

  function Truncate(x: real): int { if x >= 0.0 || x == x.Floor as real then x.Floor else x.Floor + 1 }

  /** `valueint` of a parsed item. */
  function ValueInt(v: Value): int {
    match v
    case Number(x) => if x >= INT_MAX as real then INT_MAX else if x <= INT_MIN as real then INT_MIN else Truncate(x)
    case True => 1
    case _ => 0
  }

  function TextOf(v: Option<Value>): Option<Text> { if v.Some? && v.value.Str? then Some(v.value.text) else None }

  /** What one item of the file stands for; items without a name, a task or an interval
      are passed over. */
  function Revive(item: Value, nextId: int, now: int): Option<Task> {
    var name, kind, task := TextOf(GetItem(item, NAME)), TextOf(GetItem(item, TYPE)), TextOf(GetItem(item, TASK));
    var interval, id, paused := GetItem(item, INTERVAL), GetItem(item, ID), GetItem(item, PAUSED);
    if name.None? || task.None? || interval.None? then None
    else Some(Task(if id.Some? then ValueInt(id.value) else nextId, name.value, kind == Some(SHELL), task.value,
                   ValueInt(interval.value), now, paused == Some(True), true))
  }

  datatype Loaded = Loaded(tasks: seq<Task>, nextId: int)

  function Raised(nextId: int, id: int): int { if id >= nextId then id + 1 else nextId }

  function LoadItems(items: seq<Value>, l: Loaded, now: int): Loaded {
    if items == [] || |l.tasks| >= MAX_TASKS then l
    else
      match Revive(items[0], l.nextId, now)
      case None => LoadItems(items[1..], l, now)
      case Some(t) => LoadItems(items[1..], Loaded(l.tasks + [t], Raised(l.nextId, t.id)), now)
  }

  function MemberValues(members: seq<Member>): seq<Value> {
    if members == [] then [] else [members[0].value] + MemberValues(members[1..])
  }

  function Children(v: Value): seq<Value> {
    match v
    case Array(items) => items
    case Object(members) => MemberValues(members)
    case _ => []
  }

  const NOTHING: Loaded := Loaded([], 1)

  /** `load_jobs` for a new scheduler. */
  function Load(file: Option<Text>, now: int): Loaded {
    if file.None? || Parse(file.value).Fail? then NOTHING
    else LoadItems(Children(Parse(file.value).value), NOTHING, now)
  }

  /** The loop of `load_jobs`. */
  method ReadItems(items: seq<Value>, now: int) returns (l: Loaded)
    ensures l == LoadItems(items, NOTHING, now)
  {
    l := NOTHING;
    var rest := items;
    while rest != []
      invariant LoadItems(rest, l, now) == LoadItems(items, NOTHING, now)
      decreases |rest|
    {
      if |l.tasks| >= MAX_TASKS { return; }
      match Revive(rest[0], l.nextId, now) {
        case None =>
        case Some(t) => l := Loaded(l.tasks + [t], Raised(l.nextId, t.id));
      }
      rest := rest[1..];
    }
  }

  // ---- Load after save -------------------------------------------------------------------

  function Revived(j: Job, now: int): Task { Task(j.id, j.name, j.shell, j.task, j.interval, now, j.paused, true) }

  function RevivedAll(js: seq<Job>, now: int): (ts: seq<Task>)
    ensures |ts| == |js| && forall i :: 0 <= i < |js| ==> ts[i] == Revived(js[i], now)
  {
    seq(|js|, i requires 0 <= i < |js| => Revived(js[i], now))
  }

  function NextAfter(js: seq<Job>): (n: int)
    ensures n >= 1 && forall i :: 0 <= i < |js| ==> js[i].id < n
  {
    if js == [] then 1 else Raised(NextAfter(js[..|js| - 1]), js[|js| - 1].id)
  }

  lemma ItemMembers(j: Job)
    ensures var v := JobItem(j);
            && GetItem(v, ID) == Some(Number(j.id as real)) && GetItem(v, NAME) == Some(Str(j.name))
            && GetItem(v, TYPE) == Some(Str(if j.shell then SHELL else AGENT_TURN))
                && GetItem(v, TASK) == Some(Str(j.task))
            && GetItem(v, INTERVAL) == Some(Number(j.interval as real)) && GetItem(v, PAUSED) == Some(Bool(j.paused))
  {
    var ms := JobItem(j).members;
    assert ToLower(TYPE[0]) != ToLower(NAME[0]) && ToLower(TASK[0]) != ToLower(NAME[0])
        && ToLower(TASK[1]) != ToLower(TYPE[1]);
    var m1, m2, m3, m4, m5 := ms[1..], ms[1..][1..], ms[1..][1..][1..], ms[1..][1..][1..][1..],
        ms[1..][1..][1..][1..][1..];
    assert FindMember(ms, NAME) == FindMember(m1, NAME);
    assert FindMember(ms, TYPE) == FindMember(m1, TYPE) == FindMember(m2, TYPE);
    assert FindMember(ms, TASK) == FindMember(m1, TASK) == FindMember(m2, TASK) == FindMember(m3, TASK);
    assert FindMember(ms, INTERVAL) == FindMember(m1, INTERVAL) == FindMember(m2, INTERVAL) == FindMember(m3, INTERVAL)
        == FindMember(m4, INTERVAL);
    assert FindMember(ms, PAUSED) == FindMember(m1, PAUSED) == FindMember(m2, PAUSED) == FindMember(m3, PAUSED)
        == FindMember(m4, PAUSED) == FindMember(m5, PAUSED);
  }

  lemma ItemRevived(j: Job, nextId: int, now: int)
    requires JobOk(j)
    ensures Revive(JobItem(j), nextId, now) == Some(Revived(j, now))
  {
    ItemMembers(j);
    hide JobItem, GetItem;
    assert SHELL != AGENT_TURN by { assert |SHELL| != |AGENT_TURN|; }
  }

  lemma {:induction false} ItemsRevived(js: seq<Job>, k: nat, now: int)
    requires JobsOk(js) && k <= |js| <= MAX_TASKS
    ensures LoadItems(JobItems(js)[k..], Loaded(RevivedAll(js[..k], now), NextAfter(js[..k])), now)
         == Loaded(RevivedAll(js, now), NextAfter(js))
    decreases |js| - k
  {
    hide JobItem, Revive, JobItems;
    if k == |js| {
      assert js[..k] == js && JobItems(js)[k..] == [];
    } else {
      ItemRevived(js[k], NextAfter(js[..k]), now);
      assert JobItems(js)[k..][0] == JobItem(js[k]) && JobItems(js)[k..][1..] == JobItems(js)[k + 1..];
      assert js[..k + 1][..k] == js[..k];
      assert RevivedAll(js[..k], now) + [Revived(js[k], now)] == RevivedAll(js[..k + 1], now);
      ItemsRevived(js, k + 1, now);
    }
  }

  /** Loading what was saved gives exactly the saved tasks in order, due an interval from now at
      the earliest, and a next id above all of theirs. */
  lemma LoadAfterSave(js: seq<Job>, now: int)
    requires JobsOk(js) && |js| <= MAX_TASKS
    ensures Load(Some(JobsText(js)), now) == Loaded(RevivedAll(js, now), NextAfter(js))
    ensures Jobs(Load(Some(JobsText(js)), now).tasks) == js
  {
    hide JobItems, LoadItems, RevivedAll, NextAfter, Parse, Jobs, JobsText;
    JobsParsed(js);
    ItemsRevived(js, 0, now);
    assert js[..0] == [] && JobItems(js)[0..] == JobItems(js);
    assert RevivedAll([], now) == [] && NextAfter([]) == 1 by { NothingRevived(now); }
    RevivedJobs(js, now);
  }

  lemma NothingRevived(now: int)
    ensures RevivedAll([], now) == [] && NextAfter([]) == 1
  {
  }

  lemma JobsParsed(js: seq<Job>)
    requires JobsOk(js)
    ensures Parse(JobsText(js)) == Done(Array(JobItems(js)), |JobsText(js)|)
  {
    ItemsOk(js);
    hide Print, Parse, JobItems, ItemsPrintable, ItemsDepth;
    var v := Array(JobItems(js));
    assert Printable(v) && Depth(v) <= NESTING_LIMIT;
    RoundTrip(v, true);
  }

  lemma {:induction false} RevivedJobs(js: seq<Job>, now: int)
    ensures Jobs(RevivedAll(js, now)) == js
  {
    if js != [] {
      RevivedJobs(js[..|js| - 1], now);
      assert RevivedAll(js, now)[..|js| - 1] == RevivedAll(js[..|js| - 1], now);
    }
  }

  // ---- Loading any file ------------------------------------------------------------------

  /** `valueint` is the number without its fraction, held within the range of `int`. */
  lemma ValueIntRight(x: real)
    ensures var n := ValueInt(Number(x));
            && INT_MIN <= n <= INT_MAX
            && (INT_MIN as real <= x <= INT_MAX as real ==>
                  if x >= 0.0 then n as real <= x < n as real + 1.0 else n as real - 1.0 < x <= n as real)
            && (x > INT_MAX as real ==> n == INT_MAX) && (x < INT_MIN as real ==> n == INT_MIN)
  {
    assert x.Floor as real <= x < x.Floor as real + 1.0;
  }

  /** An item with a text for a name, a text for a task, and an interval. */
  predicate Usable(item: Value) {
    && (GetItem(item, NAME).Some? && GetItem(item, NAME).value.Str?)
    && (GetItem(item, TASK).Some? && GetItem(item, TASK).value.Str?) && GetItem(item, INTERVAL).Some?
  }

  /** The task that an item stands for; its id is given or next. */
  predicate ReadsAs(item: Value, t: Task, now: int) {
    && GetItem(item, NAME) == Some(Str(t.name)) && GetItem(item, TASK) == Some(Str(t.task))
    && GetItem(item, INTERVAL).Some? && t.interval == ValueInt(GetItem(item, INTERVAL).value)
    && (t.shell <==> GetItem(item, TYPE) == Some(Str(SHELL))) && (t.paused <==> GetItem(item, PAUSED) == Some(True))
    && t.active && t.lastRun == now && (GetItem(item, ID).Some? ==> t.id == ValueInt(GetItem(item, ID).value))
  }

  lemma RevivedExactly(item: Value, nextId: int, now: int)
    ensures Revive(item, nextId, now).Some? <==> Usable(item)
    ensures Revive(item, nextId, now).Some? ==>
              && ReadsAs(item, Revive(item, nextId, now).value, now)
              && (GetItem(item, ID).None? ==> Revive(item, nextId, now).value.id == nextId)
  {
    hide GetItem, ValueInt;
  }

  /** The indices of the usable items before `n`, in order. */
  function UsableBefore(items: seq<Value>, n: nat): (r: seq<nat>)
    requires n <= |items|
    ensures forall i :: 0 <= i < |r| ==> r[i] < n && Usable(items[r[i]])
    ensures forall i, j :: 0 <= i < j < |r| ==> r[i] < r[j]
    ensures forall k :: 0 <= k < n && Usable(items[k]) ==> k in r
  {
    if n == 0 then []
    else if Usable(items[n - 1]) then UsableBefore(items, n - 1) + [n - 1]
    else UsableBefore(items, n - 1)
  }

  lemma {:induction false} UsableGrows(items: seq<Value>, n: nat, m: nat)
    requires n <= m <= |items|
    ensures UsableBefore(items, n) <= UsableBefore(items, m)
    decreases m
  {
    if n < m { UsableGrows(items, n, m - 1); }
  }

  /** The tasks stand for the first of the listed items, as many as there is room for; ids stay below the
      next one, and one that is not given is above all before it. */
  predicate TasksFrom(items: seq<Value>, listed: seq<nat>, l: Loaded, now: int) {
    && |l.tasks| == (if |listed| < MAX_TASKS then |listed| else MAX_TASKS)
    && (forall i :: 0 <= i < |listed| ==> listed[i] < |items|)
    && (forall i :: 0 <= i < |l.tasks| ==> ReadsAs(items[listed[i]], l.tasks[i], now) && l.tasks[i].id < l.nextId)
    && (forall i, j :: 0 <= i < j < |l.tasks| && GetItem(items[listed[j]], ID).None? ==> l.tasks[i].id < l.tasks[j].id)
  }

  lemma OneLoaded(items: seq<Value>, listed: seq<nat>, l: Loaded, now: int, k: nat, t: Task)
    requires TasksFrom(items, listed, l, now) && |l.tasks| < MAX_TASKS && k < |items| && ReadsAs(items[k], t, now)
    requires GetItem(items[k], ID).None? ==> t.id == l.nextId
    ensures TasksFrom(items, listed + [k], Loaded(l.tasks + [t], Raised(l.nextId, t.id)), now)
  {
    hide ReadsAs, GetItem;
  }

  lemma FullStays(items: seq<Value>, listed: seq<nat>, more: seq<nat>, l: Loaded, now: int)
    requires TasksFrom(items, listed, l, now) && |l.tasks| >= MAX_TASKS && listed <= more
    requires forall i :: 0 <= i < |more| ==> more[i] < |items|
    ensures TasksFrom(items, more, l, now)
  {
    hide ReadsAs, GetItem;
    assert forall i :: 0 <= i < |listed| ==> more[i] == listed[i];
  }

  lemma {:induction false} LoadedFrom(items: seq<Value>, k: nat, l: Loaded, now: int)
    requires k <= |items| && TasksFrom(items, UsableBefore(items, k), l, now)
    ensures TasksFrom(items, UsableBefore(items, |items|), LoadItems(items[k..], l, now), now)
    decreases |items| - k
  {
    hide Usable, Revive, ReadsAs, GetItem, TasksFrom;
    if k == |items| {
      assert items[k..] == [];
    } else if |l.tasks| >= MAX_TASKS {
      UsableGrows(items, k, |items|);
      FullStays(items, UsableBefore(items, k), UsableBefore(items, |items|), l, now);
    } else {
      assert UsableBefore(items, k + 1) == UsableBefore(items, k) + if Usable(items[k]) then [k] else [];
      assert UsableBefore(items, k) + [] == UsableBefore(items, k);
      hide UsableBefore;
      assert items[k..][0] == items[k] && items[k..][1..] == items[k + 1..];
      RevivedExactly(items[k], l.nextId, now);
      match Revive(items[k], l.nextId, now)
      case None => LoadedFrom(items, k + 1, l, now);
      case Some(t) =>
        OneLoaded(items, UsableBefore(items, k), l, now, k, t);
        LoadedFrom(items, k + 1, Loaded(l.tasks + [t], Raised(l.nextId, t.id)), now);
    }
  }

  /** Whoever wrote the file: if it parses, the usable ones of its items become tasks, in order, as many as
      the table has room for; otherwise there are none. */
  lemma LoadExactly(file: Option<Text>, now: int)
    ensures if file.Some? && Parse(file.value).Done? then
              var items := Children(Parse(file.value).value);
              TasksFrom(items, UsableBefore(items, |items|), Load(file, now), now)
            else Load(file, now) == Loaded([], 1)
  {
    hide Parse, TasksFrom, LoadItems, Children;
    if file.Some? && Parse(file.value).Done? {
      var items := Children(Parse(file.value).value);
      assert items[0..] == items;
      NoTasks(items, now);
      LoadedFrom(items, 0, NOTHING, now);
    }
  }

  lemma NoTasks(items: seq<Value>, now: int)
    ensures TasksFrom(items, [], NOTHING, now)
  {
  }
}
