/**
 The sub-agent pool of src/tools/subagent/subagent.c: eight slots shared by the threads that spawn
 and query sub-agents, by the worker threads, and by one detached watchdog per sub-agent. Each
 critical section of the pool's lock is a step.
 */
module SubagentPool {
  import opened Bytes
  import opened Options

  const MAX_SLOTS: nat := 8
  const RESULT_CAP: nat := 65536

  /** "[Error", "[Dobby:", "[Subagent timed out]" and "(no result)". */
  const ERROR_MARK: Text := [91, 69, 114, 114, 111, 114]
  const DOBBY_MARK: Text := [91, 68, 111, 98, 98, 121, 58]
  const TIMEOUT_TEXT: Text := [91, 83, 117, 98, 97, 103, 101, 110, 116, 32, 116, 105, 109, 101, 100, 32, 111, 117, 116,
      93]
  const NO_RESULT: Text := [40, 110, 111, 32, 114, 101, 115, 117, 108, 116, 41]
  /** A newline and "...[truncated at 65536 bytes]". */
  const TRUNCATED: Text := [10, 46, 46, 46, 91, 116, 114, 117, 110, 99, 97, 116, 101, 100, 32, 97, 116, 32, 54, 53, 53,
      51, 54, 32, 98, 121, 116, 101, 115, 93]

  datatype SlotState = Idle | Running | Finished | Failed | TimedOut

  datatype Slot = Slot(id: int, state: SlotState, result: Option<Text>, finishedAt: int, threadValid: bool)

  const FREE: Slot := Slot(0, Idle, None, 0, false)

  function FreeSlots(): seq<Slot> { [FREE, FREE, FREE, FREE, FREE, FREE, FREE, FREE] }

  predicate Completed(s: Slot) { s.state.Finished? || s.state.Failed? || s.state.TimedOut? }

  /** `slot_reset`, which leaves the id in place. */
  function Reset(s: Slot): Slot { s.(state := Idle, result := None, threadValid := false) }

  // ---- Choosing and finding slots --------------------------------------------------------

  /** What `alloc_slot` chooses: the first idle slot; failing that, of the completed slots with a
      finishing time up to now, the first of the oldest; failing that, none. */
  predicate Chosen(slots: seq<Slot>, now: int, r: int) {
    if exists i :: 0 <= i < |slots| && slots[i].state.Idle? then
      0 <= r < |slots| && slots[r].state.Idle? && forall i :: 0 <= i < r ==> !slots[i].state.Idle?
    else if r == -1 then
      forall i :: 0 <= i < |slots| ==> Completed(slots[i]) ==> slots[i].finishedAt > now
    else
      0 <= r < |slots| && Completed(slots[r]) && slots[r].finishedAt <= now
      && forall i :: 0 <= i < |slots| && Completed(slots[i]) ==>
           slots[r].finishedAt <= slots[i].finishedAt && (i < r ==> slots[r].finishedAt < slots[i].finishedAt)
  }

  /** A running slot is never chosen. */
  lemma ChosenNotRunning(slots: seq<Slot>, now: int, r: int)
    requires Chosen(slots, now, r) && r != -1
    ensures 0 <= r < |slots| && !slots[r].state.Running?
  {
  }

  /** The choice is unique, so the two loops of `alloc_slot` compute exactly this. */
  lemma ChosenUnique(slots: seq<Slot>, now: int, r: int, q: int)
    requires Chosen(slots, now, r) && Chosen(slots, now, q)
    ensures r == q
  {
    if exists i :: 0 <= i < |slots| && slots[i].state.Idle? {
    }
  }

  method AllocSlot(slots: seq<Slot>, now: int) returns (r: int)
    ensures Chosen(slots, now, r)
  {
    for i := 0 to |slots|
      invariant forall j :: 0 <= j < i ==> !slots[j].state.Idle?
    {
      if slots[i].state.Idle? { return i; }
    }
    r := -1;
    var best := now + 1;
    for i := 0 to |slots|
      invariant -1 <= r < i
      invariant r == -1 ==> best == now + 1
      invariant r >= 0 ==> Completed(slots[r]) && slots[r].finishedAt == best <= now
      invariant forall j :: 0 <= j < i && Completed(slots[j]) ==>
                  best <= slots[j].finishedAt && (j < r ==> best < slots[j].finishedAt)
    {
      if Completed(slots[i]) && slots[i].finishedAt < best {
        best, r := slots[i].finishedAt, i;
      }
    }
  }

  /** The index of the first slot that belongs to `id` and is not idle, or the number of slots. */
  function Lookup(slots: seq<Slot>, id: int): (r: nat)
    ensures r <= |slots|
    ensures r < |slots| ==> slots[r].id == id && !slots[r].state.Idle?
    ensures forall i :: 0 <= i < r ==> slots[i].id != id || slots[i].state.Idle?
  {
    if slots == [] then 0
    else if slots[0].id == id && !slots[0].state.Idle? then 0
    else
      var r := Lookup(slots[1..], id);
      assert forall i :: 0 <= i < r ==> slots[i + 1] == slots[1..][i];
      1 + r
  }

  /** What `tool_status` shows for an id: nothing, or the state and, unless the sub-agent is still
      running, the result. */
  datatype Status = NotFound | Status(state: SlotState, result: Option<Text>)

  function StatusOf(slots: seq<Slot>, id: int): Status {
    var i := Lookup(slots, id);
    if i == |slots| then NotFound
    else if slots[i].state.Running? then Status(Running, None)
    else Status(slots[i].state, slots[i].result)
  }

  method ToolStatus(slots: seq<Slot>, id: int) returns (status: Status)
    ensures status == StatusOf(slots, id)
  {
    for i := 0 to |slots|
      invariant forall j :: 0 <= j < i ==> slots[j].id != id || slots[j].state.Idle?
    {
      if slots[i].id != id || slots[i].state.Idle? { continue; }
      if slots[i].state.Running? { return Status(Running, None); }
      return Status(slots[i].state, slots[i].result);
    }
    return NotFound;
  }

  /** The slot that a watchdog for `id` may time out, or the number of slots. */
  predicate Watched(slots: seq<Slot>, id: int, r: int) {
    && 0 <= r <= |slots|
    && (r < |slots| ==> slots[r].id == id && slots[r].state.Running? && slots[r].threadValid)
    && forall i :: 0 <= i < r ==> !(slots[i].id == id && slots[i].state.Running? && slots[i].threadValid)
  }

  method WatchdogScan(slots: seq<Slot>, id: int) returns (r: int)
    ensures Watched(slots, id, r)
  {
    for i := 0 to |slots|
      invariant forall j :: 0 <= j < i ==> !(slots[j].id == id && slots[j].state.Running? && slots[j].threadValid)
    {
      if slots[i].id == id && slots[i].state.Running? && slots[i].threadValid { return i; }
    }
    return |slots|;
  }

  // ---- The critical sections as changes of the slots ------------------------------------

  /** `slot_set_result` */
  function Stored(response: Option<Text>): Text {
    if response.None? then NO_RESULT
    else if |response.value| > RESULT_CAP then response.value[..RESULT_CAP] + TRUNCATED
    else response.value
  }

  /** How `worker_fn` classifies the text that `agent_chat` returned. */
  function Outcome(response: Option<Text>): (state: SlotState)
    ensures state.Finished? || state.Failed?
  {
    if response.Some? && (ERROR_MARK <= response.value || DOBBY_MARK <= response.value) then Failed else Finished
  }

  function Occupied(slots: seq<Slot>, index: nat, id: int): seq<Slot>
    requires index < |slots|
  {
    slots[index := Reset(slots[index]).(id := id, state := Running, threadValid := true)]
  }

  /** After creating the agent or the thread failed: the id is used up, the slot idle. */
  function Vacated(slots: seq<Slot>, index: nat, id: int): seq<Slot>
    requires index < |slots|
  {
    slots[index := Reset(slots[index]).(id := id)]
  }

  /** The worker writes through its slot pointer without looking at the slot's id. */
  function Reported(slots: seq<Slot>, index: nat, response: Option<Text>, now: int): seq<Slot>
    requires index < |slots|
  {
    slots[index := slots[index].(state := Outcome(response), result := Some(Stored(response)), finishedAt := now)]
  }

  function Expired(slots: seq<Slot>, index: nat, now: int): seq<Slot>
    requires index <= |slots|
  {
    if index == |slots| then slots
    else slots[index := slots[index].(state := TimedOut, result := Some(TIMEOUT_TEXT), finishedAt := now)]
  }

  class Pool {
    const slots: array<Slot>
    var nextId: int

    ghost predicate Valid() reads this, slots { slots.Length == MAX_SLOTS }

    constructor ()
      ensures Valid() && fresh(slots) && nextId == 1
      ensures slots[..] == FreeSlots()
    {
      slots := new Slot[MAX_SLOTS](_ => FREE);
      nextId := 1;
    }

    /** `tool_spawn` up to the release of the lock; a thread that has to be joined is taken to be
        gone when this returns. */
    method Spawn(now: int, agentMade: bool, threadMade: bool) returns (index: int, id: int)
      requires Valid()
      modifies this`nextId, slots
      ensures Valid() && Chosen(old(slots[..]), now, index)
      ensures index == -1 ==> slots[..] == old(slots[..]) && nextId == old(nextId)
      ensures index != -1 ==> 0 <= index < |old(slots[..])| && nextId == old(nextId) + 1
      ensures index != -1 && agentMade && threadMade ==>
                id == old(nextId) && slots[..] == Occupied(old(slots[..]), index, id)
      ensures index != -1 && !(agentMade && threadMade) ==> slots[..] == Vacated(old(slots[..]), index, old(nextId))
    {
      index := AllocSlot(slots[..], now);
      id := 0;
      if index < 0 { return; }
      if !slots[index].state.Idle? { slots[index] := Reset(slots[index]); }
      var newId := nextId;
      nextId := nextId + 1;
      slots[index] := slots[index].(id := newId, state := Running, result := None, threadValid := false);
      if !agentMade || !threadMade {
        slots[index] := Reset(slots[index]);
        return;
      }
      slots[index] := slots[index].(threadValid := true);
      id := newId;
    }

    /** The critical section at the end of `worker_fn`. */
    method Report(index: nat, response: Option<Text>, now: int)
      requires Valid() && index < slots.Length
      modifies slots
      ensures slots[..] == Reported(old(slots[..]), index, response, now)
    {
      slots[index] := slots[index].(finishedAt := now);
      slots[index] := slots[index].(state := Outcome(response));
      slots[index] := slots[index].(result := Some(Stored(response)));
    }

    /** The critical section of `watchdog_fn`. */
    method Expire(id: int, now: int) returns (index: int)
      requires Valid()
      modifies slots
      ensures Watched(old(slots[..]), id, index) && slots[..] == Expired(old(slots[..]), index, now)
    {
      index := WatchdogScan(slots[..], id);
      if index < slots.Length {
        slots[index] := slots[index].(state := TimedOut, result := Some(TIMEOUT_TEXT), finishedAt := now);
      }
    }
  }

  // ---- The machine -----------------------------------------------------------------------

  /** A worker thread, named by the id of its sub-agent: inside `agent_chat` with a pointer to its
      slot, past its critical section, or terminated. */
  datatype Thread = Alive(slot: nat) | Ending | Gone

  /** `replies` records what each worker reported, `expired` whom a watchdog cancelled. */
  datatype World = World(
    slots: seq<Slot>,
    nextId: int,
    threads: map<int, Thread>,
    watchdogs: set<int>,
    expired: set<int>,
    replies: map<int, Option<Text>>,
    spawned: seq<int>)

  const FRESH: World := World(FreeSlots(), 1, map[], {}, {}, map[], [])

  datatype Step =
    | Spawn(now: int, index: int, watchdog: bool)
    | SpawnFails(now: int, index: int)
    | Finish(id: int, response: Option<Text>, now: int)
    | Cancelled(id: int)
    | Exit(id: int)
    | Watchdog(id: int, index: int, now: int)

  /** `pthread_join` on the thread of an evicted slot returns only once that thread is gone. */
  predicate Joined(w: World, index: int)
    requires 0 <= index < |w.slots|
  {
    w.slots[index].threadValid ==> w.slots[index].id in w.threads && w.threads[w.slots[index].id].Gone?
  }

  predicate Enabled(w: World, step: Step) {
    match step
    case Spawn(now, index, _) => Chosen(w.slots, now, index) && 0 <= index < |w.slots| && Joined(w, index)
    case SpawnFails(now, index) => Chosen(w.slots, now, index) && 0 <= index < |w.slots| && Joined(w, index)
    case Finish(id, _, _) => id in w.threads && w.threads[id].Alive? && w.threads[id].slot < |w.slots|
    case Cancelled(id) => id in w.expired && id in w.threads && !w.threads[id].Gone?
    case Exit(id) => id in w.threads && w.threads[id].Ending?
    case Watchdog(id, index, _) => id in w.watchdogs && Watched(w.slots, id, index)
  }

  function Apply(w: World, step: Step): World
    requires Enabled(w, step)
  {
    match step
    case Spawn(now, index, watchdog) =>
      w.(slots := Occupied(w.slots, index, w.nextId), nextId := w.nextId + 1,
         threads := w.threads[w.nextId := Alive(index)],
         watchdogs := if watchdog then w.watchdogs + {w.nextId} else w.watchdogs, spawned := w.spawned + [w.nextId])
    case SpawnFails(now, index) => w.(slots := Vacated(w.slots, index, w.nextId), nextId := w.nextId + 1)
    case Finish(id, response, now) =>
      w.(slots := Reported(w.slots, w.threads[id].slot, response, now), threads := w.threads[id := Ending],
         replies := w.replies[id := response])
    case Cancelled(id) => w.(threads := w.threads[id := Gone])
    case Exit(id) => w.(threads := w.threads[id := Gone])
    case Watchdog(id, index, now) =>
      w.(watchdogs := w.watchdogs - {id}, slots := Expired(w.slots, index, now),
         expired := if index < |w.slots| then w.expired + {id} else w.expired)
  }

  // ---- What every step keeps -------------------------------------------------------------

  ghost predicate SlotRight(w: World, k: nat)
    requires k < |w.slots|
  {
    var s := w.slots[k];
    && 0 <= s.id < w.nextId
    && (s.state.Idle? ==> !s.threadValid)
    && (!s.state.Idle? ==> s.threadValid && s.id in w.threads)
    && (s.state.Running? ==> w.threads[s.id] == Alive(k) && s.id !in w.replies && s.id !in w.expired)
    && (Completed(s) && s.id in w.replies ==>
          s.state == Outcome(w.replies[s.id]) && s.result == Some(Stored(w.replies[s.id])))
    && (Completed(s) && s.id !in w.replies ==>
          s.state == TimedOut && s.result == Some(TIMEOUT_TEXT) && s.id in w.expired)
  }

  /** A worker that still holds its slot pointer owns that slot. */
  ghost predicate ThreadRight(w: World, id: int)
    requires id in w.threads
  {
    && 0 < id < w.nextId
    && match w.threads[id]
       case Alive(k) => id !in w.replies && k < |w.slots| && w.slots[k].id == id && !w.slots[k].state.Idle?
       case Ending => id in w.replies
       case Gone => id in w.replies || id in w.expired
  }

  ghost predicate Inv(w: World) {
    && |w.slots| == MAX_SLOTS && w.nextId > 0
    && (forall k :: 0 <= k < |w.slots| ==> SlotRight(w, k))
    && (forall j, k :: 0 <= j < k < |w.slots| && w.slots[j].id == w.slots[k].id ==> w.slots[j].id == 0)
    && (forall id :: id in w.threads ==> ThreadRight(w, id))
    && (forall id :: id in w.replies || id in w.expired ==> id in w.threads)
    && (forall i :: 0 <= i < |w.spawned| ==> w.spawned[i] in w.threads)
    && (forall i, j :: 0 <= i < j < |w.spawned| ==> w.spawned[i] < w.spawned[j])
  }

  lemma SlotsKept(w: World, step: Step)
    requires Inv(w) && Enabled(w, step)
    ensures var r := Apply(w, step); forall k :: 0 <= k < |r.slots| ==> SlotRight(r, k)
  {
    hide Chosen, Stored, Outcome;
    var r := Apply(w, step);
    forall k | 0 <= k < |r.slots| ensures SlotRight(r, k) {
      assert SlotRight(w, k);
    }
  }

  lemma ThreadsKept(w: World, step: Step)
    requires Inv(w) && Enabled(w, step)
    ensures var r := Apply(w, step); forall id :: id in r.threads ==> ThreadRight(r, id)
  {
    hide Stored, Outcome;
    var r := Apply(w, step);
    assert w.nextId !in w.threads by { assert w.nextId in w.threads ==> ThreadRight(w, w.nextId); }
    if step.Spawn? || step.SpawnFails? { assert SlotRight(w, step.index); }
    forall id | id in r.threads ensures ThreadRight(r, id) {
      if id in w.threads {
        assert ThreadRight(w, id);
        if w.threads[id].Alive? { assert SlotRight(w, w.threads[id].slot); }
      }
    }
  }

  lemma IdsKept(w: World, step: Step)
    requires Inv(w) && Enabled(w, step)
    ensures var r := Apply(w, step);
            && (forall j, k :: 0 <= j < k < |r.slots| && r.slots[j].id == r.slots[k].id ==> r.slots[j].id == 0)
            && (forall id :: id in r.replies || id in r.expired ==> id in r.threads)
            && (forall i :: 0 <= i < |r.spawned| ==> r.spawned[i] in r.threads)
            && (forall i, j :: 0 <= i < j < |r.spawned| ==> r.spawned[i] < r.spawned[j])
  {
    hide Stored, Outcome, Chosen;
    var r := Apply(w, step);
    if step.Watchdog? && step.index < |w.slots| { assert SlotRight(w, step.index); }
    forall j, k | 0 <= j < k < |r.slots| && r.slots[j].id == r.slots[k].id ensures r.slots[j].id == 0 {
      assert SlotRight(w, j) && SlotRight(w, k);
    }
    forall i, j | 0 <= i < j < |r.spawned| ensures r.spawned[i] < r.spawned[j] {
      assert w.spawned[i] in w.threads && ThreadRight(w, w.spawned[i]);
    }
  }

  lemma StepKeeps(w: World, step: Step)
    requires Inv(w) && Enabled(w, step)
    ensures Inv(Apply(w, step))
  {
    SlotsKept(w, step);
    ThreadsKept(w, step);
    IdsKept(w, step);
  }

  /** A run: any interleaving of spawners, workers and watchdogs. */
  function Exec(steps: seq<Step>): Option<World> {
    if steps == [] then Some(FRESH)
    else
      var w := Exec(steps[..|steps| - 1]);
      var step := steps[|steps| - 1];
      if w.None? || !Enabled(w.value, step) then None else Some(Apply(w.value, step))
  }

  lemma {:induction false} RunKeeps(steps: seq<Step>)
    requires Exec(steps).Some?
    ensures Inv(Exec(steps).value)
  {
    if steps != [] {
      hide Inv, Apply, Enabled;
      RunKeeps(steps[..|steps| - 1]);
      StepKeeps(Exec(steps[..|steps| - 1]).value, steps[|steps| - 1]);
    }
  }

  /** How a reply is shown: as failed exactly when it starts like an error message, with its text up to
      the cap and a notice behind what was cut, or with a notice when there is none. */
  predicate ShowsReply(reply: Option<Text>, state: SlotState, result: Option<Text>) {
    && (state.Failed? || state.Finished?) && result.Some?
    && (state.Failed? <==> reply.Some? && (ERROR_MARK <= reply.value || DOBBY_MARK <= reply.value))
    && match reply
       case None => result.value == NO_RESULT
       case Some(text) =>
         && (|text| <= RESULT_CAP ==> result.value == text)
         && (|text| > RESULT_CAP ==> text[..RESULT_CAP] <= result.value && result.value[RESULT_CAP..] == TRUNCATED)
  }

  lemma ReplyShown(reply: Option<Text>)
    ensures ShowsReply(reply, Outcome(reply), Some(Stored(reply)))
  {
  }

  /** What a query for `id` may show: the reply of that very sub-agent, the timeout if it has been
      cancelled without replying, "running" only if neither has happened; and a sub-agent to which
      neither has happened is shown as running, so its slot was not recycled. */
  ghost predicate StatusRight(w: World, id: int) {
    var status := StatusOf(w.slots, id);
    && (id in w.spawned && id !in w.replies && id !in w.expired ==> status == Status(Running, None))
    && (status.Status? ==>
          if id in w.replies then ShowsReply(w.replies[id], status.state, status.result)
          else if id in w.expired then status == Status(TimedOut, Some(TIMEOUT_TEXT))
          else id in w.spawned && status == Status(Running, None))
  }

  ghost predicate Recyclable(w: World, index: int)
    requires 0 <= index < |w.slots|
  {
    && (!w.slots[index].state.Idle? ==> w.slots[index].id in w.replies || w.slots[index].id in w.expired)
    && (forall id :: id in w.threads && w.threads[id].Alive? ==> w.threads[id].slot != index)
    && (forall id :: id in w.spawned ==> id < w.nextId)
  }

  /** What a step may touch: a worker writes to the slot of its own id; a watchdog times out only
      its own sub-agent, which is still at work in that slot; a spawner recycles a slot only when
      its previous occupant has replied or timed out and no live worker points to it. */
  ghost predicate StepSafe(w: World, step: Step)
    requires Enabled(w, step)
  {
    match step
    case Finish(id, _, _) => w.slots[w.threads[id].slot].id == id && id !in w.replies
    case Watchdog(id, index, _) =>
      index < |w.slots| ==>
        w.slots[index].id == id && id in w.threads && w.threads[id] == Alive(index) && id !in w.replies
    case Spawn(_, index, _) => Recyclable(w, index)
    case SpawnFails(_, index) => Recyclable(w, index)
    case _ => true
  }

  lemma StatusShown(w: World, id: int)
    requires Inv(w) && (forall k :: k in w.threads ==> k in w.spawned)
    ensures StatusRight(w, id)
  {
    if id in w.replies { ReplyShown(w.replies[id]); }
    hide Stored, Outcome, ShowsReply;
    var i := Lookup(w.slots, id);
    if i < |w.slots| { assert SlotRight(w, i); }
    if id in w.spawned && id !in w.replies && id !in w.expired {
      assert id in w.threads && ThreadRight(w, id);
      assert SlotRight(w, w.threads[id].slot);
    }
  }

  lemma StepIsSafe(w: World, step: Step)
    requires Inv(w) && Enabled(w, step)
    ensures StepSafe(w, step)
  {
    hide Stored, Outcome;
    if step.Finish? {
      assert ThreadRight(w, step.id);
    } else if step.Watchdog? {
      if step.index < |w.slots| { assert SlotRight(w, step.index); }
    } else if step.Spawn? || step.SpawnFails? {
      assert SlotRight(w, step.index);
      forall id | id in w.threads && w.threads[id].Alive? ensures w.threads[id].slot != step.index {
        assert ThreadRight(w, id);
      }
      forall id | id in w.spawned ensures id < w.nextId { assert id in w.threads && ThreadRight(w, id); }
      assert !w.slots[step.index].state.Idle? ==> ThreadRight(w, w.slots[step.index].id);
    }
  }

  lemma {:induction false} ThreadsSpawned(steps: seq<Step>)
    requires Exec(steps).Some?
    ensures forall id :: id in Exec(steps).value.threads ==> id in Exec(steps).value.spawned
  {
    if steps != [] { ThreadsSpawned(steps[..|steps| - 1]); }
  }

  /** Over every interleaving: ids strictly increase, whatever step comes next is safe, and every
      query shows only what belongs to the id it asks for. */
  lemma PoolSafe(steps: seq<Step>, step: Step, id: int)
    requires Exec(steps).Some?
    ensures var w := Exec(steps).value;
            && (forall i, j :: 0 <= i < j < |w.spawned| ==> w.spawned[i] < w.spawned[j])
            && (Enabled(w, step) ==> StepSafe(w, step))
            && StatusRight(w, id)
  {
    RunKeeps(steps);
    ThreadsSpawned(steps);
    var w := Exec(steps).value;
    StatusShown(w, id);
    if Enabled(w, step) { StepIsSafe(w, step); }
  }

  // ---- Which slot is recycled ------------------------------------------------------------

  /** When a sub-agent ended: the time of its report or of its timeout, whichever came last. */
  function Ended(steps: seq<Step>, id: int): int {
    if steps == [] then 0
    else
      var step := steps[|steps| - 1];
      if step.Finish? && step.id == id then step.now
      else if step.Watchdog? && step.id == id && step.index < MAX_SLOTS then step.now
      else Ended(steps[..|steps| - 1], id)
  }

  lemma TimesStep(w: World, step: Step, k: nat)
    requires Inv(w) && Enabled(w, step) && k < |Apply(w, step).slots| && Completed(Apply(w, step).slots[k])
    ensures var s := Apply(w, step).slots[k];
            if (step.Finish? && step.id == s.id) || (step.Watchdog? && step.id == s.id && step.index < MAX_SLOTS)
            then s.finishedAt == step.now
            else
              && k < |w.slots| && Completed(w.slots[k])
              && w.slots[k].id == s.id && w.slots[k].finishedAt == s.finishedAt
  {
    hide Stored, Outcome, Chosen;
    assert SlotRight(w, k);
    if step.Finish? { assert ThreadRight(w, step.id); }
    if step.Watchdog? && step.index < |w.slots| { assert SlotRight(w, step.index); }
  }

  lemma {:induction false} TimesRight(steps: seq<Step>, k: nat)
    requires Exec(steps).Some? && k < |Exec(steps).value.slots| && Completed(Exec(steps).value.slots[k])
    ensures Exec(steps).value.slots[k].finishedAt == Ended(steps, Exec(steps).value.slots[k].id)
  {
    if steps != [] {
      var before, step := steps[..|steps| - 1], steps[|steps| - 1];
      RunKeeps(before);
      TimesStep(Exec(before).value, step, k);
      hide Inv, Apply, Enabled;
      var s := Exec(steps).value.slots[k];
      if !((step.Finish? && step.id == s.id) || (step.Watchdog? && step.id == s.id && step.index < MAX_SLOTS)) {
        TimesRight(before, k);
      }
    }
  }

  /** Over every interleaving, a spawner takes an idle slot if there is one, and otherwise the slot of the
      sub-agent that ended first among those that have ended. */
  lemma OldestRecycled(steps: seq<Step>, step: Step)
    requires Exec(steps).Some? && (step.Spawn? || step.SpawnFails?) && Enabled(Exec(steps).value, step)
    ensures var slots := Exec(steps).value.slots;
            && 0 <= step.index < |slots|
            && (slots[step.index].state.Idle? || forall k :: 0 <= k < |slots| ==> !slots[k].state.Idle?)
            && (!slots[step.index].state.Idle? ==> forall k :: 0 <= k < |slots| && Completed(slots[k]) ==>
                  Ended(steps, slots[step.index].id) <= Ended(steps, slots[k].id))
  {
    RunKeeps(steps);
    hide Exec, Ended, Inv;
    var slots := Exec(steps).value.slots;
    if !slots[step.index].state.Idle? {
      TimesRight(steps, step.index);
      forall k | 0 <= k < |slots| && Completed(slots[k])
        ensures Ended(steps, slots[step.index].id) <= Ended(steps, slots[k].id)
      {
        TimesRight(steps, k);
      }
    }
  }

  /** A timeout is not final: the cancelled worker may still report, and its reply replaces it. */
  lemma TimeoutOverwritten(text: Text)
    requires |text| <= RESULT_CAP && !(ERROR_MARK <= text) && !(DOBBY_MARK <= text)
    ensures exists steps :: Exec(steps).Some? && 1 in Exec(steps).value.expired
                         && StatusOf(Exec(steps).value.slots, 1) == Status(Finished, Some(text))
  {
    var a, b, c := Step.Spawn(0, 0, true), Step.Watchdog(1, 0, 0), Step.Finish(1, Some(text), 0);
    FirstTimesOut();
    RunKeeps([a] + [b]);
    hide Exec, Apply, Enabled, StatusOf, Inv;
    ReportsLate(Exec([a] + [b]).value, 1, text);
    Extend([a] + [b], c);
  }

  /** Whatever has become of its slot meanwhile, the report of a live worker is what a query shows. */
  lemma ReportsLate(w: World, id: int, text: Text)
    requires |text| <= RESULT_CAP && !(ERROR_MARK <= text) && !(DOBBY_MARK <= text)
    requires Inv(w) && id in w.threads && w.threads[id].Alive?
    ensures var c := Step.Finish(id, Some(text), 0);
            && Enabled(w, c) && id in Apply(w, c).threads && Apply(w, c).expired == w.expired
            && StatusOf(Apply(w, c).slots, id) == Status(Finished, Some(text))
  {
    var c, k := Step.Finish(id, Some(text), 0), w.threads[id].slot;
    assert ThreadRight(w, id);
    var r := Apply(w, c);
    StepKeeps(w, c);
    assert r.slots[k] == w.slots[k].(state := Finished, result := Some(text), finishedAt := 0);
    OnlySlot(r, k, id);
  }

  const SLOT_TIMED_OUT: Slot := Slot(1, SlotState.TimedOut, Some(TIMEOUT_TEXT), 0, true)

  /** The first sub-agent, timed out. */
  lemma FirstTimesOut()
    ensures Exec([Step.Spawn(0, 0, true)] + [Step.Watchdog(1, 0, 0)])
         == Some(World(FreeSlots()[0 := SLOT_TIMED_OUT], 2, map[1 := Alive(0)], {}, {1}, map[], [1]))
  {
    var a, b := Step.Spawn(0, 0, true), Step.Watchdog(1, 0, 0);
    assert FRESH.slots[0].state.Idle?;
    assert Exec([]) == Some(FRESH) && [] + [a] == [a];
    Extend([], a);
    hide Exec;
    var w1 := Apply(FRESH, a);
    assert w1.slots == FreeSlots()[0 := Slot(1, Running, None, 0, true)];
    assert w1.threads == map[1 := Alive(0)] && w1.watchdogs == {1} && w1.spawned == [1];
    Extend([a], b);
    var w2 := Apply(w1, b);
    assert w2.slots == FreeSlots()[0 := SLOT_TIMED_OUT] && w2.watchdogs == {} && w2.expired == {1};
  }

  lemma Extend(steps: seq<Step>, step: Step)
    requires Exec(steps).Some? && Enabled(Exec(steps).value, step)
    ensures Exec(steps + [step]) == Some(Apply(Exec(steps).value, step))
  {
    hide Apply, Enabled;
    assert (steps + [step])[..|steps|] == steps;
  }

  // ---- How a timed-out sub-agent can still end -------------------------------------------

  /** Some run leads from `w` to `t`. */
  ghost predicate Later(w: World, t: World) { exists steps :: ExecFrom(w, steps) == Some(t) }

  function ExecFrom(w: World, steps: seq<Step>): Option<World>
    decreases |steps|
  {
    if steps == [] then Some(w)
    else if !Enabled(w, steps[0]) then None
    else ExecFrom(Apply(w, steps[0]), steps[1..])
  }

  predicate ShownDone(w: World, id: int) {
    StatusOf(w.slots, id).Status? && StatusOf(w.slots, id).state == Finished
  }

  /** The slot of an id is the only one that a query can find. */
  lemma OnlySlot(w: World, k: nat, id: int)
    requires Inv(w) && k < |w.slots| && w.slots[k].id == id && !w.slots[k].state.Idle?
    ensures Lookup(w.slots, id) == k
  {
    hide Stored, Outcome;
    var i := Lookup(w.slots, id);
    assert SlotRight(w, k) && SlotRight(w, i);
    assert ThreadRight(w, id);
  }

  /** Once its worker is past its slot, what a query shows for an id stays the same or is recycled. */
  lemma ShownStays(w: World, step: Step, id: int)
    requires Inv(w) && Enabled(w, step) && id in w.threads && !w.threads[id].Alive?
    ensures var r := Apply(w, step);
            && id in r.threads && !r.threads[id].Alive?
            && (StatusOf(r.slots, id) == StatusOf(w.slots, id) || StatusOf(r.slots, id) == NotFound)
  {
    hide Stored, Outcome, Chosen;
    var r := Apply(w, step);
    assert ThreadRight(w, id);
    StepKeeps(w, step);
    var k := Lookup(r.slots, id);
    if k < |r.slots| {
      SlotSame(w, step, id, k);
      OnlySlot(w, k, id);
    }
  }

  lemma SlotSame(w: World, step: Step, id: int, k: nat)
    requires Inv(w) && Enabled(w, step) && id in w.threads && !w.threads[id].Alive?
    requires var r := Apply(w, step); k < |r.slots| && r.slots[k].id == id && !r.slots[k].state.Idle?
    ensures k < |w.slots| && w.slots[k] == Apply(w, step).slots[k]
  {
    hide Stored, Outcome, Chosen;
    assert ThreadRight(w, id);
    if step.Finish? { assert ThreadRight(w, step.id); }
    if step.Watchdog? && step.index < |w.slots| { assert SlotRight(w, step.index); }
  }

  lemma {:induction false} NeverDone(w: World, steps: seq<Step>, id: int)
    requires Inv(w) && id in w.threads && !w.threads[id].Alive? && !ShownDone(w, id) && ExecFrom(w, steps).Some?
    ensures !ShownDone(ExecFrom(w, steps).value, id)
    decreases |steps|
  {
    if steps != [] {
      StepKeeps(w, steps[0]);
      ShownStays(w, steps[0], id);
      hide Inv, Apply, Enabled, StatusOf;
      NeverDone(Apply(w, steps[0]), steps[1..], id);
    }
  }

  /** Over every run, for every sub-agent that a watchdog has timed out: it can still end as done if and
      only if its worker is alive, or it is shown so already. */
  lemma LateExactly(steps: seq<Step>, id: int)
    requires Exec(steps).Some? && id in Exec(steps).value.expired
    ensures var w := Exec(steps).value;
            && id in w.threads
            && ((exists t :: Later(w, t) && ShownDone(t, id)) <==> w.threads[id].Alive? || ShownDone(w, id))
  {
    RunKeeps(steps);
    hide Exec;
    var w := Exec(steps).value;
    assert id in w.threads;
    if w.threads[id].Alive? {
      var c := Step.Finish(id, Some([]), 0);
      ReportsLate(w, id, []);
      hide Apply, Enabled, Inv, StatusOf;
      assert [c][1..] == [] && ExecFrom(w, [c]) == ExecFrom(Apply(w, c), []) == Some(Apply(w, c));
      assert Later(w, Apply(w, c)) && ShownDone(Apply(w, c), id);
    } else if ShownDone(w, id) {
      assert ExecFrom(w, []) == Some(w);
    } else {
      hide Inv;
      forall t | Later(w, t) ensures !ShownDone(t, id) {
        var more :| ExecFrom(w, more) == Some(t);
        NeverDone(w, more, id);
      }
    }
  }
}
