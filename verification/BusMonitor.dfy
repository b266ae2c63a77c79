/**
 The two bounded queues of src/bus/bus.c as monitors: any number of threads publish, consume and
 shut down, and every step between taking and giving up a lock, every wait on a condition
 variable, every signal and every read of the shutdown flag is a step of its own. The flag is
 written outside the locks.
 */
module BusMonitor {
  import opened RingQueue

  type Tid = nat
  type Msg = int

  datatype Op = Push(msg: Msg) | Pop

  /** Where the thread that holds the lock of a queue is: at the loop condition, about to wait, or
      past the loop. */
  datatype Phase = Testing | Parking | Leaving

  datatype Holder = Nobody | Holder(tid: Tid, op: Op, phase: Phase, woken: bool)

  /** Where every other thread with a call in progress is: waiting for the lock for the first time,
      asleep on a condition variable, or woken from there and waiting for the lock again. */
  datatype Place = Entering(op: Op) | Asleep(op: Op) | Woken(op: Op)

  type Places = map<Tid, Place>

  /** One queue; `accepted` and `taken` record its history. */
  datatype Queue = Queue(items: seq<Msg>, holder: Holder, places: Places, accepted: seq<Msg>, taken: seq<Msg>)

  const EMPTY: Queue := Queue([], Nobody, map[], [], [])

  /** The producers, or the consumers, that are asleep. */
  function Sleepers(places: Places, push: bool): set<Tid> {
    set t | t in places && places[t].Asleep? && places[t].op.Push? == push
  }

  function Awoken(places: Places, push: bool): set<Tid> {
    set t | t in places && places[t].Woken? && places[t].op.Push? == push
  }

  datatype Signal = Nothing | To(tid: Tid)

  datatype Step =
    | Enter(tid: Tid, op: Op)
    | Lock(tid: Tid)
    | Test
    | Park
    | Spurious(tid: Tid)
    | Leave(signal: Signal)
    | Broadcast

  /** A signal wakes one sleeper, if there is any. */
  predicate Signals(places: Places, push: bool, signal: Signal) {
    if Sleepers(places, push) == {} then signal.Nothing? else signal.To? && signal.tid in Sleepers(places, push)
  }

  predicate Blocked(q: Queue, op: Op, shut: bool) {
    !shut && (if op.Push? then |q.items| >= QUEUE_DEPTH else q.items == [])
  }

  /** Whether the holder, past its loop, puts in or takes out an item. */
  predicate Succeeds(q: Queue, op: Op, shut: bool) {
    if op.Push? then !shut else q.items != []
  }

  predicate InPhase(q: Queue, phase: Phase) { q.holder.Holder? && q.holder.phase == phase }

  predicate Enabled(q: Queue, step: Step, shut: bool) {
    match step
    case Enter(t, op) => t !in q.places && (q.holder.Holder? ==> t != q.holder.tid)
    case Lock(t) => q.holder.Nobody? && t in q.places && !q.places[t].Asleep?
    case Test => InPhase(q, Testing)
    case Park => InPhase(q, Parking)
    case Spurious(t) => t in q.places && q.places[t].Asleep?
    case Leave(signal) =>
      InPhase(q, Leaving)
      && if Succeeds(q, q.holder.op, shut) then Signals(q.places, q.holder.op.Pop?, signal) else signal.Nothing?
    case Broadcast => q.holder.Nobody?
  }

  function Wake(places: Places, t: Tid): Places
    requires t in places
  {
    places[t := Woken(places[t].op)]
  }

  /** The effect of a step, with the shutdown flag as the step reads it. */
  function Apply(q: Queue, step: Step, shut: bool): Queue
    requires Enabled(q, step, shut)
  {
    match step
    case Enter(t, op) => q.(places := q.places[t := Entering(op)])
    case Lock(t) => q.(holder := Holder(t, q.places[t].op, Testing, q.places[t].Woken?), places := q.places - {t})
    case Test => q.(holder := q.holder.(phase := if Blocked(q, q.holder.op, shut) then Parking else Leaving))
    case Park => q.(holder := Nobody, places := q.places[q.holder.tid := Asleep(q.holder.op)])
    case Spurious(t) => q.(places := Wake(q.places, t))
    case Leave(signal) =>
      var places := if signal.To? then Wake(q.places, signal.tid) else q.places;
      if !Succeeds(q, q.holder.op, shut) then q.(holder := Nobody)
      else if q.holder.op.Push? then
        q.(holder := Nobody, places := places, items := q.items + [q.holder.op.msg],
            accepted := q.accepted + [q.holder.op.msg])
      else
        q.(holder := Nobody, places := places, items := q.items[1..], taken := q.taken + [q.items[0]])
    case Broadcast =>
      q.(places := map t | t in q.places :: if q.places[t].Asleep? then Woken(q.places[t].op) else q.places[t])
  }

  // ---- One queue -------------------------------------------------------------------------

  /** Producers, or consumers, that were notified and have not run yet, the one that holds the
      lock included. */
  function Notified(q: Queue, push: bool): nat {
    |Awoken(q.places, push)| + (if q.holder.Holder? && q.holder.woken && q.holder.op.Push? == push then 1 else 0)
  }

  /** What the holder of the lock has learnt from the test stays true while it holds the lock. */
  predicate PhaseRight(q: Queue, shut: bool) {
    q.holder.Holder? ==>
      match (q.holder.phase, q.holder.op)
      case (Parking, Push(_)) => |q.items| == QUEUE_DEPTH
      case (Parking, Pop) => q.items == []
      case (Leaving, Push(_)) => !shut ==> |q.items| < QUEUE_DEPTH
      case (Leaving, Pop) => !shut ==> q.items != []
      case _ => true
  }

  /** No wakeup is lost: while a consumer sleeps there are no more items than notified consumers... */
  predicate ConsumersWoken(q: Queue) {
    Sleepers(q.places, false) != {} ==> |q.items| <= Notified(q, false)
  }

  /** ...and while a producer sleeps there are no more free slots than notified producers. */
  predicate ProducersWoken(q: Queue) {
    Sleepers(q.places, true) != {} ==> QUEUE_DEPTH - |q.items| <= Notified(q, true)
  }

  predicate QueueInv(q: Queue, shut: bool) {
    && |q.items| <= QUEUE_DEPTH && q.accepted == q.taken + q.items
    && (q.holder.Holder? ==> q.holder.tid !in q.places)
    && PhaseRight(q, shut)
    && ConsumersWoken(q) && (!shut ==> ProducersWoken(q))
  }

  function If(b: bool, t: Tid): set<Tid> { if b then {t} else {} }

  /** How waking, parking and taking the lock move a thread between the sets. */
  lemma MovedByWake(places: Places, t: Tid, push: bool)
    requires t in places && places[t].Asleep?
    ensures |Awoken(Wake(places, t), push)| == |Awoken(places, push)| + (if places[t].op.Push? == push then 1 else 0)
    ensures Sleepers(Wake(places, t), push) <= Sleepers(places, push)
  {
    assert Awoken(Wake(places, t), push) == Awoken(places, push) + If(places[t].op.Push? == push, t);
    assert t !in Awoken(places, push);
  }

  lemma MovedByLock(places: Places, t: Tid, push: bool)
    requires t in places && !places[t].Asleep?
    ensures var counted := places[t].Woken? && places[t].op.Push? == push;
            |Awoken(places - {t}, push)| == |Awoken(places, push)| - (if counted then 1 else 0)
    ensures Sleepers(places - {t}, push) == Sleepers(places, push)
  {
    var a, b := Awoken(places, push), Awoken(places - {t}, push);
    assert b == a - {t};
    assert t in a <==> places[t].Woken? && places[t].op.Push? == push;
    hide Awoken;
    if t in a { assert a == b + {t}; } else { assert a == b; }
  }

  lemma MovedByArrival(places: Places, t: Tid, op: Op, push: bool)
    requires t !in places
    ensures Awoken(places[t := Entering(op)], push) == Awoken(places[t := Asleep(op)], push) == Awoken(places, push)
    ensures Sleepers(places[t := Entering(op)], push) == Sleepers(places, push)
    ensures Sleepers(places[t := Asleep(op)], push) == Sleepers(places, push) + If(op.Push? == push, t)
  {
  }

  lemma LockKeeps(q: Queue, t: Tid, shut: bool)
    requires QueueInv(q, shut) && Enabled(q, Lock(t), shut)
    ensures QueueInv(Apply(q, Lock(t), shut), shut)
  {
    hide Sleepers, Awoken;
    MovedByLock(q.places, t, true);
    MovedByLock(q.places, t, false);
  }

  lemma SpuriousKeeps(q: Queue, t: Tid, shut: bool)
    requires QueueInv(q, shut) && Enabled(q, Spurious(t), shut)
    ensures QueueInv(Apply(q, Spurious(t), shut), shut)
  {
    hide Sleepers, Awoken;
    MovedByWake(q.places, t, true);
    MovedByWake(q.places, t, false);
  }

  lemma ParkKeeps(q: Queue, shut: bool)
    requires QueueInv(q, shut) && Enabled(q, Park, shut)
    ensures QueueInv(Apply(q, Park, shut), shut)
  {
    hide Sleepers, Awoken;
    MovedByArrival(q.places, q.holder.tid, q.holder.op, true);
    MovedByArrival(q.places, q.holder.tid, q.holder.op, false);
  }

  lemma EnterKeeps(q: Queue, t: Tid, op: Op, shut: bool)
    requires QueueInv(q, shut) && Enabled(q, Enter(t, op), shut)
    ensures QueueInv(Apply(q, Enter(t, op), shut), shut)
  {
    hide Sleepers, Awoken;
    MovedByArrival(q.places, t, op, true);
    MovedByArrival(q.places, t, op, false);
  }

  /** A successful push or pop wakes a thread of the other kind and no thread of its own. */
  lemma SignalFacts(q: Queue, signal: Signal, shut: bool)
    requires QueueInv(q, shut) && Enabled(q, Leave(signal), shut) && Succeeds(q, q.holder.op, shut)
    ensures var push, r := q.holder.op.Push?, Apply(q, Leave(signal), shut);
            && |Awoken(r.places, push)| == |Awoken(q.places, push)|
                && Sleepers(r.places, push) <= Sleepers(q.places, push)
            && Sleepers(r.places, !push) <= Sleepers(q.places, !push)
            && (Sleepers(q.places, !push) != {} ==> |Awoken(r.places, !push)| == |Awoken(q.places, !push)| + 1)
  {
    if signal.To? {
      MovedByWake(q.places, signal.tid, true);
      MovedByWake(q.places, signal.tid, false);
    }
  }

  lemma LeaveKeeps(q: Queue, signal: Signal, shut: bool)
    requires QueueInv(q, shut) && Enabled(q, Leave(signal), shut)
    ensures QueueInv(Apply(q, Leave(signal), shut), shut)
  {
    if Succeeds(q, q.holder.op, shut) {
      SignalFacts(q, signal, shut);
      hide Sleepers, Awoken, Signals;
      if q.holder.op.Pop? { assert q.items == [q.items[0]] + q.items[1..]; }
    }
  }

  lemma BroadcastKeeps(q: Queue, shut: bool)
    requires QueueInv(q, shut) && Enabled(q, Broadcast, shut)
    ensures QueueInv(Apply(q, Broadcast, shut), shut)
    ensures Sleepers(Apply(q, Broadcast, shut).places, true) == Sleepers(Apply(q, Broadcast, shut).places, false) == {}
  {
  }

  /** Every step of every thread keeps the invariant of its queue. */
  lemma StepKeeps(q: Queue, step: Step, shut: bool)
    requires QueueInv(q, shut) && Enabled(q, step, shut)
    ensures QueueInv(Apply(q, step, shut), shut)
  {
    match step
    case Enter(t, op) => EnterKeeps(q, t, op, shut);
    case Lock(t) => LockKeeps(q, t, shut);
    case Test =>
    case Park => ParkKeeps(q, shut);
    case Spurious(t) => SpuriousKeeps(q, t, shut);
    case Leave(signal) => LeaveKeeps(q, signal, shut);
    case Broadcast => BroadcastKeeps(q, shut);
  }

  // ---- The bus ---------------------------------------------------------------------------

  /** How far a call of `bus_shutdown` has come: the flag is set, and then each queue in turn is
      broadcast to. */
  datatype Closing = FlagSet | InboundDone

  datatype Bus = Bus(inbound: Queue, outbound: Queue, shut: bool, closers: map<Tid, Closing>, returned: bool)

  const INITIAL: Bus := Bus(EMPTY, EMPTY, false, map[], false)

  datatype BusStep =
    | Inbound(step: Step)
    | Outbound(step: Step)
    | SetFlag(tid: Tid)
    | BroadcastInbound(tid: Tid)
    | BroadcastOutbound(tid: Tid)

  predicate BusEnabled(b: Bus, s: BusStep) {
    match s
    case Inbound(step) => !step.Broadcast? && Enabled(b.inbound, step, b.shut)
    case Outbound(step) => !step.Broadcast? && Enabled(b.outbound, step, b.shut)
    case SetFlag(t) => t !in b.closers
    case BroadcastInbound(t) => t in b.closers && b.closers[t].FlagSet? && Enabled(b.inbound, Broadcast, b.shut)
    case BroadcastOutbound(t) => t in b.closers && b.closers[t].InboundDone? && Enabled(b.outbound, Broadcast, b.shut)
  }

  function BusApply(b: Bus, s: BusStep): Bus
    requires BusEnabled(b, s)
  {
    match s
    case Inbound(step) => b.(inbound := Apply(b.inbound, step, b.shut))
    case Outbound(step) => b.(outbound := Apply(b.outbound, step, b.shut))
    case SetFlag(t) => b.(shut := true, closers := b.closers[t := FlagSet])
    case BroadcastInbound(t) =>
      b.(inbound := Apply(b.inbound, Broadcast, b.shut), closers := b.closers[t := InboundDone])
    case BroadcastOutbound(t) =>
      b.(outbound := Apply(b.outbound, Broadcast, b.shut), closers := b.closers - {t}, returned := true)
  }

  /** Nobody sleeps on the queue and nobody is about to. */
  predicate Quiet(q: Queue) {
    Sleepers(q.places, true) == {} && Sleepers(q.places, false) == {} && !InPhase(q, Parking)
  }

  /** A broadcast to the inbound queue, or to the outbound one, is still to come. */
  predicate InboundDue(b: Bus) { exists t :: t in b.closers && b.closers[t].FlagSet? }
  predicate OutboundDue(b: Bus) { b.closers != map[] }

  predicate BusInv(b: Bus) {
    && QueueInv(b.inbound, b.shut) && QueueInv(b.outbound, b.shut)
    && (b.shut && !Quiet(b.inbound) ==> InboundDue(b))
    && (b.shut && !Quiet(b.outbound) ==> OutboundDue(b))
    && (b.closers != map[] || b.returned ==> b.shut)
    && (forall t :: t in b.closers && b.closers[t].InboundDone? ==> Quiet(b.inbound))
    && (b.returned ==> Quiet(b.inbound) && Quiet(b.outbound))
  }

  /** Once the flag is set a quiet queue stays quiet: whoever tests the loop condition reads it. */
  lemma QuietKept(q: Queue, step: Step)
    requires Quiet(q) && QueueInv(q, true) && Enabled(q, step, true)
    ensures Quiet(Apply(q, step, true))
  {
    match step
    case Enter(t, op) =>
      MovedByArrival(q.places, t, op, true);
      MovedByArrival(q.places, t, op, false);
    case Lock(t) =>
      MovedByLock(q.places, t, true);
      MovedByLock(q.places, t, false);
    case Leave(signal) =>
      if Succeeds(q, q.holder.op, true) { SignalFacts(q, signal, true); }
    case Spurious(t) =>
      MovedByWake(q.places, t, true);
      MovedByWake(q.places, t, false);
    case Broadcast => BroadcastKeeps(q, true);
    case _ =>
  }

  lemma BusStepKeeps(b: Bus, s: BusStep)
    requires BusInv(b) && BusEnabled(b, s)
    ensures BusInv(BusApply(b, s))
  {
    hide Apply, Enabled, QueueInv, Quiet;
    DueKept(b, s);
    hide InboundDue, OutboundDue;
    match s
    case Inbound(step) =>
      StepKeeps(b.inbound, step, b.shut);
      if Quiet(b.inbound) && b.shut { QuietKept(b.inbound, step); }
    case Outbound(step) =>
      StepKeeps(b.outbound, step, b.shut);
      if Quiet(b.outbound) && b.shut { QuietKept(b.outbound, step); }
    case SetFlag(t) =>
      FlagKeeps(b.inbound, b.shut);
      FlagKeeps(b.outbound, b.shut);
    case BroadcastInbound(t) =>
      StepKeeps(b.inbound, Broadcast, b.shut);
      BroadcastQuiets(b.inbound, b.shut);
    case BroadcastOutbound(t) =>
      StepKeeps(b.outbound, Broadcast, b.shut);
      BroadcastQuiets(b.outbound, b.shut);
  }

  /** A broadcast stays due until it is made. */
  lemma DueKept(b: Bus, s: BusStep)
    requires BusEnabled(b, s)
    ensures var c := BusApply(b, s);
            && (s.SetFlag? || (InboundDue(b) && !s.BroadcastInbound?) ==> InboundDue(c))
            && (s.SetFlag? || (OutboundDue(b) && !s.BroadcastOutbound?) ==> OutboundDue(c))
  {
    hide Apply, Enabled;
    var c := BusApply(b, s);
    if s.SetFlag? {
      assert s.tid in c.closers && c.closers[s.tid].FlagSet?;
    } else {
      if InboundDue(b) && !s.BroadcastInbound? {
        var t :| t in b.closers && b.closers[t].FlagSet?;
        assert t in c.closers && c.closers[t].FlagSet?;
      }
      if OutboundDue(b) && !s.BroadcastOutbound? {
        var t :| t in b.closers;
        assert t in c.closers;
      }
    }
  }

  lemma FlagKeeps(q: Queue, shut: bool)
    requires QueueInv(q, shut)
    ensures QueueInv(q, true)
  {
  }

  lemma BroadcastQuiets(q: Queue, shut: bool)
    requires QueueInv(q, shut) && Enabled(q, Broadcast, shut)
    ensures Quiet(Apply(q, Broadcast, shut))
  {
    BroadcastKeeps(q, shut);
  }

  ghost predicate Next(b: Bus, c: Bus) {
    exists s :: BusEnabled(b, s) && c == BusApply(b, s)
  }

  /** A run: any interleaving of any number of threads. */
  ghost predicate Run(trace: seq<Bus>) {
    && trace != [] && trace[0] == INITIAL
    && forall i :: 0 <= i < |trace| - 1 ==> Next(trace[i], trace[i + 1])
  }

  lemma {:induction false} RunKeeps(trace: seq<Bus>)
    requires Run(trace)
    ensures BusInv(trace[|trace| - 1])
    decreases |trace|
  {
    hide Enabled, Apply, QueueInv, Quiet, BusEnabled, BusApply, BusInv;
    if |trace| == 1 {
      InitialInv();
    } else {
      var before := trace[..|trace| - 1];
      forall i | 0 <= i < |before| - 1 ensures Next(before[i], before[i + 1]) {
        assert before[i] == trace[i] && before[i + 1] == trace[i + 1] && Next(trace[i], trace[i + 1]);
      }
      RunKeeps(before);
      var b, c := trace[|trace| - 2], trace[|trace| - 2 + 1];
      assert Next(b, c);
      var s :| BusEnabled(b, s) && c == BusApply(b, s);
      BusStepKeeps(b, s);
    }
  }

  lemma InitialInv()
    ensures BusInv(INITIAL)
  {
  }

  predicate NobodyAsleep(q: Queue) { Sleepers(q.places, true) == {} && Sleepers(q.places, false) == {} }

  /** In every reachable state of every run: each queue is first-in first-out and bounded; no wakeup
      of a consumer is ever lost; a wakeup of a producer is lost only after the flag was set and
      while a broadcast to that very queue is still to come; once the flag is set, whoever sleeps on
      a queue has such a broadcast ahead; a call of `bus_shutdown` that is past the inbound queue
      leaves nobody asleep there, and one that has returned nobody on either queue. */
  lemma BusSafe(trace: seq<Bus>)
    requires Run(trace)
    ensures var b := trace[|trace| - 1];
            && b.inbound.accepted == b.inbound.taken + b.inbound.items && |b.inbound.items| <= QUEUE_DEPTH
            && b.outbound.accepted == b.outbound.taken + b.outbound.items && |b.outbound.items| <= QUEUE_DEPTH
            && ConsumersWoken(b.inbound) && ConsumersWoken(b.outbound)
            && (ProducersWoken(b.inbound) || (b.shut && InboundDue(b)))
            && (ProducersWoken(b.outbound) || (b.shut && OutboundDue(b)))
            && (b.shut ==> (NobodyAsleep(b.inbound) || InboundDue(b)) && (NobodyAsleep(b.outbound) || OutboundDue(b)))
            && (forall t :: t in b.closers && b.closers[t].InboundDone? ==> NobodyAsleep(b.inbound))
            && (b.returned ==> NobodyAsleep(b.inbound) && NobodyAsleep(b.outbound))
  {
    RunKeeps(trace);
    hide Sleepers, InboundDue, OutboundDue, Run;
    assert BusInv(trace[|trace| - 1]);
  }

  // ---- Why producers need the proviso ----------------------------------------------------

  ghost predicate Reachable(b: Bus) {
    exists trace :: Run(trace) && trace[|trace| - 1] == b
  }

  lemma Extend(b: Bus, s: BusStep) returns (c: Bus)
    requires Reachable(b) && BusEnabled(b, s)
    ensures c == BusApply(b, s) && Reachable(c)
  {
    c := BusApply(b, s);
    var trace :| Run(trace) && trace[|trace| - 1] == b;
    var longer := trace + [c];
    forall i | 0 <= i < |longer| - 1 ensures Next(longer[i], longer[i + 1]) {
      if i + 1 < |trace| { assert Next(trace[i], trace[i + 1]); } else { assert BusEnabled(longer[i], s); }
    }
    assert Run(longer) && longer[|longer| - 1] == c;
  }

  function Zeros(n: nat): seq<Msg> { seq(n, _ => 0) }

  function Filled(n: nat): Bus { INITIAL.(inbound := EMPTY.(items := Zeros(n), accepted := Zeros(n))) }

  lemma {:induction false} FilledReachable(n: nat)
    requires n <= QUEUE_DEPTH
    ensures Reachable(Filled(n))
  {
    if n == 0 {
      assert Run([INITIAL]) && [INITIAL][0] == Filled(0);
    } else {
      FilledReachable(n - 1);
      var b := Extend(Filled(n - 1), Inbound(Enter(0, Push(0))));
      b := Extend(b, Inbound(Lock(0)));
      b := Extend(b, Inbound(Test));
      b := Extend(b, Inbound(Leave(Nothing)));
      assert b.inbound.places == map[] && Zeros(n) == Zeros(n - 1) + [0];
      assert b == Filled(n);
    }
  }

  lemma ProducerParks(b: Bus, t: Tid) returns (c: Bus)
    requires Reachable(b) && b.inbound.holder.Nobody? && t !in b.inbound.places && !b.shut
          && |b.inbound.items| == QUEUE_DEPTH
    ensures Reachable(c) && c == b.(inbound := b.inbound.(places := b.inbound.places[t := Asleep(Push(0))]))
  {
    c := Extend(b, Inbound(Enter(t, Push(0))));
    c := Extend(c, Inbound(Lock(t)));
    c := Extend(c, Inbound(Test));
    c := Extend(c, Inbound(Park));
    assert c.inbound.places == b.inbound.places[t := Asleep(Push(0))];
  }

  /** Two producers sleep on a full queue; a consumer takes an item and signals the first. */
  lemma FirstSignalled() returns (b: Bus)
    ensures Reachable(b) && !b.shut && !b.returned && b.closers == map[] && b.inbound.holder.Nobody?
    ensures |b.inbound.items| == QUEUE_DEPTH - 1
    ensures b.inbound.places == map[1 := Woken(Push(0)), 2 := Asleep(Push(0))]
  {
    FilledReachable(QUEUE_DEPTH);
    b := ProducerParks(Filled(QUEUE_DEPTH), 1);
    b := ProducerParks(b, 2);
    var asleep: Places := map[1 := Asleep(Push(0)), 2 := Asleep(Push(0))];
    assert b.inbound.places == asleep;
    b := Extend(b, Inbound(Enter(3, Pop)));
    b := Extend(b, Inbound(Lock(3)));
    assert b.inbound.places == asleep;
    b := Extend(b, Inbound(Test));
    assert 1 in Sleepers(asleep, true);
    b := Extend(b, Inbound(Leave(To(1))));
  }

  /** Between the write of the flag and the broadcast a notified producer refuses and leaves, so a
      slot is free, nobody is notified of it, and a producer still sleeps; the pending broadcast
      is what wakes it. */
  lemma ProducerWindow() returns (b: Bus)
    ensures Reachable(b) && b.shut && !b.returned
    ensures !ProducersWoken(b.inbound) && Sleepers(b.inbound.places, true) == {2}
          && |b.inbound.items| == QUEUE_DEPTH - 1
  {
    b := FirstSignalled();
    b := Extend(b, SetFlag(9));
    b := Extend(b, Inbound(Lock(1)));
    assert b.inbound.places == map[2 := Asleep(Push(0))];
    b := Extend(b, Inbound(Test));
    b := Extend(b, Inbound(Leave(Nothing)));
    assert Sleepers(b.inbound.places, true) == {2} && Awoken(b.inbound.places, true) == {};
  }
}
