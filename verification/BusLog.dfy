/**
 The queues of src/bus/bus.c from outside: a log of the calls alone, in which every call takes effect at
 the moment it leaves, as on a plain first-in first-out list, and the law that the queues hold and hand
 out exactly what this log says.
 */
module BusLog {
  import opened Options
  import opened BusMonitor

  /** What each thread has called, which of them is inside, what was put in, and how much of it was taken
      out again. */
  datatype Calls = Calls(ops: map<Tid, Op>, inside: Option<Tid>, put: seq<Msg>, got: nat)

  const NONE: Calls := Calls(map[], None, [], 0)

  /** A call that leaves: a push adds its message unless the bus is shut down, a pop takes the oldest
      message if there is one. */
  function Returned(l: Calls, op: Op, shut: bool): Calls {
    match op
    case Push(msg) => if shut then l else l.(put := l.put + [msg])
    case Pop => if l.got < |l.put| then l.(got := l.got + 1) else l
  }

  function Noted(l: Calls, step: Step, shut: bool): Calls {
    match step
    case Enter(t, op) => l.(ops := l.ops[t := op])
    case Lock(t) => l.(inside := Some(t))
    case Park => l.(inside := None)
    case Leave(_) =>
      if l.inside.Some? && l.inside.value in l.ops
      then Returned(l, l.ops[l.inside.value], shut).(inside := None) else l
    case _ => l
  }

  /** What the queue owes to the log: threads are at what they called, and what is queued and what was
      handed out is what was put in, in order. */
  predicate Agrees(q: Queue, l: Calls) {
    && (forall t :: t in q.places ==> t in l.ops && q.places[t].op == l.ops[t])
    && (q.holder.Holder? ==>
          l.inside == Some(q.holder.tid) && q.holder.tid in l.ops && l.ops[q.holder.tid] == q.holder.op)
    && Holds(q, l)
  }

  predicate Holds(q: Queue, l: Calls) {
    l.got <= |l.put| && q.accepted == l.put && q.taken == l.put[..l.got] && q.items == l.put[l.got..]
  }

  lemma LeaveAgrees(q: Queue, l: Calls, signal: Signal, shut: bool)
    requires Agrees(q, l) && Enabled(q, Leave(signal), shut)
    ensures Agrees(Apply(q, Leave(signal), shut), Noted(l, Leave(signal), shut))
  {
    var r, k, op := Apply(q, Leave(signal), shut), Noted(l, Leave(signal), shut), q.holder.op;
    assert signal.To? ==> signal.tid in q.places;
    hide Signals;
    if Succeeds(q, op, shut) {
      if op.Push? {
        assert (l.put + [op.msg])[..l.got] == l.put[..l.got];
        assert (l.put + [op.msg])[l.got..] == l.put[l.got..] + [op.msg];
      } else {
        assert q.items[0] == l.put[l.got];
        assert l.put[..l.got + 1] == l.put[..l.got] + [l.put[l.got]];
        assert l.put[l.got..][1..] == l.put[l.got + 1..];
      }
    }
    assert Holds(r, k);
    hide Holds, Succeeds;
  }

  lemma StepAgrees(q: Queue, l: Calls, step: Step, shut: bool)
    requires Agrees(q, l) && Enabled(q, step, shut)
    ensures Agrees(Apply(q, step, shut), Noted(l, step, shut))
  {
    if step.Leave? { LeaveAgrees(q, l, step.signal, shut); } else { hide Signals, Succeeds; }
  }

  // ---- The bus ---------------------------------------------------------------------------

  datatype BusCalls = BusCalls(inbound: Calls, outbound: Calls, shut: bool)

  function BusNoted(l: BusCalls, s: BusStep): BusCalls {
    match s
    case Inbound(step) => l.(inbound := Noted(l.inbound, step, l.shut))
    case Outbound(step) => l.(outbound := Noted(l.outbound, step, l.shut))
    case SetFlag(_) => l.(shut := true)
    case _ => l
  }

  function LogOf(l: BusCalls, steps: seq<BusStep>): BusCalls
    decreases |steps|
  {
    if steps == [] then l else LogOf(BusNoted(l, steps[0]), steps[1..])
  }

  function Exec(b: Bus, steps: seq<BusStep>): Option<Bus>
    decreases |steps|
  {
    if steps == [] then Some(b)
    else if !BusEnabled(b, steps[0]) then None
    else Exec(BusApply(b, steps[0]), steps[1..])
  }

  predicate BusAgrees(b: Bus, l: BusCalls) {
    b.shut == l.shut && Agrees(b.inbound, l.inbound) && Agrees(b.outbound, l.outbound)
  }

  lemma BusStepAgrees(b: Bus, l: BusCalls, s: BusStep)
    requires BusAgrees(b, l) && BusEnabled(b, s)
    ensures BusAgrees(BusApply(b, s), BusNoted(l, s))
  {
    match s
    case Inbound(step) => StepAgrees(b.inbound, l.inbound, step, b.shut);
    case Outbound(step) => StepAgrees(b.outbound, l.outbound, step, b.shut);
    case SetFlag(_) =>
    case BroadcastInbound(_) => StepAgrees(b.inbound, l.inbound, Broadcast, b.shut);
    case BroadcastOutbound(_) => StepAgrees(b.outbound, l.outbound, Broadcast, b.shut);
  }

  lemma {:induction false} RunAgrees(b: Bus, l: BusCalls, steps: seq<BusStep>)
    requires BusAgrees(b, l) && Exec(b, steps).Some?
    ensures BusAgrees(Exec(b, steps).value, LogOf(l, steps))
    decreases |steps|
  {
    hide BusAgrees, BusApply, BusEnabled, BusNoted;
    if steps != [] {
      BusStepAgrees(b, l, steps[0]);
      RunAgrees(BusApply(b, steps[0]), BusNoted(l, steps[0]), steps[1..]);
    }
  }

  /** Over every interleaving of any number of threads, each queue behaves as a first-in first-out list on
      which every call takes effect when it leaves: it has accepted exactly the messages of the pushes that
      left before the shutdown, in that order, and has handed out the first of them, one for each pop
      that found one. */
  lemma QueuesAreLists(steps: seq<BusStep>)
    requires Exec(INITIAL, steps).Some?
    ensures var b, l := Exec(INITIAL, steps).value, LogOf(BusCalls(NONE, NONE, false), steps);
            Holds(b.inbound, l.inbound) && Holds(b.outbound, l.outbound)
  {
    assert BusAgrees(INITIAL, BusCalls(NONE, NONE, false));
    RunAgrees(INITIAL, BusCalls(NONE, NONE, false), steps);
  }
}
