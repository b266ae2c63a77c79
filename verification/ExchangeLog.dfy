/**
 What the exchange of requests and replies looks like from outside: a log that is kept from the steps
 alone, of what was asked, what the agent answered and what the dispatcher took, and the law that the
 messages and replies of the machine are exactly those.
 */
module ExchangeLog {
  import opened Bytes
  import opened Options
  import opened Exchange

  datatype Request = Request(channel: Text, chat: Text, content: Text, meta: Option<Text>)

  /** What callers are about to ask, what has been asked and answered in order, whether the bus has been
      shut down, and how many messages the dispatcher has taken. */
  datatype Log = Log(
    prepared: map<Addr, Request>,
    asked: seq<Request>,
    answers: seq<Option<Text>>,
    shut: bool,
    dispatched: nat)

  const NOTHING: Log := Log(map[], [], [], false, 0)

  function Noted(l: Log, step: Step): Log {
    match step
    case Begin(a, _, channel, chat, content) =>
      l.(prepared := l.prepared[a := Request(channel, chat, content, MetaFor(a))])
    case Publish(a) => if a in l.prepared then l.(asked := l.asked + [l.prepared[a]]) else l
    case PublishAsync(channel, chat, content, meta) =>
      if l.shut then l else l.(asked := l.asked + [Request(channel, chat, content, meta)])
    case Answer(response) => l.(answers := l.answers + [response])
    case ConsumeOutbound => l.(dispatched := l.dispatched + 1)
    case Shutdown => l.(shut := true)
    case _ => l
  }

  function LogOf(l: Log, steps: seq<Step>): Log
    decreases |steps|
  {
    if steps == [] then l else LogOf(Noted(l, steps[0]), steps[1..])
  }

  // ---- What the machine owes to the log --------------------------------------------------

  predicate Carries(msg: InMsg, r: Request) {
    msg.channel == r.channel && msg.chat == r.chat && msg.content == r.content && msg.meta == r.meta
  }

  /** The reply to a request that was answered so: the answer itself to the pair that the tag names, or
      a message back to the same chat with the answer for content, which is empty if there is none. */
  predicate Answers(r: Request, answer: Option<Text>, reply: Reply) {
    match reply
    case Delivered(a, response) => FromMeta(r.meta) == Some(a) && response == answer
    case Posted(out) => FromMeta(r.meta).None? && Returns(r, answer, out)
    case Refused(out) => FromMeta(r.meta).None? && Returns(r, answer, out)
    case OutOfMemory => FromMeta(r.meta).None?
  }

  predicate Returns(r: Request, answer: Option<Text>, out: OutMsg) {
    && out.channel == r.channel && out.chat == r.chat && out.meta == r.meta
    && (answer.Some? ==> out.content == answer.value) && (answer.None? ==> out.content == [])
  }

  /** The messages that were posted, in order. */
  function Posts(replies: seq<Reply>): seq<OutMsg> {
    if replies == [] then []
    else
      var last := replies[|replies| - 1];
      Posts(replies[..|replies| - 1]) + if last.Posted? then [last.out] else []
  }

  predicate MessagesRight(s: State, l: Log) {
    && |s.taken + s.inbound| == |l.asked|
    && forall i :: 0 <= i < |l.asked| ==> Carries((s.taken + s.inbound)[i], l.asked[i])
  }

  predicate RepliesRight(s: State, l: Log) {
    && |s.taken| == |s.replies| + (if Busied(s) then 1 else 0)
    && (Busied(s) ==> s.taken[|s.taken| - 1] == s.worker.msg)
    && |l.answers| == |s.replies| + (if s.worker.Answered? then 1 else 0)
    && (s.worker.Answered? ==> l.answers[|s.replies|] == s.worker.response)
    && |s.replies| <= |l.asked|
    && forall i :: 0 <= i < |s.replies| ==> Answers(l.asked[i], l.answers[i], s.replies[i])
  }

  predicate PostsRight(s: State, l: Log) {
    l.dispatched <= |Posts(s.replies)| && s.outbound == Posts(s.replies)[l.dispatched..]
  }

  predicate CallersRight(s: State, l: Log) {
    forall a :: a in s.pairs ==> a in l.prepared && Carries(s.pairs[a].msg, l.prepared[a])
  }

  predicate Agrees(s: State, l: Log) {
    l.shut == s.shut && MessagesRight(s, l) && RepliesRight(s, l) && PostsRight(s, l) && CallersRight(s, l)
  }

  /** A pair keeps its message, but for the one that a caller makes. */
  lemma PairEffect(s: State, step: Step, a: Addr)
    requires Enabled(s, step) && a in Apply(s, step).pairs && !(step.Begin? && step.address == a)
    ensures a in s.pairs && Apply(s, step).pairs[a].msg == s.pairs[a].msg
  {
    hide FromMeta, MetaFor;
  }

  lemma CallersAgree(s: State, l: Log, step: Step)
    requires Enabled(s, step) && CallersRight(s, l)
    ensures CallersRight(Apply(s, step), Noted(l, step))
  {
    hide FromMeta, MetaFor, Apply, Enabled;
    var r, k := Apply(s, step), Noted(l, step);
    forall a | a in r.pairs ensures a in k.prepared && Carries(r.pairs[a].msg, k.prepared[a]) {
      if step.Begin? && step.address == a { Made(s, step); } else { PairEffect(s, step, a); }
    }
  }

  lemma Made(s: State, step: Step)
    requires Enabled(s, step) && step.Begin?
    ensures step.address in Apply(s, step).pairs
    ensures Carries(Apply(s, step).pairs[step.address].msg,
                    Request(step.channel, step.chat, step.content, MetaFor(step.address)))
  {
  }

  /** What a step does to the messages taken and queued. */
  lemma InboundEffect(s: State, step: Step)
    requires Enabled(s, step)
    ensures var r := Apply(s, step);
            if step.Publish? || (step.PublishAsync? && !s.shut) then
              && r.taken == s.taken && |r.inbound| == |s.inbound| + 1 && r.inbound[..|s.inbound|] == s.inbound
              && (step.Publish? ==> step.address in s.pairs && r.inbound[|s.inbound|] == s.pairs[step.address].msg)
              && (step.PublishAsync? ==>
                    Carries(r.inbound[|s.inbound|], Request(step.channel, step.chat, step.content, step.meta)))
            else r.taken + r.inbound == s.taken + s.inbound
  {
    hide FromMeta, MetaFor;
  }

  lemma MessagesAgree(s: State, l: Log, step: Step)
    requires Enabled(s, step) && l.shut == s.shut && MessagesRight(s, l) && CallersRight(s, l)
    ensures MessagesRight(Apply(s, step), Noted(l, step))
  {
    InboundEffect(s, step);
    hide FromMeta, MetaFor, Apply, Enabled;
    var all, r, k := s.taken + s.inbound, Apply(s, step), Noted(l, step);
    if step.Publish? || (step.PublishAsync? && !s.shut) {
      var msg := r.inbound[|s.inbound|];
      assert r.taken + r.inbound == all + [msg];
      assert Carries(msg, k.asked[|l.asked|]);
      hide Carries;
      forall i | 0 <= i < |k.asked| ensures Carries((all + [msg])[i], k.asked[i]) {}
    }
  }

  /** The reply that a step adds answers the request in the worker's hands. */
  lemma NewReply(s: State, l: Log, step: Step)
    requires Enabled(s, step) && (step.Deliver? || step.Post?) && MessagesRight(s, l) && RepliesRight(s, l)
    ensures var r, n := Apply(s, step), |s.replies|;
            n < |l.asked| && n < |l.answers| && |r.replies| == n + 1 && Answers(l.asked[n], l.answers[n], r.replies[n])
  {
    hide FromMeta, MetaFor;
    assert (s.taken + s.inbound)[|s.replies|] == s.worker.msg;
    assert Carries((s.taken + s.inbound)[|s.replies|], l.asked[|s.replies|]);
  }

  lemma NotedEffect(l: Log, step: Step)
    ensures var k := Noted(l, step);
            && |l.asked| <= |k.asked| && k.asked[..|l.asked|] == l.asked
            && k.answers == l.answers + if step.Answer? then [step.response] else []
  {
    hide MetaFor;
    assert l.answers + [] == l.answers;
  }

  lemma RepliesAgree(s: State, l: Log, step: Step)
    requires Enabled(s, step) && MessagesRight(s, l) && RepliesRight(s, l)
    ensures RepliesRight(Apply(s, step), Noted(l, step))
  {
    WorkerRecord(s, step);
    WorkerEffect(s, step);
    RecordEffect(s, step);
    NotedEffect(l, step);
    if step.Deliver? || step.Post? { NewReply(s, l, step); }
    hide FromMeta, MetaFor, Apply, Enabled, Answers, Noted;
    assert |s.taken| <= |l.asked|;
    hide MessagesRight;
    var r, k := Apply(s, step), Noted(l, step);
    forall i | 0 <= i < |r.replies| ensures Answers(k.asked[i], k.answers[i], r.replies[i]) {
      assert k.asked[i] == l.asked[i] && k.answers[i] == l.answers[i];
      if i < |s.replies| { assert r.replies[i] == s.replies[i]; }
    }
  }

  /** What a step does to the outbound queue. */
  lemma OutboundEffect(s: State, step: Step)
    requires Enabled(s, step)
    ensures var r := Apply(s, step);
            if step.Deliver? || step.Post? then
              && |r.replies| == |s.replies| + 1 && r.replies[..|s.replies|] == s.replies
              && var reply := r.replies[|s.replies|];
                 r.outbound == s.outbound + (if reply.Posted? then [reply.out] else [])
            else
              && r.replies == s.replies && (step.ConsumeOutbound? ==> s.outbound != [] && r.outbound == s.outbound[1..])
              && (!step.ConsumeOutbound? ==> r.outbound == s.outbound)
  {
    hide FromMeta, MetaFor;
    assert s.outbound + [] == s.outbound;
  }

  lemma PostsAgree(s: State, l: Log, step: Step)
    requires Enabled(s, step) && PostsRight(s, l)
    ensures PostsRight(Apply(s, step), Noted(l, step))
  {
    OutboundEffect(s, step);
    assert Noted(l, step).dispatched == l.dispatched + if step.ConsumeOutbound? then 1 else 0;
    hide Apply, Enabled, Noted;
    var r := Apply(s, step);
    if step.Deliver? || step.Post? {
      var more := if r.replies[|s.replies|].Posted? then [r.replies[|s.replies|].out] else [];
      assert Posts(r.replies) == Posts(s.replies) + more;
      hide Posts;
      assert (Posts(s.replies) + more)[l.dispatched..] == Posts(s.replies)[l.dispatched..] + more;
    }
  }

  lemma ShutAgrees(s: State, l: Log, step: Step)
    requires Enabled(s, step) && l.shut == s.shut
    ensures Noted(l, step).shut == Apply(s, step).shut
  {
    hide FromMeta, MetaFor;
  }

  lemma StepAgrees(s: State, l: Log, step: Step)
    requires Agrees(s, l) && Enabled(s, step)
    ensures Agrees(Apply(s, step), Noted(l, step))
  {
    ShutAgrees(s, l, step);
    hide Apply, Enabled, Noted, MessagesRight, RepliesRight, PostsRight, CallersRight;
    CallersAgree(s, l, step);
    MessagesAgree(s, l, step);
    RepliesAgree(s, l, step);
    PostsAgree(s, l, step);
  }

  lemma {:induction false} RunAgrees(s: State, l: Log, steps: seq<Step>)
    requires Agrees(s, l) && Exec(s, steps).Some?
    ensures Agrees(Exec(s, steps).value, LogOf(l, steps))
    decreases |steps|
  {
    hide Apply, Enabled, Noted, Agrees;
    if steps != [] {
      StepAgrees(s, l, steps[0]);
      RunAgrees(Apply(s, steps[0]), Noted(l, steps[0]), steps[1..]);
    }
  }

  /** Over every run, tags or not: the messages that the worker has taken and those still queued are what
      was asked, in order; the i-th reply answers the i-th request with the i-th answer of the agent; and
      the outbound queue holds the posted replies in order, from the first that the dispatcher has not
      taken. */
  lemma EachAnswered(steps: seq<Step>)
    requires Exec(START, steps).Some?
    ensures var s, l := Exec(START, steps).value, LogOf(NOTHING, steps);
            && MessagesRight(s, l) && PostsRight(s, l)
            && |s.replies| <= |l.answers| <= |l.asked| && |l.answers| <= |s.replies| + 1
            && (forall i :: 0 <= i < |s.replies| ==> Answers(l.asked[i], l.answers[i], s.replies[i]))
  {
    assert Agrees(START, NOTHING);
    RunAgrees(START, NOTHING, steps);
  }

  /** What a caller asks for, and the answer that it is about to collect. */
  ghost predicate Served(s: State, l: Log, a: Addr, i: nat) {
    && a in s.pairs && a in l.prepared && i < |l.asked| && i < |l.answers|
    && l.asked[i] == l.prepared[a] && s.pairs[a].response == l.answers[i]
  }

  /** Over every clean run, what a synchronous caller finds in its pair once that is done is the agent's
      answer to the caller's own last request. */
  lemma CallerServed(steps: seq<Step>, a: Addr)
    requires Exec(START, steps).Some? && Clean(steps)
    requires a in Exec(START, steps).value.pairs && Exec(START, steps).value.pairs[a].done
    ensures exists i :: Served(Exec(START, steps).value, LogOf(NOTHING, steps), a, i)
  {
    ExchangeSafe(steps);
    assert Agrees(START, NOTHING);
    RunAgrees(START, NOTHING, steps);
    var s, l := Exec(START, steps).value, LogOf(NOTHING, steps);
    hide FromMeta, Exec, LogOf, PostsRight;
    assert HasAnswer(s, a, s.pairs[a]);
    var c := s.pairs[a];
    var i :| 0 <= i < |s.replies| && i < |s.taken| && s.taken[i] == c.msg && s.replies[i] == Delivered(a, c.response);
    assert (s.taken + s.inbound)[i] == c.msg && Carries((s.taken + s.inbound)[i], l.asked[i]);
    assert Answers(l.asked[i], l.answers[i], s.replies[i]);
    assert Served(s, l, a, i);
  }
}
