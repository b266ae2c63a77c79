/**
 What an asynchronous message with a tag in its metadata does to the exchange of requests and
 replies: the law of `ExchangeSafe` fails exactly with such messages.
 */
module TaggedMessages {
  import opened Bytes
  import opened Options
  import opened RingQueue
  import opened Exchange

  /** Some clean run leads from `s` to `t`. */
  ghost predicate Reaches(s: State, t: State) {
    exists steps :: Clean(steps) && Exec(s, steps) == Some(t)
  }

  lemma {:induction false} ExecSplit(s: State, a: seq<Step>, b: seq<Step>)
    requires Exec(s, a).Some?
    ensures Exec(s, a + b) == Exec(Exec(s, a).value, b)
    decreases |a|
  {
    hide Apply, Enabled;
    if a == [] {
      assert a + b == b;
    } else {
      assert (a + b)[0] == a[0] && (a + b)[1..] == a[1..] + b;
      ExecSplit(Apply(s, a[0]), a[1..], b);
    }
  }

  lemma ReachesSelf(s: State)
    ensures Reaches(s, s)
  {
    assert Exec(s, []) == Some(s) && Clean([]);
  }

  lemma ReachesOn(s: State, t: State, u: State)
    requires Reaches(s, t) && Reaches(t, u)
    ensures Reaches(s, u)
  {
    hide Exec;
    var a :| Clean(a) && Exec(s, a) == Some(t);
    var b :| Clean(b) && Exec(t, b) == Some(u);
    ExecSplit(s, a, b);
    assert Clean(a + b) && Exec(s, a + b) == Some(u);
  }

  lemma OneStep(s: State, step: Step)
    requires Enabled(s, step) && Untagged(step)
    ensures Reaches(s, Apply(s, step))
  {
    hide Apply, Enabled;
    assert [step][1..] == [] && Exec(s, [step]) == Exec(Apply(s, step), []) == Some(Apply(s, step));
    assert Clean([step]);
  }

  // ---- The worker catches up -------------------------------------------------------------

  /** `t` comes from `s` by answering messages alone: the pairs are the same but for the answers in
      them, and every pair that one of `answered` names has its answer. */
  ghost predicate Follows(s: State, t: State, answered: seq<InMsg>) {
    && t.shut == s.shut && t.pairs.Keys == s.pairs.Keys
    && (forall a :: a in s.pairs ==>
          && t.pairs[a].Blocked? == s.pairs[a].Blocked? && t.pairs[a].msg == s.pairs[a].msg
          && (s.pairs[a].done ==> t.pairs[a].done)
          && (forall i :: 0 <= i < |answered| && TagOf(answered[i]) == Some(a) ==> t.pairs[a].done))
  }

  lemma FollowsOn(s: State, t: State, u: State, a: seq<InMsg>, b: seq<InMsg>)
    requires Follows(s, t, a) && Follows(t, u, b)
    ensures Follows(s, u, a + b)
  {
    hide FromMeta;
    forall x, i | x in s.pairs && 0 <= i < |a + b| && TagOf((a + b)[i]) == Some(x) ensures u.pairs[x].done {
      if i < |a| { assert a[i] == (a + b)[i]; } else { assert b[i - |a|] == (a + b)[i]; }
    }
  }

  /** The worker at work on the last message in flight. */
  ghost predicate AtLast(s: State, t: State) {
    && Held(s) != [] && t.worker.Answered? && t.inbound == [] && t.worker.msg == Held(s)[|Held(s)| - 1]
    && Follows(s, t, Held(s)[..|Held(s)| - 1])
  }

  lemma Taken(s: State)
    requires s.worker.Waiting? && s.inbound != []
    ensures var t := Apply(s, Take); Reaches(s, t) && Held(t) == Held(s) && Follows(s, t, []) && t.worker.Busy?
  {
    hide FromMeta, MetaFor;
    OneStep(s, Take);
    assert s.inbound == [s.inbound[0]] + s.inbound[1..];
  }

  lemma Replied(s: State)
    requires s.worker.Busy?
    ensures var t := Apply(s, Answer(None));
            Reaches(s, t) && Held(t) == Held(s) && Follows(s, t, []) && t.worker.Answered?
  {
    hide FromMeta, MetaFor;
    OneStep(s, Answer(None));
  }

  lemma RoomMade(s: State)
    requires s.worker.Answered? && s.outbound != []
    ensures var t := Apply(s, ConsumeOutbound);
            Reaches(s, t) && Held(t) == Held(s) && Follows(s, t, []) && t.worker == s.worker
                && |t.outbound| < |s.outbound|
  {
    hide FromMeta, MetaFor;
    OneStep(s, ConsumeOutbound);
  }

  lemma Served(s: State)
    requires s.worker.Answered? && |s.outbound| < QUEUE_DEPTH
    ensures var step := if TagOf(s.worker.msg).Some? then Deliver else Post(true);
            Enabled(s, step) && var t := Apply(s, step);
            Reaches(s, t) && Held(t) == Held(s)[1..] && Follows(s, t, [s.worker.msg]) && t.worker.Waiting?
  {
    hide FromMeta, MetaFor;
    OneStep(s, if TagOf(s.worker.msg).Some? then Deliver else Post(true));
  }

  /** Steps that the worker still has to make before it answers the message in its hands. */
  function Ahead(s: State): nat {
    |s.outbound| + if s.worker.Waiting? then 2 else if s.worker.Busy? then 1 else 0
  }

  /** The worker gets ahead: it answers a message, or comes closer to it. */
  lemma GetsAhead(s: State) returns (u: State, answered: seq<InMsg>)
    requires !s.worker.Stopped? && Held(s) != [] && !(s.worker.Answered? && s.inbound == [])
    ensures Reaches(s, u) && Follows(s, u, answered) && Held(s) == answered + Held(u)
    ensures !u.worker.Stopped? && Held(u) != []
    ensures |Held(u)| < |Held(s)| || (|Held(u)| == |Held(s)| && Ahead(u) < Ahead(s))
  {
    answered := [];
    if s.worker.Waiting? {
      Taken(s);
      u := Apply(s, Take);
    } else if s.worker.Busy? {
      Replied(s);
      u := Apply(s, Answer(None));
    } else if |s.outbound| >= QUEUE_DEPTH {
      RoomMade(s);
      u := Apply(s, ConsumeOutbound);
    } else {
      Served(s);
      answered := [s.worker.msg];
      u := Apply(s, if TagOf(s.worker.msg).Some? then Deliver else Post(true));
      assert [s.worker.msg] + Held(s)[1..] == Held(s) && |Held(s)| > 1;
    }
    hide Reaches, Follows, FromMeta;
  }

  /** However much is queued, the worker can get to the last message. */
  lemma {:induction false} CatchesUp(s: State) returns (t: State)
    requires !s.worker.Stopped? && Held(s) != []
    ensures Reaches(s, t) && AtLast(s, t)
    decreases |Held(s)|, Ahead(s)
  {
    hide Apply, Enabled, Reaches, Follows, FromMeta, Held, AtLast;
    if s.worker.Answered? && s.inbound == [] {
      t := s;
      ReachesSelf(s);
      AlreadyLast(s);
    } else {
      var u, answered := GetsAhead(s);
      t := CatchesUp(u);
      AtLastOn(s, u, t, answered);
      ReachesOn(s, u, t);
    }
  }

  lemma AlreadyLast(s: State)
    requires s.worker.Answered? && s.inbound == []
    ensures AtLast(s, s)
  {
    hide FromMeta;
    assert Held(s)[..|Held(s)| - 1] == [];
  }

  lemma AtLastOn(s: State, u: State, t: State, answered: seq<InMsg>)
    requires Held(s) == answered + Held(u) && Follows(s, u, answered) && AtLast(u, t)
    ensures AtLast(s, t)
  {
    hide Follows, Held;
    var m := |Held(u)| - 1;
    FollowsOn(s, u, t, answered, Held(u)[..m]);
    assert Held(s)[..|Held(s)| - 1] == answered + Held(u)[..m];
  }

  // ---- The tag is used -------------------------------------------------------------------

  /** The pair is gone when the worker uses its address. */
  lemma GoneBreaks(t: State)
    requires t.worker.Answered? && TagOf(t.worker.msg).Some? && TagOf(t.worker.msg).value !in t.pairs
    ensures exists u :: Reaches(t, u) && u.broken
  {
    hide FromMeta;
    OneStep(t, Deliver);
    assert Apply(t, Deliver).broken;
  }

  /** A caller that already has its answer may leave before the worker comes to the tag. */
  lemma CollectedBreaks(t: State, a: Addr)
    requires t.worker.Answered? && TagOf(t.worker.msg) == Some(a) && a in t.pairs && t.pairs[a].Blocked?
          && t.pairs[a].done
    ensures exists u :: Reaches(t, u) && u.broken
  {
    OneStep(t, Collect(a));
    var w := Apply(t, Collect(a));
    assert w.worker == t.worker && a !in w.pairs;
    hide FromMeta, Apply, Enabled, Reaches;
    GoneBreaks(w);
    var u :| Reaches(w, u) && u.broken;
    ReachesOn(t, w, u);
  }

  /** A caller that is yet to publish gets the answer of another message, leaves, and its own
      message then finds the pair gone. */
  lemma PreparingBreaks(t: State, a: Addr)
    requires t.worker.Answered? && t.inbound == [] && !t.shut && TagOf(t.worker.msg) == Some(a)
    requires a in t.pairs && t.pairs[a].Preparing? && t.pairs[a].msg.meta == MetaFor(a)
    ensures exists u :: Reaches(t, u) && u.broken
  {
    var own := t.pairs[a].msg;
    TagRoundTrip(a);
    hide FromMeta, MetaFor;
    OneStep(t, Deliver);
    var t1 := Apply(t, Deliver);
    OneStep(t1, Publish(a));
    var t2 := Apply(t1, Publish(a));
    assert t2.inbound == [own] && t2.pairs[a].Blocked? && t2.pairs[a].done && t2.worker.Waiting?;
    LateBreaks(t2, a, own);
    hide Apply, Enabled, Reaches;
    var u :| Reaches(t2, u) && u.broken;
    ReachesOn(t, t1, t2);
    ReachesOn(t, t2, u);
  }

  lemma LateBreaks(t: State, a: Addr, own: InMsg)
    requires t.worker.Waiting? && t.inbound == [own] && TagOf(own) == Some(a)
    requires a in t.pairs && t.pairs[a].Blocked? && t.pairs[a].done
    ensures exists u :: Reaches(t, u) && u.broken
  {
    hide FromMeta, MetaFor;
    OneStep(t, Take);
    var t1 := Apply(t, Take);
    OneStep(t1, Answer(None));
    var t2 := Apply(t1, Answer(None));
    assert t2.pairs == t.pairs && t2.worker == Answered(own, None);
    CollectedBreaks(t2, a);
    hide Apply, Enabled, Reaches;
    var u :| Reaches(t2, u) && u.broken;
    ReachesOn(t, t1, t2);
    ReachesOn(t, t2, u);
  }

  /** A message with a tag at the end of the queue. */
  lemma LastTagBreaks(s: State, s1: State, a: Addr)
    requires Inv(s) && !s.shut && !s.worker.Stopped? && s1.worker == s.worker && s1.pairs == s.pairs && !s1.shut
    requires |Held(s1)| == |Held(s)| + 1 && Held(s1)[..|Held(s)|] == Held(s) && TagOf(Held(s1)[|Held(s)|]) == Some(a)
    ensures exists u :: Reaches(s1, u) && u.broken
  {
    hide Apply, Enabled, Exec, Reaches, FromMeta, MetaFor, AllAwaited, OneReplyEach, OwnAnswers;
    var t := CatchesUp(s1);
    if a !in t.pairs {
      GoneBreaks(t);
    } else if t.pairs[a].Preparing? {
      assert s.pairs[a].msg.meta == MetaFor(a);
      PreparingBreaks(t, a);
    } else {
      if !s.pairs[a].done {
        assert s.pairs[a].msg in Held(s);
        var i :| 0 <= i < |Held(s)| && Held(s)[i] == s.pairs[a].msg;
        TagRoundTrip(a);
        assert Held(s1)[..|Held(s1)| - 1][i] == Held(s)[i];
      }
      CollectedBreaks(t, a);
    }
    var u :| Reaches(t, u) && u.broken;
    ReachesOn(s1, t, u);
  }

  /** After any clean run in which the bus is open and the worker has not stopped, publishing an
      asynchronous message is safe, whatever clean run follows, if and only if it carries no tag:
      with a tag some run ends with the worker touching a pair that is gone. */
  lemma PublishSafeExactly(steps: seq<Step>, step: Step)
    requires Exec(START, steps).Some? && Clean(steps) && step.PublishAsync?
    requires var s := Exec(START, steps).value; Enabled(s, step) && !s.shut && !s.worker.Stopped?
    ensures FromMeta(step.meta).None? <==>
            forall u :: Reaches(Apply(Exec(START, steps).value, step), u) ==> !u.broken
  {
    StartInv();
    RunKeeps(START, steps);
    var s := Exec(START, steps).value;
    var s1 := Apply(s, step);
    AsyncEffect(s, step);
    if FromMeta(step.meta).None? {
      StepKeeps(s, step);
      hide Exec, Apply, Enabled, FromMeta, AllAwaited, PairsRight, OnTheWay, OneReplyEach, OwnAnswers;
      forall u | Reaches(s1, u) ensures !u.broken {
        var more :| Clean(more) && Exec(s1, more) == Some(u);
        RunKeeps(s1, more);
      }
    } else {
      assert s1.worker == s.worker && !s1.shut;
      hide Exec, Apply, Enabled, FromMeta, Inv, Held, Reaches;
      LastTagBreaks(s, s1, FromMeta(step.meta).value);
    }
  }

  /** So a WhatsApp message whose reply address is "rp=1" can break the exchange from the start. */
  lemma WhatsAppBreaks(channel: Text, chat: Text, content: Text)
    ensures var step := PublishAsync(channel, chat, content, WhatsAppMeta(TAG + HexText(1)));
            Enabled(START, step) && exists u :: Reaches(Apply(START, step), u) && u.broken
  {
    hide WhatsAppMeta, FromMeta, Reaches, Apply, HexText;
    var step := PublishAsync(channel, chat, content, WhatsAppMeta(TAG + HexText(1)));
    WhatsAppTagged();
    assert Exec(START, []) == Some(START) && Enabled(START, step);
    hide Exec, Enabled;
    PublishSafeExactly([], step);
  }
}
