/**
 Who frees a message: the worker once it has answered it, or the queue when it refuses it; and the
 command line once more (src/cli/main.c).
 */
module MessageFrees {
  import opened Exchange

  function Ids(msgs: seq<InMsg>): multiset<nat> {
    if msgs == [] then multiset{} else multiset{msgs[0].id} + Ids(msgs[1..])
  }

  lemma {:induction false} IdsAppend(msgs: seq<InMsg>, msg: InMsg)
    ensures Ids(msgs + [msg]) == Ids(msgs) + multiset{msg.id}
  {
    if msgs == [] {
      assert [] + [msg] == [msg] && [msg][1..] == [];
    } else {
      assert (msgs + [msg])[1..] == msgs[1..] + [msg];
      IdsAppend(msgs[1..], msg);
    }
  }

  /** The message belongs to a caller that is yet to publish it. */
  ghost predicate Unsent(pairs: map<Addr, Caller>, id: nat) {
    exists a :: a in pairs && pairs[a].Preparing? && pairs[a].msg.id == id
  }

  function One(b: bool): nat { if b then 1 else 0 }

  /** Every message that was made is either with its caller, or in flight, or freed, and that once;
      those that were refused to the command line are freed once more. */
  ghost predicate Conserved(s: State, id: nat) {
    Ids(Held(s))[id] + One(Unsent(s.pairs, id)) + s.freed[id] == One(id < s.nextId) + One(id in s.refused)
  }

  /** No two callers are about to publish the same message. */
  ghost predicate Apart(pairs: map<Addr, Caller>) {
    forall a, b :: a in pairs && b in pairs && a != b && pairs[a].Preparing? && pairs[b].Preparing? ==>
      pairs[a].msg.id != pairs[b].msg.id
  }

  ghost predicate Owned(s: State) {
    && (forall id :: id in s.refused ==> s.freed[id] == 2)
    && Apart(s.pairs)
    && (forall id :: Conserved(s, id))
  }

  /** A message moves from its caller to where `step` sends it. */
  lemma Moved(pairs: map<Addr, Caller>, next: map<Addr, Caller>, a: Addr, id: nat)
    requires a in pairs && pairs[a].Preparing?
    requires Apart(pairs)
    requires forall b :: b != a ==> (b in next <==> b in pairs) && (b in pairs ==> next[b] == pairs[b])
    requires a in next ==> next[a].Blocked?
    ensures Unsent(next, id) == (Unsent(pairs, id) && id != pairs[a].msg.id)
  {
    if Unsent(pairs, id) && id != pairs[a].msg.id {
      var b :| b in pairs && pairs[b].Preparing? && pairs[b].msg.id == id;
      assert b in next && next[b].Preparing?;
    }
    if Unsent(next, id) {
      var b :| b in next && next[b].Preparing? && next[b].msg.id == id;
      assert b in pairs && pairs[b].Preparing?;
    }
  }

  /** Callers that are yet to publish stay as they are. */
  lemma Stayed(pairs: map<Addr, Caller>, next: map<Addr, Caller>, id: nat)
    requires forall b :: b in pairs && pairs[b].Preparing? ==>
               b in next && next[b].Preparing? && next[b].msg == pairs[b].msg
    requires forall b :: b in next && next[b].Preparing? ==> b in pairs && pairs[b].Preparing?
    ensures Unsent(next, id) == Unsent(pairs, id)
  {
    if Unsent(pairs, id) {
      var b :| b in pairs && pairs[b].Preparing? && pairs[b].msg.id == id;
      assert b in next && next[b].Preparing? && next[b].msg.id == id;
    }
    if Unsent(next, id) {
      var b :| b in next && next[b].Preparing? && next[b].msg.id == id;
      assert b in pairs && pairs[b].Preparing? && pairs[b].msg.id == id;
    }
  }

  lemma BeginKeeps(s: State, step: Step)
    requires Owned(s) && step.Begin? && Enabled(s, step)
    ensures Owned(Apply(s, step))
  {
    var r, a := Apply(s, step), step.address;
    assert Held(r) == Held(s) && r.freed == s.freed && r.refused == s.refused && r.nextId == s.nextId + 1;
    assert r.pairs == s.pairs[a := r.pairs[a]] && r.pairs[a].Preparing? && r.pairs[a].msg.id == s.nextId;
    hide FromMeta, MetaFor, Ids, Held, Apply, Enabled;
    FreshId(s, a, r.pairs);
    assert Conserved(s, s.nextId);
    forall id ensures Conserved(r, id) {
      assert Conserved(s, id);
      Moved(r.pairs, s.pairs, a, id);
      assert id == s.nextId ==> Unsent(r.pairs, id) by { assert a in r.pairs; }
    }
  }

  lemma FreshId(s: State, a: Addr, next: map<Addr, Caller>)
    requires Owned(s) && a !in s.pairs && a in next && next == s.pairs[a := next[a]] && next[a].msg.id == s.nextId
    ensures Apart(next)
  {
    hide Ids, Held;
    forall b | b in s.pairs && s.pairs[b].Preparing? ensures s.pairs[b].msg.id != s.nextId {
      assert Conserved(s, s.pairs[b].msg.id) && Unsent(s.pairs, s.pairs[b].msg.id);
    }
  }

  /** What publishing does to the pairs, and to the books. */
  lemma SentPairs(s: State, step: Step)
    requires (step.Publish? || step.PublishRefused?) && Enabled(s, step)
    ensures var r, a := Apply(s, step), step.address;
            && a in s.pairs && s.pairs[a].Preparing?
            && (forall b :: b != a ==> (b in r.pairs <==> b in s.pairs) && (b in s.pairs ==> r.pairs[b] == s.pairs[b]))
            && (a in r.pairs ==> r.pairs[a].Blocked?)
  {
    hide FromMeta, MetaFor;
  }

  lemma SentEffect(s: State, step: Step)
    requires (step.Publish? || step.PublishRefused?) && Enabled(s, step)
    ensures var r, a, id := Apply(s, step), step.address, s.pairs[step.address].msg.id;
            && r.nextId == s.nextId
            && Ids(Held(r)) == Ids(Held(s)) + (if step.Publish? then multiset{id} else multiset{})
            && (if step.Publish? then r.freed == s.freed && r.refused == s.refused
                else if s.pairs[a].kind.Cli? then r.freed == s.freed + multiset{id, id} && r.refused == s.refused + {id}
                else r.freed == s.freed + multiset{id} && r.refused == s.refused)
  {
    var r, msg := Apply(s, step), s.pairs[step.address].msg;
    if step.Publish? {
      PublishEffect(s, step);
      IdsAppend(Held(s), msg);
    } else {
      assert Held(r) == Held(s);
    }
    hide Ids, Held, FromMeta, MetaFor;
  }

  lemma SentKeeps(s: State, step: Step)
    requires Owned(s) && (step.Publish? || step.PublishRefused?) && Enabled(s, step)
    ensures Owned(Apply(s, step))
  {
    hide FromMeta, MetaFor, Ids, Held, Apply, Enabled, Conserved;
    var a, r := step.address, Apply(s, step);
    SentPairs(s, step);
    assert Apart(r.pairs);
    forall id ensures Conserved(r, id) && (id in r.refused ==> r.freed[id] == 2) {
      assert Conserved(s, id) && (id in s.refused ==> s.freed[id] == 2);
      Moved(s.pairs, r.pairs, a, id);
      hide Unsent;
      SentBooks(s, step, id);
    }
  }

  lemma SentBooks(s: State, step: Step, id: nat)
    requires (step.Publish? || step.PublishRefused?) && Enabled(s, step)
    requires Conserved(s, id) && (id in s.refused ==> s.freed[id] == 2)
    requires Unsent(Apply(s, step).pairs, id) == (Unsent(s.pairs, id) && id != s.pairs[step.address].msg.id)
    ensures var r := Apply(s, step); Conserved(r, id) && (id in r.refused ==> r.freed[id] == 2)
  {
    assert id == s.pairs[step.address].msg.id ==> Unsent(s.pairs, id) by { assert step.address in s.pairs; }
    hide FromMeta, MetaFor, Ids, Held, Apply, Enabled, Unsent;
    SentCounts(s, step, id);
  }

  lemma SentCounts(s: State, step: Step, id: nat)
    requires (step.Publish? || step.PublishRefused?) && Enabled(s, step)
    ensures var r, own := Apply(s, step), id == s.pairs[step.address].msg.id;
            var cli := s.pairs[step.address].kind.Cli?;
            && r.nextId == s.nextId && Ids(Held(r))[id] == Ids(Held(s))[id] + One(own && step.Publish?)
            && r.freed[id] == s.freed[id] + One(own && !step.Publish?) + One(own && !step.Publish? && cli)
            && (id in r.refused <==> id in s.refused || (own && !step.Publish? && cli))
  {
    hide FromMeta, MetaFor, Ids, Held, Apply, Enabled;
    SentEffect(s, step);
  }

  lemma AsyncKeeps(s: State, step: Step)
    requires Owned(s) && step.PublishAsync? && Enabled(s, step)
    ensures Owned(Apply(s, step))
  {
    hide FromMeta, MetaFor, Ids, Held, Apply, Conserved, Enabled;
    assert Apply(s, step).pairs == s.pairs by { AsyncEffects(s, step); }
    forall id ensures var r := Apply(s, step); Conserved(r, id) && (id in r.refused ==> r.freed[id] == 2) {
      assert Conserved(s, id) && (id in s.refused ==> s.freed[id] == 2);
      AsyncBooks(s, step, id);
    }
  }

  lemma AsyncEffects(s: State, step: Step)
    requires step.PublishAsync? && Enabled(s, step)
    ensures var r := Apply(s, step);
            && r.pairs == s.pairs && r.refused == s.refused && r.nextId == s.nextId + 1
            && Ids(Held(r)) == Ids(Held(s)) + (if s.shut then multiset{} else multiset{s.nextId})
            && r.freed == s.freed + (if s.shut then multiset{s.nextId} else multiset{})
  {
    var msg := InMsg(s.nextId, step.channel, step.chat, step.content, step.meta);
    IdsAppend(Held(s), msg);
    hide Ids, FromMeta;
    assert Held(Apply(s, step)) == if s.shut then Held(s) else Held(s) + [msg];
  }

  lemma AsyncBooks(s: State, step: Step, id: nat)
    requires step.PublishAsync? && Enabled(s, step) && Conserved(s, id) && (id in s.refused ==> s.freed[id] == 2)
    ensures var r := Apply(s, step); Conserved(r, id) && (id in r.refused ==> r.freed[id] == 2)
  {
    hide FromMeta, MetaFor, Ids, Held, Apply, Enabled, Unsent;
    AsyncEffects(s, step);
  }

  lemma ReplyKeeps(s: State, step: Step)
    requires Owned(s) && (step.Deliver? || step.Post?) && Enabled(s, step)
    ensures Owned(Apply(s, step))
  {
    hide FromMeta, MetaFor, Ids, Held, Apply, Enabled, Conserved;
    var r := Apply(s, step);
    SamePairs(s, step);
    forall id ensures Conserved(r, id) && (id in r.refused ==> r.freed[id] == 2) {
      assert Conserved(s, id) && (id in s.refused ==> s.freed[id] == 2);
      Stayed(s.pairs, r.pairs, id);
      hide Unsent;
      ReplyBooks(s, step, id);
    }
  }

  lemma ReplyBooks(s: State, step: Step, id: nat)
    requires (step.Deliver? || step.Post?) && Enabled(s, step) && Conserved(s, id)
          && (id in s.refused ==> s.freed[id] == 2)
    requires Unsent(Apply(s, step).pairs, id) == Unsent(s.pairs, id)
    ensures var r := Apply(s, step); Conserved(r, id) && (id in r.refused ==> r.freed[id] == 2)
  {
    hide FromMeta, MetaFor, Ids, Held, Apply, Enabled, Unsent;
    ReplyBook(s, step);
  }

  lemma ReplyBook(s: State, step: Step)
    requires (step.Deliver? || step.Post?) && Enabled(s, step)
    ensures var r, n := Apply(s, step), s.worker.msg.id;
            && r.freed == s.freed + multiset{n} && r.refused == s.refused && r.nextId == s.nextId
            && Ids(Held(s)) == multiset{n} + Ids(Held(r))
  {
    hide FromMeta, MetaFor;
    assert Held(s) != [] && Held(s)[0] == s.worker.msg
        && Held(s)[1..] == Held(Apply(s, step)) by { ReplyEffect(s, step); }
  }

  /** Who is yet to publish what is not changed by any other step. */
  lemma SamePairs(s: State, step: Step)
    requires Enabled(s, step) && !step.Begin? && !step.Publish? && !step.PublishRefused?
    ensures var r := Apply(s, step);
            && (forall b :: b in s.pairs && s.pairs[b].Preparing? ==>
                  b in r.pairs && r.pairs[b].Preparing? && r.pairs[b].msg == s.pairs[b].msg)
            && (forall b :: b in r.pairs && r.pairs[b].Preparing? ==> b in s.pairs && s.pairs[b].Preparing?)
  {
    hide FromMeta, MetaFor;
  }

  lemma QuietKeeps(s: State, step: Step)
    requires Owned(s) && Enabled(s, step)
    requires step.Collect? || step.Take? || step.Answer? || step.ConsumeOutbound? || step.Shutdown? || step.Stop?
    ensures Owned(Apply(s, step))
  {
    var r := Apply(s, step);
    assert r.freed == s.freed && r.refused == s.refused && r.nextId == s.nextId;
    OtherEffect(s, step);
    SamePairs(s, step);
    hide FromMeta, MetaFor, Ids, Held, Apply, Enabled;
    forall id ensures Conserved(r, id) {
      assert Conserved(s, id);
      Stayed(s.pairs, r.pairs, id);
    }
  }

  lemma {:induction false} RunOwned(s: State, steps: seq<Step>)
    requires Owned(s) && Exec(s, steps).Some?
    ensures Owned(Exec(s, steps).value)
    decreases |steps|
  {
    hide Owned, Apply, Enabled;
    if steps != [] {
      var step := steps[0];
      if step.Begin? {
        BeginKeeps(s, step);
      } else if step.Publish? || step.PublishRefused? {
        SentKeeps(s, step);
      } else if step.PublishAsync? {
        AsyncKeeps(s, step);
      } else if step.Deliver? || step.Post? {
        ReplyKeeps(s, step);
      } else {
        QuietKeeps(s, step);
      }
      RunOwned(Apply(s, step), steps[1..]);
    }
  }

  /** Over every run, with or without tags: a message that is with its caller or in flight has not
      been freed, every other one has, and it was freed twice if and only if the bus refused it to
      the command line. */
  lemma FreedExactly(steps: seq<Step>, id: nat)
    requires Exec(START, steps).Some?
    ensures var s := Exec(START, steps).value;
            && (id in Ids(Held(s)) || Unsent(s.pairs, id) || id >= s.nextId ==> s.freed[id] == 0)
            && (id < s.nextId && id !in Ids(Held(s)) && !Unsent(s.pairs, id) ==>
                  s.freed[id] == if id in s.refused then 2 else 1)
  {
    assert Owned(START) by { forall id ensures Conserved(START, id) {} }
    RunOwned(START, steps);
    hide Exec, Ids, Held;
    var s := Exec(START, steps).value;
    assert Conserved(s, id);
  }

  /** A refused message of the command line is freed twice. */
  lemma RefusedFreedTwice(a: Addr)
    ensures exists steps :: Exec(START, steps).Some? && Exec(START, steps).value.freed[0] == 2
  {
    var b, c, d := Begin(a, Cli, [], [], []), Shutdown, PublishRefused(a);
    var s1 := Apply(START, b);
    var s2 := Apply(s1, c);
    assert [b, c, d][1..] == [c, d] && [c, d][1..] == [d] && [d][1..] == [];
    assert Exec(START, [b, c, d]) == Exec(s1, [c, d]) == Exec(s2, [d]) == Exec(Apply(s2, d), []);
    assert Apply(s2, d).freed[0] == 2;
  }
}
