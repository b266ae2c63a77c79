/**
 Which tool results keep their tool call next to them in the histories that src/agent/agent.c
 sends: exactly when a compaction splits a group, and what holds over whole runs.
 */
module ToolPairs {
  import opened Bytes
  import opened Options
  import opened AgentHistory

  predicate IsTool(m: Message) { m.role == Tool }

  /** Every tool result comes right after a message with tool calls or after another result. */
  predicate Grouped(h: History) {
    forall i :: 0 <= i < |h| && IsTool(h[i]) ==> i > 0 && (IsTool(h[i - 1]) || HasCalls(h[i - 1]))
  }

  /** Every tool result is directly preceded by a message with tool calls. */
  predicate Paired(h: History) {
    forall i :: 0 <= i < |h| && IsTool(h[i]) ==> i > 0 && HasCalls(h[i - 1])
  }

  /** Every tool result comes right after a message with the very call that it answers. */
  predicate Matched(h: History) {
    forall i :: 0 <= i < |h| && IsTool(h[i]) ==> i > 0 && Settles(h[i - 1], h[i])
  }

  /** The result answers the one call of the message, by its id and its name. */
  predicate Settles(ask: Message, result: Message) {
    |ask.calls| == 1 && result.callId == ask.calls[0].id && result.name == ask.calls[0].name
  }

  /** Every message with tool calls is followed by a tool result. */
  predicate Complete(h: History) {
    forall i :: 0 <= i < |h| && HasCalls(h[i]) ==> i + 1 < |h| && IsTool(h[i + 1])
  }

  // ---- One compaction, one rollback ------------------------------------------------------

  /** Compaction keeps the grouping exactly when the first message after the cut is not a result. */
  lemma CompactSplits(h: History, limit: nat)
    requires h != [] && h[0].role == System && h[0].calls == [] && Grouped(h)
    ensures Grouped(Compact(h, limit)) <==> CutEnd(h, limit) == |h| || !IsTool(h[CutEnd(h, limit)])
  {
    var cut := CutEnd(h, limit);
    var g := Compact(h, limit);
    assert forall i :: 1 <= i < |g| ==> g[i] == h[i + cut - 1];
    if cut < |h| {
      assert g[1] == h[cut] && !IsTool(g[0]) && !HasCalls(g[1 - 1]);
      if !IsTool(h[cut]) {
        forall i | 0 <= i < |g| && IsTool(g[i]) ensures i > 0 && (IsTool(g[i - 1]) || HasCalls(g[i - 1])) {
          assert i > 1 && IsTool(h[i + cut - 1]) && g[i - 1] == h[i + cut - 2];
        }
      }
    }
  }

  /** Rolling back a history without unanswered calls leaves one exactly when the cut falls right
      behind a message with tool calls. */
  lemma RollbackSplits(h: History, pre: nat)
    requires Complete(h)
    ensures Complete(Rollback(h, pre)) <==> pre == 0 || pre >= |h| || !HasCalls(h[pre - 1])
  {
    if 0 < pre < |h| {
      var g := Rollback(h, pre);
      assert g[pre - 1] == h[pre - 1];
    }
  }

  /** What a turn adds leaves no call unanswered. */
  lemma {:induction false} AddedComplete(left: nat, answers: seq<Answer>)
    requires |answers| >= left
    ensures Complete(Added(left, answers))
    decreases left
  {
    if left > 0 && answers[0].Reply? && answers[0].called != [] {
      hide Added, Calls;
      var g, more := Group(answers[0]), Added(left - 1, answers[1..]);
      AddedComplete(left - 1, answers[1..]);
      assert Complete(g) by { assert forall i :: 1 <= i < |g| ==> g[i] == ResultMessage(answers[0].called[i - 1]); }
      CompleteJoin(g, more);
      assert Added(left, answers) == g + more by { AddedStep(left, answers); }
    }
  }

  lemma AddedStep(left: nat, answers: seq<Answer>)
    requires 0 < left <= |answers| && answers[0].Reply? && answers[0].called != []
    ensures Added(left, answers) == Group(answers[0]) + Added(left - 1, answers[1..])
  {
  }

  lemma CompleteJoin(a: History, b: History)
    requires Complete(a) && Complete(b)
    ensures Complete(a + b)
  {
    forall i | 0 <= i < |a + b| && HasCalls((a + b)[i]) ensures i + 1 < |a + b| && IsTool((a + b)[i + 1]) {
      if i < |a| { assert a[i] == (a + b)[i]; } else { assert b[i - |a|] == (a + b)[i]; }
    }
  }

  lemma KeptComplete(s: History, cut: nat)
    requires 1 <= cut <= |s| && Complete(s) && !HasCalls(s[0])
    ensures Complete(AgentHistory.Kept(s, cut))
  {
    var g := AgentHistory.Kept(s, cut);
    assert forall i :: 1 <= i < |g| ==> g[i] == s[i + cut - 1];
    forall i | 0 <= i < |g| && HasCalls(g[i]) ensures i + 1 < |g| && IsTool(g[i + 1]) {
      assert HasCalls(s[i + cut - 1]) && IsTool(s[i + cut - 1 + 1]);
    }
  }

  /** A failed turn from a history without unanswered calls leaves one if and only if, of all that was
      said, the message that compactions move to the end of the old count has tool calls and more
      follows. */
  lemma FailedTurnUnanswered(h: History, limit: nat, iterations: nat, prompt: Text, user: Text, answers: seq<Answer>)
    requires |answers| >= iterations && limit >= 1 && user != []
    requires var o := Chat(h, limit, iterations, prompt, user, answers).outcome; o.Failed? || o.GaveUp?
    requires Complete(h) && (h != [] ==> !HasCalls(h[0]))
    ensures var said, lost := Said(h, prompt, user, iterations, answers),
          Lost(h, limit, prompt, user, iterations, answers);
            (!Complete(Chat(h, limit, iterations, prompt, user, answers).history) <==>
               |h| >= 2 && |h| + lost < |said| && HasCalls(said[|h| + lost - 1]))
  {
    hide AddAll, Dropped, Added, Complete;
    var h0, ms := Opened(h, prompt), [UserMessage(user)] + Added(iterations, answers);
    var said, cut := h0 + ms, Dropped(h0, ms, limit);
    FailedTurn(h, limit, iterations, prompt, user, answers);
    AddAllShape(h0, ms, limit);
    hide Chat;
    SaidComplete(h, iterations, prompt, user, answers);
    KeptComplete(said, cut);
    var g := AgentHistory.Kept(said, cut);
    RollbackSplits(g, |h0|);
    assert |g| == |said| - cut + 1 && (|h0| >= 2 && |h0| <= |g| ==> g[|h0| - 1] == said[|h0| + cut - 2]);
  }

  lemma SaidComplete(h: History, iterations: nat, prompt: Text, user: Text, answers: seq<Answer>)
    requires |answers| >= iterations && Complete(h)
    ensures Complete(Opened(h, prompt) + ([UserMessage(user)] + Added(iterations, answers)))
  {
    AddedComplete(iterations, answers);
    assert Complete([UserMessage(user)]) && Complete(Opened(h, prompt));
    hide Complete, Added;
    CompleteJoin([UserMessage(user)], Added(iterations, answers));
    CompleteJoin(Opened(h, prompt), [UserMessage(user)] + Added(iterations, answers));
  }

  // ---- Whole runs of single-call turns ---------------------------------------------------

  datatype Turn = Say(prompt: Text, user: Text, answers: seq<Answer>) | NewConversation

  predicate SingleCalls(answers: seq<Answer>) {
    forall i :: 0 <= i < |answers| && answers[i].Reply? ==> |answers[i].called| <= 1
  }

  predicate Served(t: Turn, iterations: nat) { t.Say? ==> |t.answers| >= iterations }

  /** A run of an agent: the history it ends with, and all histories seen on the way. */
  datatype Trace = Trace(history: History, seen: seq<History>)

  function Run(turns: seq<Turn>, limit: nat, iterations: nat): Trace
    requires limit >= 1 && forall i :: 0 <= i < |turns| ==> Served(turns[i], iterations)
  {
    if turns == [] then Trace([], [])
    else
      var before := Run(turns[..|turns| - 1], limit, iterations);
      assert Served(turns[|turns| - 1], iterations);
      match turns[|turns| - 1]
      case NewConversation => Trace([], before.seen)
      case Say(prompt, user, answers) =>
        var r := Chat(before.history, limit, iterations, prompt, user, answers);
        Trace(r.history, before.seen + Seen(r))
  }

  /** Over every run, what the provider is shown and what a turn leaves fits the array, starts with
      the system message. */
  lemma {:induction false} RunBounded(turns: seq<Turn>, limit: nat, iterations: nat)
    requires limit >= 1 && forall i :: 0 <= i < |turns| ==> Served(turns[i], iterations)
    ensures var t := Run(turns, limit, iterations);
            Bounded(t.history, limit) && forall g :: g in t.seen ==> Bounded(g, limit)
  {
    if turns != [] {
      RunBounded(turns[..|turns| - 1], limit, iterations);
      var before := Run(turns[..|turns| - 1], limit, iterations);
      assert Served(turns[|turns| - 1], iterations);
      match turns[|turns| - 1]
      case NewConversation =>
      case Say(prompt, user, answers) =>
        if user != [] {
          AddBounded(Opened(before.history, prompt), UserMessage(user), limit);
          LoopBounded(Add(Opened(before.history, prompt), UserMessage(user), limit), |Opened(before.history, prompt)|,
                      iterations, answers, limit);
          hide Loop;
          assert Chat(before.history, limit, iterations, prompt, user, answers).history in
                 Seen(Chat(before.history, limit, iterations, prompt, user, answers));
        }
    }
  }

  /** What turns of single calls keep: results paired, and no two neighbours with tool calls. */
  predicate Steady(h: History) {
    && (h != [] ==> h[0].role == System && h[0].calls == [])
    && Matched(h)
    && forall i :: 0 <= i < |h| - 1 && HasCalls(h[i]) ==> !HasCalls(h[i + 1])
  }

  /** Whether a message may follow the end of a history. */
  predicate Fits(h: History, m: Message)
    requires h != []
  {
    && (IsTool(m) ==> Settles(h[|h| - 1], m))
    && (HasCalls(m) ==> !HasCalls(h[|h| - 1]))
  }

  lemma CompactSteady(h: History, limit: nat)
    requires limit >= 8 && |h| >= limit && Steady(h)
    ensures Steady(Compact(h, limit)) && Compact(h, limit)[|Compact(h, limit)| - 1] == h[|h| - 1]
    ensures |Compact(h, limit)| >= 2
  {
    var cut := CutEnd(h, limit);
    assert Quarter(limit) >= 2 && cut < |h|;
    if cut == 2 { assert HasCalls(h[1 + 1]); }
    assert !HasCalls(h[cut - 1]);
    SuffixSteady(h, cut);
  }

  lemma SuffixSteady(h: History, cut: nat)
    requires Steady(h) && 1 <= cut < |h| && !HasCalls(h[cut - 1])
    ensures var g := h[..1] + h[cut..]; Steady(g) && |g| >= 2 && g[|g| - 1] == h[|h| - 1]
  {
    var g := h[..1] + h[cut..];
    assert forall i :: 1 <= i < |g| ==> g[i] == h[i + cut - 1];
    forall i | 0 <= i < |g| && IsTool(g[i]) ensures i > 0 && Settles(g[i - 1], g[i]) {
      assert IsTool(h[i + cut - 1]) && Settles(h[i + cut - 2], h[i + cut - 1]);
      assert i > 1;
    }
    forall i | 0 <= i < |g| - 1 && HasCalls(g[i]) ensures !HasCalls(g[i + 1]) {
      assert HasCalls(h[i + cut - 1]) && !HasCalls(h[i + cut - 1 + 1]);
    }
  }

  lemma AddSteady(h: History, m: Message, limit: nat)
    requires limit >= 8 && h != [] && Steady(h) && Fits(h, m)
    ensures Steady(Add(h, m, limit)) && Add(h, m, limit) != [] && Add(h, m, limit)[|Add(h, m, limit)| - 1] == m
  {
    if |h| >= limit {
      CompactSteady(h, limit);
      hide Compact;
      assert Steady(Compact(h, limit) + [m]);
    }
  }

  lemma GroupSteady(h: History, a: Answer, limit: nat)
    requires limit >= 8 && h != [] && Steady(h) && !HasCalls(h[|h| - 1])
    requires a.Reply? && |a.called| == 1
    ensures var g := AddAll(h, Group(a), limit); Steady(g) && g != [] && !HasCalls(g[|g| - 1])
  {
    var ask, result := AssistantMessage(a.content, Calls(a.called)), ResultMessage(a.called[0]);
    assert Group(a)[0] == ask && Group(a)[1..] == [result] && [result][1..] == [];
    AddSteady(h, ask, limit);
    var g := Add(h, ask, limit);
    AddSteady(g, result, limit);
    hide Add;
    assert AddAll(h, Group(a), limit) == AddAll(g, [result], limit);
    assert AddAll(g, [result], limit) == AddAll(Add(g, result, limit), [], limit) == Add(g, result, limit);
  }

  lemma {:induction false} LoopSteady(h: History, pre: nat, left: nat, answers: seq<Answer>, limit: nat)
    requires |answers| >= left && limit >= 8 && SingleCalls(answers) && pre >= 1
    requires h != [] && Steady(h) && !HasCalls(h[|h| - 1])
    ensures forall g :: g in Seen(Loop(h, pre, left, answers, limit)) ==> Steady(g)
    decreases left
  {
    if left == 0 || answers[0].Failure? {
      assert Steady(Rollback(h, pre));
    } else if answers[0].called == [] {
      AddSteady(h, AssistantMessage(answers[0].content, []), limit);
    } else {
      GroupSteady(h, answers[0], limit);
      hide Steady;
      LoopSteady(AddAll(h, Group(answers[0]), limit), pre, left - 1, answers[1..], limit);
    }
  }

  lemma {:induction false} RunSteady(turns: seq<Turn>, limit: nat, iterations: nat)
    requires limit >= 8
    requires forall i :: 0 <= i < |turns| ==>
               Served(turns[i], iterations) && (turns[i].Say? ==> SingleCalls(turns[i].answers))
    ensures var t := Run(turns, limit, iterations);
            Steady(t.history) && forall g :: g in t.seen ==> Steady(g)
  {
    if turns != [] {
      RunSteady(turns[..|turns| - 1], limit, iterations);
      var before := Run(turns[..|turns| - 1], limit, iterations);
      assert Served(turns[|turns| - 1], iterations);
      match turns[|turns| - 1]
      case NewConversation =>
      case Say(prompt, user, answers) =>
        if user != [] {
          var h0 := Opened(before.history, prompt);
          AddSteady(h0, UserMessage(user), limit);
          hide Loop;
          LoopSteady(Add(h0, UserMessage(user), limit), |h0|, iterations, answers, limit);
          hide Steady;
          var r := Chat(before.history, limit, iterations, prompt, user, answers);
          assert r.history in Seen(r);
        }
    }
  }

  /** With a limit of at least 8 and one tool call per reply, over every run of chats, compactions,
      rollbacks and new conversations, each tool result that the provider is shown or that a turn
      leaves is directly preceded by the message with the very call that it answers. */
  lemma PairsKept(turns: seq<Turn>, limit: nat, iterations: nat)
    requires limit >= 8
    requires forall i :: 0 <= i < |turns| ==>
               Served(turns[i], iterations) && (turns[i].Say? ==> SingleCalls(turns[i].answers))
    ensures var t := Run(turns, limit, iterations);
            && Paired(t.history) && Matched(t.history)
            && forall g :: g in t.seen ==> Paired(g) && Matched(g)
  {
    RunSteady(turns, limit, iterations);
  }

  // ---- Where the pairs break -------------------------------------------------------------

  /** A reply with one tool call, and its two messages. */
  const ASK: Answer := Reply([], [Called(Call(None, None), [])])
  const DONE: Answer := Reply([], [])

  function Asks(n: nat): (a: seq<Answer>)
    ensures |a| == n + 1
    ensures SingleCalls(a)
  {
    if n == 0 then [DONE] else [ASK] + Asks(n - 1)
  }

  function Stream(n: nat): (ms: seq<Message>)
    ensures |ms| == 2 * n
    ensures n > 0 ==> ms[1] == ResultMessage(ASK.called[0])
  {
    if n == 0 then [] else
      assert Group(ASK) == [AssistantMessage([], Calls(ASK.called)), ResultMessage(ASK.called[0])];
      Group(ASK) + Stream(n - 1)
  }

  function Last(s: History, k: nat): History { if |s| <= k then s else s[|s| - k..] }

  lemma LastOfLast(s: History, t: History, k: nat)
    ensures Last(Last(s, k) + t, k) == Last(s + t, k)
  {
  }

  lemma SmallAdd(h: History, m: Message, limit: nat)
    requires 1 <= limit < 8 && 1 <= |h| <= Ceiling(limit)
    ensures var g := Add(h, m, limit);
            1 <= |g| <= Ceiling(limit) && g[..1] == h[..1] && g[1..] == Last(h[1..] + [m], Ceiling(limit) - 1)
  {
    hide Add, Last;
    SmallAddIs(h, m, limit);
    if |h| >= limit && |h| >= 2 { DropOne(h, m); } else { Appended(h, m, Ceiling(limit) - 1); }
  }

  lemma SmallAddIs(h: History, m: Message, limit: nat)
    requires 1 <= limit < 8 && h != []
    ensures Add(h, m, limit) == if |h| >= limit && |h| >= 2 then h[..1] + h[2..] + [m] else h + [m]
  {
    if |h| >= limit && |h| >= 2 { assert CutEnd(h, limit) == 2; }
  }

  lemma DropOne(h: History, m: Message)
    requires |h| >= 2
    ensures var g := h[..1] + h[2..] + [m]; |g| == |h| && g[..1] == h[..1] && g[1..] == Last(h[1..] + [m], |h| - 1)
  {
    var s := h[1..] + [m];
    assert |s| == |h| && s[1..] == h[2..] + [m];
  }

  lemma Appended(h: History, m: Message, k: nat)
    requires 1 <= |h| <= k
    ensures (h + [m])[..1] == h[..1] && (h + [m])[1..] == Last(h[1..] + [m], k)
  {
  }

  lemma WholeWindow(h: History, k: nat)
    requires 1 <= |h| <= k + 1
    ensures h == h[..1] + Last(h[1..] + [], k)
  {
    assert h[1..] + [] == h[1..];
  }

  lemma Regrouped(a: seq<Message>, m: Message, b: seq<Message>)
    ensures a + [m] + b == a + ([m] + b)
  {
  }

  /** Below 8, every compaction drops just one message: the history is a sliding window. */
  lemma {:induction false} SmallWindow(h: History, ms: seq<Message>, limit: nat)
    requires 1 <= limit < 8 && 1 <= |h| <= Ceiling(limit)
    ensures AddAll(h, ms, limit) == h[..1] + Last(h[1..] + ms, Ceiling(limit) - 1)
    decreases |ms|
  {
    var k := Ceiling(limit) - 1;
    hide Add, Last;
    if ms == [] {
      WholeWindow(h, k);
    } else {
      var g, m, rest := Add(h, ms[0], limit), ms[0], ms[1..];
      SmallAdd(h, m, limit);
      SmallWindow(g, rest, limit);
      assert AddAll(h, ms, limit) == h[..1] + Last(g[1..] + rest, k);
      hide AddAll;
      assert ms == [m] + rest;
      Regrouped(h[1..], m, rest);
      LastOfLast(h[1..] + [m], rest, k);
    }
  }

  lemma {:induction false} AsksSeen(h: History, pre: nat, n: nat, limit: nat)
    requires limit >= 1
    ensures var r := Loop(h, pre, n + 1, Asks(n), limit);
            && AddAll(h, Stream(n), limit) in r.sent
            && r.history == AddAll(h, Stream(n) + [AssistantMessage([], [])], limit)
    decreases n
  {
    var f := AssistantMessage([], []);
    AddAllSplit(h, Stream(n), [f], limit);
    var e := AddAll(h, Stream(n), limit);
    assert AddAll(e, [f], limit) == AddAll(Add(e, f, limit), [f][1..], limit) == Add(e, f, limit);
    if n > 0 {
      var g := AddAll(h, Group(ASK), limit);
      AsksSeen(g, pre, n - 1, limit);
      AddAllSplit(h, Group(ASK), Stream(n - 1), limit);
      AddAllSplit(g, Stream(n - 1), [f], limit);
      assert Asks(n)[1..] == Asks(n - 1) && Asks(n)[0] == ASK;
    }
  }

  /** The first message of the window is the third of the stream, the result of the first call. */
  lemma WindowOrphan(h: History, ms: seq<Message>, limit: nat)
    requires 1 <= limit < 8 && |h| == 2 && HasCalls(h[0]) == false && |ms| == Ceiling(limit) && IsTool(ms[1])
    ensures !Paired(AddAll(h, ms, limit))
  {
    var k := Ceiling(limit) - 1;
    SmallWindow(h, ms, limit);
    hide AddAll;
    var g := AddAll(h, ms, limit);
    var s := h[1..] + ms;
    assert |s| == k + 2 && s[2] == ms[1];
    assert g[1] == s[2] && IsTool(g[1]) && !HasCalls(g[1 - 1]);
  }

  /** For every limit below 8 some turn of single calls shows or leaves a result without its call. */
  lemma SmallLimitSplits(limit: nat)
    requires 1 <= limit < 8
    ensures exists n: nat, g :: g in Seen(Chat([], limit, n + 1, [], [1], Asks(n))) && !Paired(g)
  {
    var n := Ceiling(limit) / 2;
    var f := AssistantMessage([], []);
    var h := [SystemMessage([]), UserMessage([1])];
    AsksSeen(h, 1, n, limit);
    var r := Chat([], limit, n + 1, [], [1], Asks(n));
    assert r == Loop(h, 1, n + 1, Asks(n), limit) by {
      assert Add([SystemMessage([])], UserMessage([1]), limit) == h;
    }
    hide Loop, AddAll, Stream, Asks, Chat, Paired, Add;
    var ms := if Ceiling(limit) % 2 == 0 then Stream(n) else Stream(n) + [f];
    WindowOrphan(h, ms, limit);
    assert AddAll(h, ms, limit) in Seen(r);
  }

  lemma FullSplits(full: History, last: Message, limit: nat)
    requires limit >= 12 && |full| == limit && !HasCalls(full[0]) && !IsTool(full[0])
    requires forall i :: 3 <= i < |full| ==> IsTool(full[i]) && !HasCalls(full[i])
    ensures !Grouped(Add(full, last, limit))
  {
    var cut := CutEnd(full, limit);
    assert IsTool(full[limit / 4]) && cut == 1 + limit / 4;
    var g := Add(full, last, limit);
    assert g[1] == full[cut] && IsTool(g[1]) && g[1 - 1] == full[0];
  }

  lemma LongGroupSplits(h: History, a: Answer, limit: nat)
    requires limit >= 12 && |h| == 2 && !HasCalls(h[0]) && !IsTool(h[0]) && a.Reply? && |a.called| == limit - 2
    ensures !Grouped(AddAll(h, Group(a), limit))
  {
    hide Add, Group, Grouped, AddAll, IsTool, HasCalls;
    GroupMessages(a);
    var all := Group(a);
    var first, last := all[..|all| - 1], all[|all| - 1];
    assert all == first + [last];
    AddAllSplit(h, first, [last], limit);
    AddAllFits(h, first, limit);
    AddOne(h + first, last, limit);
    FullSplits(h + first, last, limit);
  }

  lemma GroupMessages(a: Answer)
    requires a.Reply?
    ensures |Group(a)| == 1 + |a.called| && (a.called != [] ==> HasCalls(Group(a)[0]))
    ensures forall i :: 1 <= i < |Group(a)| ==> IsTool(Group(a)[i]) && !HasCalls(Group(a)[i])
  {
  }

  lemma AddOne(h: History, m: Message, limit: nat)
    requires limit >= 1
    ensures AddAll(h, [m], limit) == Add(h, m, limit)
  {
    assert [m][1..] == [];
  }

  lemma TwoSent(h: History, pre: nat, a: Answer, limit: nat)
    requires a.Reply? && a.called != [] && limit >= 1
    ensures AddAll(h, Group(a), limit) in Loop(h, pre, 2, [a, Failure([])], limit).sent
  {
    hide AddAll, Group;
    var answers := [a, Failure([])];
    var g := AddAll(h, Group(a), limit);
    assert answers[1..] == [Failure([])] && Loop(g, pre, 1, answers[1..], limit).sent == [g];
  }

  /** A single reply with several calls breaks even the grouping, for every limit from 8 on. */
  lemma MultiCallSplits(limit: nat)
    requires 8 <= limit <= MAX_MESSAGES
    ensures exists answers, g :: |answers| == 2 && g in Chat([], limit, 2, [], [1], answers).sent && !Grouped(g)
  {
    var n := if limit >= 12 then limit - 2 else limit - 1;
    var a := Reply([], seq(n, _ => Called(Call(None, None), [])));
    var h := [SystemMessage([]), UserMessage([1])];
    assert Add([SystemMessage([])], UserMessage([1]), limit) == h;
    assert Chat([], limit, 2, [], [1], [a, Failure([])]) == Loop(h, 1, 2, [a, Failure([])], limit);
    TwoSent(h, 1, a, limit);
    if limit >= 12 { LongGroupSplits(h, a, limit); } else { LateGroupSplits(h, a, limit); }
  }

  /** For limits from 8 to 11 the first compaction walks back and keeps the call; the second one
      takes it. */
  lemma SecondCompaction(full: History, m: Message, last: Message, limit: nat)
    requires 8 <= limit < 12 && |full| == limit && !HasCalls(full[0]) && !IsTool(full[0]) && HasCalls(full[2])
    requires forall i :: 3 <= i < |full| ==> IsTool(full[i]) && !HasCalls(full[i])
    ensures !Grouped(Add(Add(full, m, limit), last, limit))
  {
    assert Quarter(limit) == 2 && CutEnd(full, limit) == 2;
    var f := Add(full, m, limit);
    assert f == full[..1] + full[2..] + [m];
    assert |f| == limit && f[2] == full[3] && f[3] == full[4];
    assert CutEnd(f, limit) == 3;
    var g := Add(f, last, limit);
    assert g[1] == f[3] && IsTool(g[1]) && g[1 - 1] == full[0];
  }

  lemma LateGroupSplits(h: History, a: Answer, limit: nat)
    requires 8 <= limit < 12 && |h| == 2 && !HasCalls(h[0]) && !IsTool(h[0]) && a.Reply? && |a.called| == limit - 1
    ensures !Grouped(AddAll(h, Group(a), limit))
  {
    hide Add, Group, Grouped, AddAll, IsTool, HasCalls;
    GroupMessages(a);
    var all := Group(a);
    var first, m, last := all[..limit - 2], all[limit - 2], all[limit - 1];
    assert all == first + ([m] + [last]);
    AddAllSplit(h, first, [m] + [last], limit);
    AddAllSplit(h + first, [m], [last], limit);
    AddAllFits(h, first, limit);
    AddOne(h + first, m, limit);
    AddOne(Add(h + first, m, limit), last, limit);
    SecondCompaction(h + first, m, last, limit);
  }

  lemma CallMovesUp(h: History, ask: Message, res: Message)
    requires |h| == 8 && !HasCalls(h[2]) && HasCalls(h[4]) && HasCalls(ask)
    ensures var g := AddAll(h, [ask, res], 8); |g| == 8 && g[2] == h[4]
  {
    assert CutEnd(h, 8) == 3;
    var g := Add(h, ask, 8);
    assert g == h[..1] + h[3..] + [ask];
    assert [ask, res][1..] == [res] && [res][1..] == [];
    assert AddAll(h, [ask, res], 8) == AddAll(g, [res], 8) == AddAll(Add(g, res, 8), [], 8) == g + [res];
  }

  /** After a compaction within the turn, the rollback of a failed turn of single calls may leave a
      tool call without its result. */
  lemma RollbackLeavesCall()
    ensures exists h, answers :: Steady(h) && Complete(h) && |answers| == 4 && SingleCalls(answers)
              && Chat(h, 8, 4, [], [1], answers).outcome.Failed? && !Complete(Chat(h, 8, 4, [], [1], answers).history)
  {
    var h, answers := OldTurn(), [ASK, ASK, ASK, Failure([])];
    OldTurnSteady();
    DanglingLeft(h, answers);
  }

  /** A conversation with one answered question. */
  function OldTurn(): History { [SystemMessage([]), UserMessage([1]), AssistantMessage([], [])] }

  lemma OldTurnSteady()
    ensures Steady(OldTurn()) && Complete(OldTurn()) && SingleCalls([ASK, ASK, ASK, Failure([])])
  {
  }

  lemma DanglingLeft(h: History, answers: seq<Answer>)
    requires h == OldTurn() && answers == [ASK, ASK, ASK, Failure([])]
    ensures var r := Chat(h, 8, 4, [], [1], answers); r.outcome.Failed? && !Complete(r.history)
  {
    var u, ask, res := UserMessage([1]), AssistantMessage([], Calls(ASK.called)), ResultMessage(ASK.called[0]);
    assert Group(ASK) == [ask, res] && HasCalls(ask);
    var h1 := h + [u];
    assert Add(h, u, 8) == h1;
    hide Add, Group, CutEnd, Compact;
    var h2 := h1 + [ask, res];
    var h3 := h2 + [ask, res];
    AddAllFits(h1, [ask, res], 8);
    AddAllFits(h2, [ask, res], 8);
    assert h3[2] == h[2] && h3[4] == ask;
    CallMovesUp(h3, ask, res);
    hide AddAll;
    LoopFailsTo(h1, h2, h3, AddAll(h3, [ask, res], 8), answers);
    var r := Chat(h, 8, 4, [], [1], answers);
    assert r == Loop(h1, 3, 4, answers, 8);
    hide Loop;
    assert r.history[2] == ask && |r.history| == 3;
  }

  lemma LoopFailsTo(h1: History, h2: History, h3: History, h4: History, answers: seq<Answer>)
    requires answers == [ASK, ASK, ASK, Failure([])]
    requires h2 == AddAll(h1, Group(ASK), 8) && h3 == AddAll(h2, Group(ASK), 8) && h4 == AddAll(h3, Group(ASK), 8)
    ensures var r := Loop(h1, 3, 4, answers, 8); r.history == Rollback(h4, 3) && r.outcome == Failed([])
  {
    hide AddAll, Group;
    assert Loop(h4, 3, 1, answers[1..][1..][1..], 8).history == Rollback(h4, 3);
    assert Loop(h3, 3, 2, answers[1..][1..], 8).history == Rollback(h4, 3);
    assert Loop(h2, 3, 3, answers[1..], 8).history == Rollback(h4, 3);
  }
}
