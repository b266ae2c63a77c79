/**
 The bounded conversation history of src/agent/agent.c: adding with compaction, the tool loop of
 `agent_chat`, and the rollback of failed turns, as functions on the sequence of messages.
 */
module AgentHistory {
  import opened Bytes
  import opened Options

  const MAX_MESSAGES: nat := 128

  datatype Role = System | User | Assistant | Tool

  datatype Call = Call(id: Option<Text>, name: Option<Text>)

  /** No calls stands for a missing or empty `tool_calls` array. */
  datatype Message = Message(role: Role, content: Text, callId: Option<Text>, name: Option<Text>, calls: seq<Call>)

  type History = seq<Message>

  predicate HasCalls(m: Message) { m.calls != [] }

  function SystemMessage(text: Text): Message { Message(System, text, None, None, []) }
  function UserMessage(text: Text): Message { Message(User, text, None, None, []) }
  function AssistantMessage(text: Text, calls: seq<Call>): Message { Message(Assistant, text, None, None, calls) }
  function ResultMessage(c: Called): Message { Message(Tool, c.result, c.call.id, c.call.name, []) }

  /** A tool call of a reply, with what executing it gave. */
  datatype Called = Called(call: Call, result: Text)

  /** What one call of the provider returns; texts are those left once the thinking is stripped. */
  datatype Answer = Failure(error: Text) | Reply(content: Text, called: seq<Called>)

  // ---- Adding and compaction -------------------------------------------------------------

  function Limit(maxMessages: int): (limit: nat)
    ensures 1 <= limit <= MAX_MESSAGES
    ensures limit == maxMessages || (limit == MAX_MESSAGES && !(1 <= maxMessages <= MAX_MESSAGES))
  {
    if 0 < maxMessages <= MAX_MESSAGES then maxMessages else MAX_MESSAGES
  }

  function Quarter(limit: nat): nat { if limit / 4 < 1 then 1 else limit / 4 }

  /** Where the walk back from `cut` stops. */
  function WalkBack(h: History, cut: nat): (r: nat)
    requires cut <= |h|
    ensures r <= cut && (cut <= 2 ==> r == cut) && (cut >= 2 ==> r >= 2)
    ensures r <= 2 || !HasCalls(h[r - 1])
    ensures forall i :: r <= i < cut ==> HasCalls(h[i])
  {
    if cut > 2 && HasCalls(h[cut - 1]) then WalkBack(h, cut - 1) else cut
  }

  function CutEnd(h: History, limit: nat): (r: nat)
    requires |h| >= 1
    ensures 1 <= r <= |h| && (|h| >= 2 ==> r >= 2)
  {
    WalkBack(h, if 1 + Quarter(limit) > |h| then |h| else 1 + Quarter(limit))
  }

  function Compact(h: History, limit: nat): History
    requires |h| >= 1
  {
    h[..1] + h[CutEnd(h, limit)..]
  }

  function Add(h: History, m: Message, limit: nat): History
    requires limit >= 1
  {
    (if |h| >= limit then Compact(h, limit) else h) + [m]
  }

  function AddAll(h: History, ms: seq<Message>, limit: nat): History
    requires limit >= 1
    decreases |ms|
  {
    if ms == [] then h else AddAll(Add(h, ms[0], limit), ms[1..], limit)
  }

  // ---- One turn --------------------------------------------------------------------------

  datatype Outcome = Refused | Failed(error: Text) | Answered(content: Text) | GaveUp

  /** `sent` lists the histories shown to the provider, one per call. */
  datatype Result = Result(history: History, sent: seq<History>, outcome: Outcome)

  function Rollback(h: History, pre: nat): History { if |h| > pre then h[..pre] else h }

  function Results(called: seq<Called>): (ms: seq<Message>)
    ensures |ms| == |called| && forall i :: 0 <= i < |ms| ==> ms[i] == ResultMessage(called[i])
  {
    seq(|called|, i requires 0 <= i < |called| => ResultMessage(called[i]))
  }

  function Calls(called: seq<Called>): (cs: seq<Call>)
    ensures |cs| == |called|
  {
    seq(|called|, i requires 0 <= i < |called| => called[i].call)
  }

  /** The messages that a reply with tool calls adds. */
  function Group(a: Answer): seq<Message>
    requires a.Reply?
  {
    [AssistantMessage(a.content, Calls(a.called))] + Results(a.called)
  }

  function Loop(h: History, pre: nat, left: nat, answers: seq<Answer>, limit: nat): (r: Result)
    requires |answers| >= left && limit >= 1
    ensures |r.sent| <= left
    decreases left
  {
    if left == 0 then Result(Rollback(h, pre), [], GaveUp)
    else if answers[0].Failure? then Result(Rollback(h, pre), [h], Failed(answers[0].error))
    else if answers[0].called == [] then
      Result(Add(h, AssistantMessage(answers[0].content, []), limit), [h], Answered(answers[0].content))
    else
      var r := Loop(AddAll(h, Group(answers[0]), limit), pre, left - 1, answers[1..], limit);
      r.(sent := [h] + r.sent)
  }

  /** The history at the start of a turn, once the system message is in place. */
  function Opened(h: History, prompt: Text): (r: History)
    ensures r != []
  {
    if h == [] then [SystemMessage(prompt)] else h
  }

  function Iterations(maxIterations: int): nat { if maxIterations < 0 then 0 else maxIterations }

  function Chat(h: History, limit: nat, iterations: nat, prompt: Text, user: Text, answers: seq<Answer>): (r: Result)
    requires |answers| >= iterations && limit >= 1
    ensures |r.sent| <= iterations
  {
    if user == [] then Result(h, [], Refused)
    else Loop(Add(Opened(h, prompt), UserMessage(user), limit), |Opened(h, prompt)|, iterations, answers, limit)
  }

  /** One compaction drops at least one message and at most a quarter of the limit, and the whole quarter
      when no message has tool calls. */
  lemma QuarterDropped(h: History, limit: nat)
    requires limit >= 1 && |h| >= limit && |h| >= 2
    ensures var dropped := |h| - |Compact(h, limit)|;
            && dropped >= 1 && (dropped == 1 || 4 * dropped <= limit)
            && ((forall i :: 0 <= i < |h| ==> !HasCalls(h[i])) ==> limit < 4 * (dropped + 1))
  {
  }

  // ---- What a turn shows and leaves ------------------------------------------------------

  /** How many of the first `left` answers ask for tools before one that does not. */
  function ToolReplies(left: nat, answers: seq<Answer>): (n: nat)
    requires |answers| >= left
    ensures n <= left && (n < left ==> answers[n].Failure? || answers[n].called == [])
    ensures forall i :: 0 <= i < n ==> answers[i].Reply? && answers[i].called != []
    decreases left
  {
    if left == 0 || answers[0].Failure? || answers[0].called == [] then 0
    else
      var n := ToolReplies(left - 1, answers[1..]);
      assert forall i :: 0 < i < n + 1 ==> answers[i] == answers[1..][i - 1];
      1 + n
  }

  /** The messages of a reply: the assistant's with its calls, then for each call, in order, a tool message
      with the id and the name of that call and with its result. */
  lemma GroupRight(a: Answer)
    requires a.Reply?
    ensures var g := Group(a);
            && |g| == 1 + |a.called| && g[0].role == Assistant && g[0].content == a.content
            && |g[0].calls| == |a.called|
            && forall i :: 0 <= i < |a.called| ==>
                 && g[0].calls[i] == a.called[i].call && g[1 + i].role == Tool && g[1 + i].content == a.called[i].result
                 && g[1 + i].callId == a.called[i].call.id && g[1 + i].name == a.called[i].call.name
                 && g[1 + i].calls == []
  {
    var g, results, calls := Group(a), Results(a.called), Calls(a.called);
    assert g[0] == AssistantMessage(a.content, calls);
    forall i | 0 <= i < |a.called| ensures g[1 + i] == ResultMessage(a.called[i]) && calls[i] == a.called[i].call {
      assert g[1 + i] == results[i];
    }
    hide Results, Group, Calls;
  }

  /** The provider was asked once for each reply with tool calls and once more, and was shown each time
      everything added so far; the end is as the first reply without tool calls says, or giving up. */
  predicate Followed(h: History, left: nat, answers: seq<Answer>, limit: nat, r: Result)
    requires |answers| >= left && limit >= 1
  {
    var n := ToolReplies(left, answers);
    && |r.sent| == (if n < left then n + 1 else left)
    && (forall k :: 0 <= k < |r.sent| ==> r.sent[k] == AddAll(h, Added(k, answers), limit))
    && (n == left ==> r.outcome == GaveUp)
    && (n < left && answers[n].Failure? ==> r.outcome == Failed(answers[n].error))
    && (n < left && answers[n].Reply? ==>
          r.outcome == Answered(answers[n].content) && r.history == AddAll(h, Added(n + 1, answers), limit))
  }

  lemma FollowedOn(h: History, left: nat, answers: seq<Answer>, limit: nat, q: Result)
    requires |answers| >= left > 0 && limit >= 1 && answers[0].Reply? && answers[0].called != []
    requires Followed(AddAll(h, Group(answers[0]), limit), left - 1, answers[1..], limit, q)
    ensures Followed(h, left, answers, limit, q.(sent := [h] + q.sent))
  {
    hide AddAll, Group, Added;
    var r, n := q.(sent := [h] + q.sent), ToolReplies(left - 1, answers[1..]);
    assert ToolReplies(left, answers) == n + 1;
    hide ToolReplies;
    assert n < left - 1 ==> answers[1..][n] == answers[n + 1];
    forall k | 0 <= k < |r.sent| ensures r.sent[k] == AddAll(h, Added(k, answers), limit) {
      if k == 0 {
        NoneAdded(answers);
        NothingToAdd(h, limit);
      } else {
        AddedLater(h, k, answers, limit);
      }
    }
    if n < left - 1 && answers[n + 1].Reply? { AddedLater(h, n + 2, answers, limit); }
  }

  lemma {:induction false} LoopExactly(h: History, pre: nat, left: nat, answers: seq<Answer>, limit: nat)
    requires |answers| >= left && limit >= 1
    ensures Followed(h, left, answers, limit, Loop(h, pre, left, answers, limit))
    decreases left
  {
    if left > 0 && answers[0].Reply? && answers[0].called != [] {
      hide AddAll, Group, Followed;
      LoopExactly(AddAll(h, Group(answers[0]), limit), pre, left - 1, answers[1..], limit);
      FollowedOn(h, left, answers, limit,
                 Loop(AddAll(h, Group(answers[0]), limit), pre, left - 1, answers[1..], limit));
    } else if left > 0 {
      hide Add, AddAll;
      NothingToAdd(h, limit);
      if answers[0].Reply? { OneAdded(h, AssistantMessage(answers[0].content, []), limit); }
    }
  }

  lemma NothingToAdd(h: History, limit: nat)
    requires limit >= 1
    ensures AddAll(h, [], limit) == h
  {
  }

  lemma OneAdded(h: History, m: Message, limit: nat)
    requires limit >= 1
    ensures AddAll(h, [m], limit) == Add(h, m, limit)
  {
    hide Add;
    assert [m][1..] == [];
    NothingToAdd(Add(h, m, limit), limit);
  }

  lemma AddedLater(h: History, k: nat, answers: seq<Answer>, limit: nat)
    requires 0 < k <= |answers| && limit >= 1 && answers[0].Reply? && answers[0].called != []
    ensures AddAll(h, Added(k, answers), limit)
         == AddAll(AddAll(h, Group(answers[0]), limit), Added(k - 1, answers[1..]), limit)
  {
    hide AddAll, Group;
    AddAllSplit(h, Group(answers[0]), Added(k - 1, answers[1..]), limit);
  }

  lemma {:induction false} LastAdded(h: History, ms: seq<Message>, limit: nat)
    requires limit >= 1 && ms != []
    ensures var r := AddAll(h, ms, limit); r != [] && r[|r| - 1] == ms[|ms| - 1]
    decreases |ms|
  {
    if |ms| == 1 {
      assert ms == [ms[0]];
      OneAdded(h, ms[0], limit);
    } else {
      LastAdded(Add(h, ms[0], limit), ms[1..], limit);
    }
  }

  /** The last message is plain text of the role. */
  predicate EndsWith(h: History, role: Role, content: Text) {
    h != [] && var last := h[|h| - 1]; last.role == role && last.content == content && last.calls == []
  }

  /** The same for a whole turn: without a text it does nothing; it shows the user's text first, then what
      each reply added; and a turn that is answered leaves all of it, the answer last. */
  lemma TurnExactly(h: History, limit: nat, iterations: nat, prompt: Text, user: Text, answers: seq<Answer>)
    requires |answers| >= iterations && limit >= 1
    ensures user == [] ==> Chat(h, limit, iterations, prompt, user, answers) == Result(h, [], Refused)
    ensures user != [] ==>
              var r, n := Chat(h, limit, iterations, prompt, user, answers), ToolReplies(iterations, answers);
              var h0 := Opened(h, prompt);
              && |r.sent| == (if n < iterations then n + 1 else iterations)
              && (forall k :: 0 <= k < |r.sent| ==>
                    r.sent[k] == AddAll(h0, [UserMessage(user)] + Added(k, answers), limit))
              && (r.sent != [] ==> EndsWith(r.sent[0], User, user))
              && (n == iterations ==> r.outcome == GaveUp)
              && (n < iterations && answers[n].Failure? ==> r.outcome == Failed(answers[n].error))
              && (n < iterations && answers[n].Reply? ==>
                    && r.outcome == Answered(answers[n].content)
                    && r.history == AddAll(h0, [UserMessage(user)] + Added(n + 1, answers), limit)
                    && EndsWith(r.history, Assistant, answers[n].content))
  {
    if user != [] {
      var h0, m := Opened(h, prompt), UserMessage(user);
      var g := Add(h0, m, limit);
      LoopExactly(g, |h0|, iterations, answers, limit);
      hide Loop, AddAll, Add, Added;
      var r, n := Chat(h, limit, iterations, prompt, user, answers), ToolReplies(iterations, answers);
      assert r == Loop(g, |h0|, iterations, answers, limit);
      hide Chat;
      OneAdded(h0, m, limit);
      forall k | 0 <= k <= |answers|
        ensures AddAll(g, Added(k, answers), limit) == AddAll(h0, [m] + Added(k, answers), limit)
      {
        AddAllSplit(h0, [m], Added(k, answers), limit);
      }
      if r.sent != [] {
        NoneAdded(answers);
        assert [m] + [] == [m];
        LastAdded(h0, [m], limit);
      }
      if n < iterations && answers[n].Reply? {
        AnswerAdded(n, answers);
        LastAdded(h0, [m] + Added(n + 1, answers), limit);
      }
    }
  }

  /** The message that a conversation starts with: the system prompt of its first turn. */
  predicate Starts(h: History, prompt: Text, g: History) {
    g != [] && if h == [] then g[0].role == System && g[0].content == prompt && g[0].calls == [] else g[0] == h[0]
  }

  lemma AddedStarts(h: History, prompt: Text, ms: seq<Message>, limit: nat)
    requires limit >= 1
    ensures Starts(h, prompt, AddAll(Opened(h, prompt), ms, limit))
  {
    hide AddAll;
    AddAllShape(Opened(h, prompt), ms, limit);
  }

  /** Whatever is compacted or rolled back, every history that is shown or left by a turn still starts with
      the system prompt. */
  lemma PromptShown(h: History, limit: nat, iterations: nat, prompt: Text, user: Text, answers: seq<Answer>)
    requires |answers| >= iterations && limit >= 1 && user != []
    ensures var r := Chat(h, limit, iterations, prompt, user, answers);
            Starts(h, prompt, r.history) && forall k :: 0 <= k < |r.sent| ==> Starts(h, prompt, r.sent[k])
  {
    TurnExactly(h, limit, iterations, prompt, user, answers);
    var r, n := Chat(h, limit, iterations, prompt, user, answers), ToolReplies(iterations, answers);
    var m := [UserMessage(user)];
    if r.outcome.Failed? || r.outcome.GaveUp? {
      FailedTurn(h, limit, iterations, prompt, user, answers);
      AddedStarts(h, prompt, m + Added(iterations, answers), limit);
    }
    hide Chat, AddAll, Added;
    if n < iterations && answers[n].Reply? { AddedStarts(h, prompt, m + Added(n + 1, answers), limit); }
    forall k | 0 <= k < |r.sent| ensures Starts(h, prompt, r.sent[k]) {
      AddedStarts(h, prompt, m + Added(k, answers), limit);
    }
  }

  lemma NoneAdded(answers: seq<Answer>)
    ensures Added(0, answers) == []
  {
  }

  lemma {:induction false} AnswerAdded(n: nat, answers: seq<Answer>)
    requires n < |answers| && answers[n].Reply? && answers[n].called == []
    requires forall i :: 0 <= i < n ==> answers[i].Reply? && answers[i].called != []
    ensures var added := Added(n + 1, answers);
            added != [] && added[|added| - 1] == AssistantMessage(answers[n].content, [])
    decreases n
  {
    if n > 0 { AnswerAdded(n - 1, answers[1..]); }
  }

  // ---- Bounds ----------------------------------------------------------------------------

  function Ceiling(limit: nat): nat { if limit < 2 then 2 else limit }

  /** Once a chat has begun the first message is the system message; and the history fits. */
  predicate Bounded(h: History, limit: nat) {
    && |h| <= Ceiling(limit)
    && (h != [] ==> h[0].role == System && h[0].calls == [])
  }

  lemma AddBounded(h: History, m: Message, limit: nat)
    requires h != [] && limit >= 1 && Bounded(h, limit)
    ensures Bounded(Add(h, m, limit), limit) && Add(h, m, limit) != []
  {
  }

  lemma {:induction false} AddAllBounded(h: History, ms: seq<Message>, limit: nat)
    requires h != [] && limit >= 1 && Bounded(h, limit)
    ensures Bounded(AddAll(h, ms, limit), limit) && AddAll(h, ms, limit) != []
    decreases |ms|
  {
    if ms != [] {
      AddBounded(h, ms[0], limit);
      AddAllBounded(Add(h, ms[0], limit), ms[1..], limit);
    }
  }

  /** Every history shown to the provider, and the one left by the turn. */
  function Seen(r: Result): seq<History> { r.sent + [r.history] }

  lemma {:induction false} LoopBounded(h: History, pre: nat, left: nat, answers: seq<Answer>, limit: nat)
    requires |answers| >= left && limit >= 1 && pre >= 1 && h != [] && Bounded(h, limit)
    ensures forall g :: g in Seen(Loop(h, pre, left, answers, limit)) ==> Bounded(g, limit) && g != []
    decreases left
  {
    if left > 0 && answers[0].Reply? {
      if answers[0].called == [] {
        AddBounded(h, AssistantMessage(answers[0].content, []), limit);
      } else {
        hide Bounded, Group, Add, AddAll;
        AddAllBounded(h, Group(answers[0]), limit);
        LoopBounded(AddAll(h, Group(answers[0]), limit), pre, left - 1, answers[1..], limit);
        var r := Loop(AddAll(h, Group(answers[0]), limit), pre, left - 1, answers[1..], limit);
        assert Seen(Loop(h, pre, left, answers, limit)) == [h] + Seen(r);
      }
    }
  }

  // ---- What rollback restores ------------------------------------------------------------

  /** Everything that a turn adds up to its failure. */
  function Added(left: nat, answers: seq<Answer>): seq<Message>
    requires |answers| >= left
    decreases left
  {
    if left == 0 || answers[0].Failure? then []
    else if answers[0].called == [] then [AssistantMessage(answers[0].content, [])]
    else Group(answers[0]) + Added(left - 1, answers[1..])
  }

  lemma {:induction false} AddAllSplit(h: History, a: seq<Message>, b: seq<Message>, limit: nat)
    requires limit >= 1
    ensures AddAll(h, a + b, limit) == AddAll(AddAll(h, a, limit), b, limit)
    decreases |a|
  {
    if a == [] {
      assert a + b == b;
    } else {
      assert (a + b)[0] == a[0] && (a + b)[1..] == a[1..] + b;
      AddAllSplit(Add(h, a[0], limit), a[1..], b, limit);
    }
  }

  lemma {:induction false} AddAllFits(h: History, ms: seq<Message>, limit: nat)
    requires limit >= 1 && |h| + |ms| <= limit
    ensures AddAll(h, ms, limit) == h + ms
    decreases |ms|
  {
    if ms == [] {
      assert h + ms == h;
    } else {
      AddAllFits(h + [ms[0]], ms[1..], limit);
      assert h + [ms[0]] + ms[1..] == h + ms;
    }
  }

  /** What a turn that fails leaves behind is its whole addition, rolled back. */
  lemma {:induction false} LoopFailed(h: History, pre: nat, left: nat, answers: seq<Answer>, limit: nat)
    requires |answers| >= left && limit >= 1
    requires var o := Loop(h, pre, left, answers, limit).outcome; o.Failed? || o.GaveUp?
    ensures Loop(h, pre, left, answers, limit).history == Rollback(AddAll(h, Added(left, answers), limit), pre)
    decreases left
  {
    if left > 0 && answers[0].Reply? {
      var g := AddAll(h, Group(answers[0]), limit);
      LoopFailed(g, pre, left - 1, answers[1..], limit);
      AddAllSplit(h, Group(answers[0]), Added(left - 1, answers[1..]), limit);
    }
  }

  /** How far one addition cuts into the history. */
  function Cut(h: History, limit: nat): nat
    requires h != []
  {
    if |h| >= limit then CutEnd(h, limit) else 1
  }

  /** The first message and everything from `cut` on. */
  function Kept(s: seq<Message>, cut: nat): History
    requires 1 <= cut <= |s|
  {
    s[..1] + s[cut..]
  }

  lemma AddShape(h: History, m: Message, limit: nat)
    requires limit >= 1 && h != []
    ensures 1 <= Cut(h, limit) <= |h| && Add(h, m, limit) == Kept(h + [m], Cut(h, limit))
    ensures |h| >= 2 ==> (Cut(h, limit) == 1 <==> |h| < limit)
  {
  }

  lemma KeptTwice(h: History, m: Message, rest: seq<Message>, d: nat, c: nat)
    requires 1 <= d <= |h| && 1 <= c <= |h| + 2 - d + |rest|
    ensures |Kept(h + [m], d)| == |h| + 2 - d
    ensures Kept(Kept(h + [m], d) + rest, c) == Kept(h + ([m] + rest), d + c - 1)
  {
    var s := h + ([m] + rest);
    assert s == h + [m] + rest;
    assert Kept(h + [m], d) + rest == Kept(s, d);
    assert Kept(s, d)[c..] == s[d + c - 1..];
  }

  /** The end of what a sequence of additions drops. */
  function Dropped(h: History, ms: seq<Message>, limit: nat): (cut: nat)
    requires limit >= 1 && h != []
    ensures cut >= 1
    decreases |ms|
  {
    if ms == [] then 1 else Cut(h, limit) + Dropped(Add(h, ms[0], limit), ms[1..], limit) - 1
  }

  lemma NothingAdded(h: History, limit: nat)
    requires limit >= 1 && h != []
    ensures Dropped(h, [], limit) == 1 && AddAll(h, [], limit) == h == h + [] == Kept(h + [], 1)
  {
  }

  /** Compactions only ever drop a stretch after the first message: of all that was there and all
      that was added, the first message and the last ones remain. */
  lemma {:induction false} AddAllShape(h: History, ms: seq<Message>, limit: nat)
    requires limit >= 1 && h != []
    ensures var cut := Dropped(h, ms, limit);
            && 1 <= cut <= |h| + |ms| && AddAll(h, ms, limit) == Kept(h + ms, cut)
            && (|h| >= 2 ==> (cut == 1 <==> |h| + |ms| <= limit || ms == []))
    decreases |ms|
  {
    hide Add, Cut, Kept;
    if ms == [] {
      NothingAdded(h, limit);
    } else {
      var g, d, rest := Add(h, ms[0], limit), Cut(h, limit), ms[1..];
      AddShape(h, ms[0], limit);
      KeptTwice(h, ms[0], rest, d, 1);
      var c := Dropped(g, rest, limit);
      AddAllShape(g, rest, limit);
      assert Dropped(h, ms, limit) == d + c - 1 && AddAll(h, ms, limit) == AddAll(g, rest, limit);
      hide AddAll, Dropped;
      KeptTwice(h, ms[0], rest, d, c);
      assert [ms[0]] + rest == ms;
    }
  }

  /** The messages of a turn: the old ones, the user's and everything added up to the failure. */
  function Said(h: History, prompt: Text, user: Text, iterations: nat, answers: seq<Answer>): seq<Message>
    requires |answers| >= iterations
  {
    Opened(h, prompt) + ([UserMessage(user)] + Added(iterations, answers))
  }

  /** Everything that a turn adds fits below the limit. */
  predicate NoCompaction(h: History, limit: nat, iterations: nat, answers: seq<Answer>)
    requires |answers| >= iterations
  {
    |h| + 1 + |Added(iterations, answers)| <= limit
  }

  /** How many messages compactions drop in a turn. */
  function Lost(h: History, limit: nat, prompt: Text, user: Text, iterations: nat, answers: seq<Answer>): nat
    requires |answers| >= iterations && limit >= 1
  {
    Dropped(Opened(h, prompt), [UserMessage(user)] + Added(iterations, answers), limit) - 1
  }

  /** From the second message on, the first `n` messages repeat `d` places later. */
  predicate Repeats(s: seq<Message>, n: nat, d: nat) {
    n + d <= |s| && forall i :: 1 <= i < n ==> s[i + d] == s[i]
  }

  /** A failed turn restores exactly the history before it if and only if what compactions dropped
      is made up for by equal messages that follow: always when nothing had to be compacted and
      when there was nothing but the system message; never when something was compacted and the
      second message is not said again later. */
  lemma FailedTurnRestores(h: History, limit: nat, iterations: nat, prompt: Text, user: Text, answers: seq<Answer>)
    requires |answers| >= iterations && limit >= 1 && user != []
    requires var o := Chat(h, limit, iterations, prompt, user, answers).outcome; o.Failed? || o.GaveUp?
    ensures var restored := Chat(h, limit, iterations, prompt, user, answers).history == Opened(h, prompt);
            var said, lost := Said(h, prompt, user, iterations, answers),
                Lost(h, limit, prompt, user, iterations, answers);
            && (restored <==> |h| <= 1 || Repeats(said, |h|, lost))
            && (|h| <= 1 || NoCompaction(h, limit, iterations, answers) ==> restored)
            && (|h| >= 2 && !NoCompaction(h, limit, iterations, answers) && h[1] !in said[2..] ==> !restored)
  {
    hide AddAll, Dropped, Added;
    var h0 := Opened(h, prompt);
    var ms := [UserMessage(user)] + Added(iterations, answers);
    FailedTurn(h, limit, iterations, prompt, user, answers);
    AddAllShape(h0, ms, limit);
    hide Chat;
    var cut := Dropped(h0, ms, limit);
    if |h| <= 1 {
      FirstOnly(h0, h0 + ms, cut);
    } else {
      RestoredWhen(h, h + ms, cut);
      if cut > 1 && h[1] !in (h + ms)[2..] { NeverRepeats(h, h + ms, cut - 1); }
    }
  }

  lemma RestoredWhen(h: History, s: seq<Message>, cut: nat)
    requires |h| >= 2 && h <= s && 1 <= cut <= |s|
    ensures Rollback(Kept(s, cut), |h|) == h <==> Repeats(s, |h|, cut - 1)
  {
    var g := Kept(s, cut);
    assert forall i :: 1 <= i < |g| ==> g[i] == s[i + cut - 1];
    assert forall i :: 0 <= i < |h| ==> s[i] == h[i];
    if Rollback(g, |h|) == h {
      assert |g| >= |h|;
      forall i | 1 <= i < |h| ensures s[i + (cut - 1)] == s[i] { assert g[i] == Rollback(g, |h|)[i]; }
    }
  }

  lemma NeverRepeats(h: History, s: seq<Message>, d: nat)
    requires |h| >= 2 && h <= s && d >= 1 && h[1] !in s[2..]
    ensures !Repeats(s, |h|, d)
  {
    assert s[1] == h[1];
    if |h| + d <= |s| { assert s[1 + d] == s[2..][d - 1] && s[2..][d - 1] in s[2..]; }
  }

  /** What a failed turn leaves: all that it added, rolled back. */
  lemma FailedTurn(h: History, limit: nat, iterations: nat, prompt: Text, user: Text, answers: seq<Answer>)
    requires |answers| >= iterations && limit >= 1 && user != []
    requires var o := Chat(h, limit, iterations, prompt, user, answers).outcome; o.Failed? || o.GaveUp?
    ensures Chat(h, limit, iterations, prompt, user, answers).history
         == Rollback(AddAll(Opened(h, prompt), [UserMessage(user)] + Added(iterations, answers), limit),
             |Opened(h, prompt)|)
  {
    var h0 := Opened(h, prompt);
    var ms := [UserMessage(user)] + Added(iterations, answers);
    assert ms[0] == UserMessage(user) && ms[1..] == Added(iterations, answers);
    hide Loop, Added, Add;
    LoopFailed(Add(h0, UserMessage(user), limit), |h0|, iterations, answers, limit);
  }

  lemma FirstOnly(h: History, s: seq<Message>, cut: nat)
    requires |h| == 1 && h <= s && 1 <= cut <= |s|
    ensures Rollback(Kept(s, cut), 1) == h
  {
  }
}
