/**
 The agent of src/agent/agent.c with its fixed array of messages, each operation proved against
 the functions on histories.
 */
module AgentChat {
  import opened Bytes
  import opened AgentHistory

  class Agent {
    const messages: array<Message>
    var count: nat
    const maxMessages: int
    const maxIterations: int

    ghost predicate Valid()
      reads this, messages
    {
      && messages.Length == MAX_MESSAGES && count <= MAX_MESSAGES
      && Bounded(messages[..count], Limit(maxMessages))
    }

    ghost function Contents(): History
      requires Valid()
      reads this, messages
    {
      messages[..count]
    }

    constructor (maxMessages: int, maxIterations: int)
      ensures Valid() && fresh(messages) && Contents() == []
      ensures this.maxMessages == maxMessages && this.maxIterations == maxIterations
    {
      messages := new Message[MAX_MESSAGES](_ => SystemMessage([]));
      count := 0;
      this.maxMessages, this.maxIterations := maxMessages, maxIterations;
    }

    /** `agent_compact_history`, the move of the kept tail included. */
    method CompactHistory()
      requires Valid() && count >= 1
      modifies this`count, messages
      ensures Valid() && Contents() == Compact(old(Contents()), Limit(maxMessages))
    {
      ghost var h := messages[..count];
      var limit := Limit(maxMessages);
      var remove := limit / 4;
      if remove < 1 { remove := 1; }
      var cut := 1 + remove;
      if cut > count { cut := count; }
      while cut > 2 && HasCalls(messages[cut - 1])
        invariant 1 <= cut <= count
        invariant WalkBack(h, cut) == CutEnd(h, limit)
      {
        cut := cut - 1;
      }
      assert cut == CutEnd(h, limit);
      if cut - 1 <= 0 { return; }
      Shift(cut);
    }

    method Shift(cut: nat)
      requires Valid() && 1 <= cut <= count
      modifies this`count, messages
      ensures Valid() && Contents() == old(Contents()[..1] + Contents()[cut..])
    {
      ghost var h := messages[..count];
      var i := cut;
      while i < count
        invariant cut <= i <= count == |h|
        invariant messages[0] == h[0]
        invariant forall k :: 1 <= k < i - cut + 1 ==> messages[k] == h[k + cut - 1]
        invariant forall k :: i <= k < count ==> messages[k] == h[k]
      {
        messages[i - cut + 1] := messages[i];
        i := i + 1;
      }
      count := count - (cut - 1);
      assert messages[..count] == h[..1] + h[cut..];
    }

    /** `agent_add_message`: the compacted history always leaves room for one more. */
    method AddMessage(m: Message)
      requires Valid() && (count == 0 ==> m.role == System && m.calls == [])
      modifies this`count, messages
      ensures Valid() && count >= 1 && Contents() == Add(old(Contents()), m, Limit(maxMessages))
    {
      var limit := Limit(maxMessages);
      ghost var h := Contents();
      if count >= 1 { AddBounded(h, m, limit); }
      if count >= limit { CompactHistory(); }
      hide Compact, CutEnd, Quarter;
      ghost var g := Contents();
      messages[count] := m;
      count := count + 1;
      assert messages[..count] == g + [m];
    }

    method NewConversation()
      requires Valid()
      modifies this`count
      ensures Valid() && Contents() == []
    {
      count := 0;
    }

    /** The loop of `agent_pop_last_message` that undoes a failed turn. */
    method RollBackTo(pre: nat)
      requires Valid()
      modifies this`count
      ensures Valid() && Contents() == Rollback(old(Contents()), pre)
    {
      while count > pre
        invariant count <= old(count) && (old(count) > pre ==> count >= pre)
              && (old(count) <= pre ==> count == old(count))
        invariant Valid()
      {
        count := count - 1;
      }
    }

    /** The inner loop over the tool calls of one reply. */
    method AddResults(called: seq<Called>)
      requires Valid() && count >= 1
      modifies this`count, messages
      ensures Valid() && count >= 1 && Contents() == AddAll(old(Contents()), Results(called), Limit(maxMessages))
    {
      ghost var h, limit := Contents(), Limit(maxMessages);
      ghost var ms := Results(called);
      for t := 0 to |called|
        invariant Valid() && count >= 1
        invariant AddAll(Contents(), ms[t..], limit) == AddAll(h, ms, limit)
      {
        AddMessage(ResultMessage(called[t]));
        assert ms[t..][1..] == ms[t + 1..];
      }
      assert ms[|called|..] == [];
    }

    /** `agent_chat`; `answers` is what the provider gives back call by call. */
    method Chat(prompt: Text, user: Text, answers: seq<Answer>) returns (outcome: Outcome, sent: seq<History>)
      requires Valid() && |answers| >= Iterations(maxIterations)
      modifies this`count, messages
      ensures Valid()
      ensures Result(Contents(), sent, outcome)
           == AgentHistory.Chat(old(Contents()), Limit(maxMessages), Iterations(maxIterations), prompt, user, answers)
    {
      sent := [];
      if user == [] { return Refused, sent; }
      if count == 0 { AddMessage(SystemMessage(prompt)); }
      assert Contents() == Opened(old(Contents()), prompt);
      var pre := count;
      AddMessage(UserMessage(user));
      outcome, sent := ToolLoop(pre, answers);
    }

    method ToolLoop(pre: nat, answers: seq<Answer>) returns (outcome: Outcome, sent: seq<History>)
      requires Valid() && count >= 1 && |answers| >= Iterations(maxIterations)
      modifies this`count, messages
      ensures Valid()
      ensures Result(Contents(), sent, outcome)
           == Loop(old(Contents()), pre, Iterations(maxIterations), answers, Limit(maxMessages))
    {
      hide Add, AddAll, Bounded, Loop, Group;
      ghost var limit, n := Limit(maxMessages), Iterations(maxIterations);
      ghost var want := Loop(Contents(), pre, n, answers, limit);
      sent := [];
      var iter := 0;
      assert answers[0..] == answers;
      while iter < maxIterations
        invariant 0 <= iter <= n && Valid() && count >= 1
        invariant want == Prefixed(sent, Loop(Contents(), pre, n - iter, answers[iter..], limit))
        decreases n - iter
      {
        ghost var h := Contents();
        Unfold(h, pre, n - iter, answers, iter, limit);
        sent := sent + [messages[..count]];
        match answers[iter]
        case Failure(error) =>
          RollBackTo(pre);
          return Failed(error), sent;
        case Reply(content, called) =>
          if called != [] {
            AddMessage(AssistantMessage(content, Calls(called)));
            AddResults(called);
            GroupAdded(h, answers[iter], limit);
            iter := iter + 1;
            continue;
          }
          AddMessage(AssistantMessage(content, []));
          return Answered(content), sent;
      }
      Exhausted(Contents(), pre, answers[iter..], limit);
      RollBackTo(pre);
      outcome := GaveUp;
    }
  }

  ghost function Prefixed(sent: seq<History>, r: Result): Result { r.(sent := sent + r.sent) }

  lemma Exhausted(h: History, pre: nat, answers: seq<Answer>, limit: nat)
    requires limit >= 1
    ensures Loop(h, pre, 0, answers, limit) == Result(Rollback(h, pre), [], GaveUp)
  {
  }

  lemma Unfold(h: History, pre: nat, left: nat, answers: seq<Answer>, k: nat, limit: nat)
    requires limit >= 1 && 0 < left && k + left <= |answers|
    ensures Loop(h, pre, left, answers[k..], limit) ==
            match answers[k]
            case Failure(error) => Result(Rollback(h, pre), [h], Failed(error))
            case Reply(content, called) =>
              if called == [] then Result(Add(h, AssistantMessage(content, []), limit), [h], Answered(content))
              else Prefixed([h], Loop(AddAll(h, Group(answers[k]), limit), pre, left - 1, answers[k + 1..], limit))
  {
    assert answers[k..][0] == answers[k] && answers[k..][1..] == answers[k + 1..];
  }

  lemma GroupAdded(h: History, a: Answer, limit: nat)
    requires a.Reply? && limit >= 1
    ensures AddAll(h, Group(a), limit) == AddAll(Add(h, AssistantMessage(a.content, Calls(a.called)), limit),
          Results(a.called), limit)
  {
    assert Group(a)[1..] == Results(a.called);
  }
}
