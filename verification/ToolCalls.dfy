/**
 Tool-call arguments on their way through the agent: src/providers/ollama/ollama.c stores the
 arguments object of a call as JSON text, src/agent/agent.c parses that text to execute the tool
 and parses it again to send the call back to a provider that wants an object.
 */
module ToolCalls {
  import opened Bytes
  import opened Options
  import opened JsonValue
  import opened JsonParse
  import opened JsonText
  import opened JsonLookup

  const FUNCTION: Text := Ascii("function")
  const ARGUMENTS: Text := Ascii("arguments")
  const CALL: Text := Ascii("call_")
  const EMPTY_OBJECT: Text := [OPEN_BRACE, CLOSE_BRACE]

  // ---- Storing a call (ollama.c) ---------------------------------------------------------

  /** The JSON text under which the arguments of a call are stored, if they can be. */
  function StoredText(args: Option<Value>): Option<Text>
    requires ArgsOk(args)
  {
    match args
    case None => Some(EMPTY_OBJECT)
    case Some(Str(s)) => if Parse(s).Done? then Some(s) else None
    case Some(v) => if Parse(Print(v, false)).Done? then Some(Print(v, false)) else None
  }

  /** Arguments that are not text already consist of what the printer renders exactly. */
  predicate ArgsOk(args: Option<Value>) {
    args.Some? && !args.value.Str? ==> Printable(args.value) && Depth(args.value) <= NESTING_LIMIT
  }

  /** The value that the model meant. */
  function Meaning(args: Option<Value>): Option<Value> {
    match args
    case None => Some(Object([]))
    case Some(Str(s)) => Found(Parse(s))
    case Some(v) => Some(v)
  }

  function Entry(id: Text, name: Text, text: Text): Value {
    Object([Member(ID, Str(id)), Member(TYPE, Str(FUNCTION)),
            Member(FUNCTION, Object([Member(NAME, Str(name)), Member(ARGUMENTS, Str(text))]))])
  }

  datatype Call = Skipped | Call(name: Text, text: Text)

  function FunctionOf(call: Value): Value {
    if GetItem(call, FUNCTION).Some? then GetItem(call, FUNCTION).value else Null
  }

  predicate CallOk(call: Value) { ArgsOk(GetItem(FunctionOf(call), ARGUMENTS)) }

  /** What the loop keeps of one tool call: calls without a function, without a name or with
      text that is not JSON are skipped. */
  function Kept(call: Value): Call
    requires CallOk(call)
  {
    var name := GetItem(FunctionOf(call), NAME);
    if GetItem(call, FUNCTION).None? then Skipped
    else if name.None? || !name.value.Str? || name.value.text == [] then Skipped
    else
      var text := StoredText(GetItem(FunctionOf(call), ARGUMENTS));
      if text.None? then Skipped else Call(name.value.text, text.value)
  }

  const WRAP: nat := 0x1_0000_0000

  /** "call_%u" of the static counter. */
  function CallId(n: nat): Text { CALL + NatText(n % WRAP) }

  predicate CallsOk(calls: seq<Value>) { forall i :: 0 <= i < |calls| ==> CallOk(calls[i]) }

  /** A call worth keeping: it has a function whose name is a non-empty text, and its arguments mean
      something. */
  predicate Wanted(call: Value) {
    && GetItem(call, FUNCTION).Some? && Named(GetItem(FunctionOf(call), NAME))
    && Meaning(GetItem(FunctionOf(call), ARGUMENTS)).Some?
  }

  predicate Named(name: Option<Value>) { name.Some? && name.value.Str? && name.value.text != [] }

  /** Exactly the calls that are worth it are kept, with their name and with text that means the same. */
  lemma KeptExactly(call: Value)
    requires CallOk(call)
    ensures Kept(call).Call? <==> Wanted(call)
    ensures Kept(call).Call? ==>
              && GetItem(FunctionOf(call), NAME) == Some(Str(Kept(call).name))
              && Found(Parse(Kept(call).text)) == Meaning(GetItem(FunctionOf(call), ARGUMENTS))
  {
    StoredTextMeans(GetItem(FunctionOf(call), ARGUMENTS));
    hide StoredText, Meaning, Parse, FindMember;
  }

  /** The indices of the calls that are worth keeping, in order. */
  function WantedIndices(calls: seq<Value>, n: nat): (r: seq<nat>)
    requires n <= |calls|
    ensures forall i :: 0 <= i < |r| ==> r[i] < n && Wanted(calls[r[i]])
    ensures forall i, j :: 0 <= i < j < |r| ==> r[i] < r[j]
    ensures forall k :: 0 <= k < n && Wanted(calls[k]) ==> k in r
  {
    if n == 0 then []
    else if Wanted(calls[n - 1]) then WantedIndices(calls, n - 1) + [n - 1]
    else WantedIndices(calls, n - 1)
  }

  /** What is stored of a call: the id, the name that the call has, and text that means its arguments. */
  predicate EntryFor(call: Value, id: Text, entry: Value) {
    && GetItem(entry, ID) == Some(Str(id)) && GetItem(entry, TYPE) == Some(Str(FUNCTION))
    && GetItem(FunctionOf(entry), NAME) == GetItem(FunctionOf(call), NAME)
    && (var args := GetItem(FunctionOf(entry), ARGUMENTS);
        && args.Some? && args.value.Str?
        && Found(Parse(args.value.text)) == Meaning(GetItem(FunctionOf(call), ARGUMENTS)))
  }

  lemma EntryRight(call: Value, id: Text)
    requires CallOk(call) && Kept(call).Call?
    ensures EntryFor(call, id, Entry(id, Kept(call).name, Kept(call).text))
  {
    KeptExactly(call);
    EntryParts(id, Kept(call).name, Kept(call).text);
    hide Kept, Entry, FunctionOf, Meaning, Parse, GetItem;
  }

  /** One entry for each of the listed calls, in order, under ids that follow the counter. */
  predicate EntriesFor(calls: seq<Value>, listed: seq<nat>, counter: nat, entries: seq<Value>) {
    && |entries| == |listed| && (forall i :: 0 <= i < |listed| ==> listed[i] < |calls|)
    && forall i :: 0 <= i < |listed| ==> EntryFor(calls[listed[i]], CallId(counter + 1 + i), entries[i])
  }

  lemma OneMore(calls: seq<Value>, listed: seq<nat>, counter: nat, entries: seq<Value>, k: nat, entry: Value)
    requires EntriesFor(calls, listed, counter, entries) && k < |calls|
    requires EntryFor(calls[k], CallId(counter + 1 + |entries|), entry)
    ensures EntriesFor(calls, listed + [k], counter, entries + [entry])
  {
    hide EntryFor, CallId;
  }

  /** The normalisation loop: one entry for each call worth keeping, in order. */
  method Normalise(calls: seq<Value>, counter: nat) returns (entries: seq<Value>, next: nat)
    requires CallsOk(calls)
    ensures EntriesFor(calls, WantedIndices(calls, |calls|), counter, entries) && next == counter + |entries|
  {
    hide Kept, CallId, Entry, CallOk, Wanted, EntryFor, EntriesFor;
    entries, next := [], counter;
    assert EntriesFor(calls, [], counter, []) by { NoEntries(calls, counter); }
    for k := 0 to |calls|
      invariant EntriesFor(calls, WantedIndices(calls, k), counter, entries) && next == counter + |entries|
    {
      var call := Kept(calls[k]);
      KeptExactly(calls[k]);
      if call.Call? {
        next := next + 1;
        EntryRight(calls[k], CallId(next));
        OneMore(calls, WantedIndices(calls, k), counter, entries, k, Entry(CallId(next), call.name, call.text));
        entries := entries + [Entry(CallId(next), call.name, call.text)];
      }
    }
  }

  lemma NoEntries(calls: seq<Value>, counter: nat)
    ensures EntriesFor(calls, [], counter, [])
  {
  }

  /** No two calls share an id until the 32-bit counter has gone all the way round. */
  lemma CallIdsDistinct(m: nat, n: nat)
    requires m < n < m + WRAP
    ensures CallId(m) != CallId(n)
  {
    if CallId(m) == CallId(n) {
      assert CallId(m)[|CALL|..] == NatText(m % WRAP) && CallId(n)[|CALL|..] == NatText(n % WRAP);
      NatTextValue(m % WRAP);
      NatTextValue(n % WRAP);
      SameResidue(m, n);
    }
  }

  lemma SameResidue(m: nat, n: nat)
    requires m < n && m % WRAP == n % WRAP
    ensures n - m >= WRAP
  {
    var q, r := m / WRAP, n / WRAP;
    assert m == q * WRAP + m % WRAP && n == r * WRAP + n % WRAP;
    assert n - m == (r - q) * WRAP;
  }

  // ---- Using a stored call (agent.c) -----------------------------------------------------

  function OrEmpty(r: Outcome<Value>): Value { if r.Done? then r.value else Object([]) }

  /** `parse_tool_arguments`: what the tool executes with. */
  function Executed(func: Value): Value {
    match GetItem(func, ARGUMENTS)
    case None => Object([])
    case Some(Str(s)) => if s == [] || s == EMPTY_OBJECT then Object([]) else OrEmpty(Parse(s))
    case Some(v) => v
  }

  /** `build_messages_json` for a provider that wants an object. */
  function SentObject(func: Value): Value {
    match GetItem(func, ARGUMENTS)
    case None => Object([])
    case Some(Str(s)) => OrEmpty(Parse(s))
    case Some(v) => v
  }

  /** `build_messages_json` for a provider that wants text. */
  function SentText(func: Value): Text
    requires ArgsOk(GetItem(func, ARGUMENTS))
  {
    match GetItem(func, ARGUMENTS)
    case None => EMPTY_OBJECT
    case Some(Str(s)) => s
    case Some(v) => Print(v, false)
  }

  lemma EntryParts(id: Text, name: Text, text: Text)
    ensures FunctionOf(Entry(id, name, text)) == Object([Member(NAME, Str(name)), Member(ARGUMENTS, Str(text))])
    ensures GetItem(FunctionOf(Entry(id, name, text)), NAME) == Some(Str(name))
    ensures GetItem(FunctionOf(Entry(id, name, text)), ARGUMENTS) == Some(Str(text))
    ensures GetItem(Entry(id, name, text), ID) == Some(Str(id))
    ensures GetItem(Entry(id, name, text), TYPE) == Some(Str(FUNCTION))
  {
    var e := Entry(id, name, text);
    assert !CaseEqual(FUNCTION, ID) && !CaseEqual(FUNCTION, TYPE) && CaseEqual(FUNCTION, FUNCTION);
    assert FindMember(e.members, FUNCTION) == FindMember(e.members[1..], FUNCTION)
        == FindMember(e.members[1..][1..], FUNCTION);
    assert !CaseEqual(TYPE, ID) && CaseEqual(TYPE, TYPE) && CaseEqual(ID, ID);
    assert FindMember(e.members, TYPE) == FindMember(e.members[1..], TYPE);
    var f := e.members[2].value;
    assert !CaseEqual(ARGUMENTS, NAME) && CaseEqual(NAME, NAME);
    assert FindMember(f.members, ARGUMENTS) == FindMember(f.members[1..], ARGUMENTS);
  }

  lemma EmptyObjectText()
    ensures Parse(EMPTY_OBJECT) == Done(Object([]), 2)
  {
    assert IfFormat(false, [NEWLINE]) == [] && IfFormat(false, Tabs(0)) == [];
    assert Print(Object([]), false) == [OPEN_BRACE] + [] + ([] + [CLOSE_BRACE]) == EMPTY_OBJECT;
    RoundTrip(Object([]), false);
  }

  /** The stored text of a call stands for what the model meant... */
  lemma StoredTextMeans(args: Option<Value>)
    requires ArgsOk(args)
    ensures StoredText(args).Some? <==> Meaning(args).Some?
    ensures StoredText(args).Some? ==> Found(Parse(StoredText(args).value)) == Meaning(args)
  {
    EmptyObjectText();
    if args.Some? && !args.value.Str? { RoundTrip(args.value, false); }
  }

  // ---- Every response that parses --------------------------------------------------------

  const MESSAGE: Text := Ascii("message")
  const TOOL_CALLS: Text := Ascii("tool_calls")

  /** The tool calls of a response. */
  function CallsOf(response: Value): seq<Value> {
    var message := GetItem(response, MESSAGE);
    if message.None? then []
    else
      var calls := GetItem(message.value, TOOL_CALLS);
      if calls.Some? && calls.value.Array? then calls.value.items else []
  }

  /** What a value is found in can be printed only if it can, and nests no less deeply. */
  lemma {:induction false} MemberWithin(members: seq<Member>, name: Text)
    requires MembersPrintable(members) && FindMember(members, name).Some?
    ensures Printable(FindMember(members, name).value)
    ensures Depth(FindMember(members, name).value) <= MembersDepth(members)
  {
    hide CaseEqual, Printable, Depth;
    if !CaseEqual(name, members[0].key) { MemberWithin(members[1..], name); }
  }

  lemma ItemWithin(v: Value, name: Text)
    requires Printable(v) && GetItem(v, name).Some?
    ensures Printable(GetItem(v, name).value) && Depth(GetItem(v, name).value) <= Depth(v)
  {
    MemberWithin(v.members, name);
  }

  lemma {:induction false} ElementWithin(items: seq<Value>, i: nat)
    requires ItemsPrintable(items) && i < |items|
    ensures Printable(items[i]) && Depth(items[i]) <= ItemsDepth(items)
  {
    hide Printable, Depth;
    if i > 0 { ElementWithin(items[1..], i - 1); }
  }

  lemma CallWithin(call: Value)
    requires Printable(call) && Depth(call) <= NESTING_LIMIT
    ensures CallOk(call)
  {
    hide Printable, Depth, FindMember;
    if GetItem(call, FUNCTION).Some? {
      ItemWithin(call, FUNCTION);
      if GetItem(FunctionOf(call), ARGUMENTS).Some? { ItemWithin(FunctionOf(call), ARGUMENTS); }
    }
  }

  /** The loop can be run on every response that parses, as far as its numbers are 32-bit integers:
      what the round trip asks for, the parser guarantees. */
  lemma ResponseCallsOk(text: Text)
    requires Parse(text).Done? && IntNumbers(Parse(text).value)
    ensures CallsOk(CallsOf(Parse(text).value))
  {
    var s, v := CString(text) + [NUL], Parse(text).value;
    ParsedPrintable(s, SkipBlank(s, SkipBom(s)), 0);
    DepthBounded(s, SkipBlank(s, SkipBom(s)), 0);
    hide Parse, Printable, IntNumbers, CString, FindMember, CallOk;
    forall i | 0 <= i < |CallsOf(v)| ensures CallOk(CallsOf(v)[i]) {
      var message := GetItem(v, MESSAGE).value;
      ItemWithin(v, MESSAGE);
      ItemWithin(message, TOOL_CALLS);
      var calls := GetItem(message, TOOL_CALLS).value;
      assert ItemsPrintable(calls.items) by { ArrayPrintable(calls); }
      ElementWithin(calls.items, i);
      CallWithin(calls.items[i]);
    }
  }

  lemma ArrayPrintable(v: Value)
    requires v.Array? && Printable(v)
    ensures ItemsPrintable(v.items)
  {
  }

  /** Whoever stored it: arguments that mean something are executed with, and sent back as, what they
      mean, as an object or as text; arguments that do not count as no arguments. */
  lemma UsedAsMeant(func: Value)
    requires ArgsOk(GetItem(func, ARGUMENTS))
    ensures match Meaning(GetItem(func, ARGUMENTS))
            case Some(v) => Executed(func) == SentObject(func) == v && Found(Parse(SentText(func))) == Some(v)
            case None => Executed(func) == SentObject(func) == Object([])
  {
    var args := GetItem(func, ARGUMENTS);
    EmptyObjectText();
    if args.Some? && !args.value.Str? { RoundTrip(args.value, false); }
    hide Print, Printable, GetItem, Parse;
    assert Parse([]).Fail? by { EmptyText(); }
  }

  /** ...so every kept call is executed with, and sent back as, exactly that value. */
  lemma ArgumentsPreserved(call: Value, id: Text)
    requires CallOk(call) && Wanted(call)
    ensures Kept(call).Call?
    ensures var args := GetItem(FunctionOf(call), ARGUMENTS);
            var stored := FunctionOf(Entry(id, Kept(call).name, Kept(call).text));
            && Meaning(args) == Some(Executed(stored)) == Some(SentObject(stored))
            && ArgsOk(GetItem(stored, ARGUMENTS)) && Found(Parse(SentText(stored))) == Meaning(args)
            && GetItem(stored, NAME) == GetItem(FunctionOf(call), NAME)
  {
    KeptExactly(call);
    var stored := FunctionOf(Entry(id, Kept(call).name, Kept(call).text));
    EntryParts(id, Kept(call).name, Kept(call).text);
    hide GetItem, Parse, Kept, Entry, FunctionOf, Wanted, Printable, Print;
    assert Meaning(GetItem(stored, ARGUMENTS)) == Found(Parse(Kept(call).text));
    hide Meaning;
    UsedAsMeant(stored);
  }

  /** For every response that parses, with numbers that are 32-bit integers: each call that is kept
      is executed with, and sent back as, the arguments that the model gave. */
  lemma ResponseArgumentsPreserved(text: Text, i: nat, id: Text)
    requires Parse(text).Done? && IntNumbers(Parse(text).value) && i < |CallsOf(Parse(text).value)|
    ensures var call := CallsOf(Parse(text).value)[i];
            CallOk(call) && (Wanted(call) ==>
              Kept(call).Call? && var stored := FunctionOf(Entry(id, Kept(call).name, Kept(call).text));
              Meaning(GetItem(FunctionOf(call), ARGUMENTS)) == Some(Executed(stored)) == Some(SentObject(stored)))
  {
    ResponseCallsOk(text);
    hide CallsOf, Parse, CallOk, Kept, Entry, FunctionOf, IntNumbers, Wanted;
    var call := CallsOf(Parse(text).value)[i];
    if Wanted(call) { ArgumentsPreserved(call, id); }
  }

  lemma EmptyText()
    ensures Parse([]).Fail?
  {
    assert CString([]) + [NUL] == [NUL];
  }
}
