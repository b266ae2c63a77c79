# A model of dobby.ai in Dafny

dobby.ai is an agent runtime written in C. This project models the two parts of it whose
correctness is hardest to see from the code, and proves what they keep:

* **The JSON core** (`src/core/cJSON.c`): the mutually recursive parser over a byte buffer, the
  printer into a growing buffer, the transcoder from UTF-16 escapes to UTF-8, and the doubly linked
  child lists; and what the agent and the Ollama provider rely on it for, the arguments of tool
  calls.
* **The message machine**: the bus with its two bounded queues, the worker and the synchronous
  callers that block on stack-allocated response pairs, the bounded conversation history with
  compaction and rollback, the session table, the sub-agent pool, the scheduler with its restarts,
  and the memory file.

## How the model is built

Bytes are integers from 0 to 255 and texts are sequences of them. Code that works in place is
modelled in place: classes for the parse buffer, the print buffer, list items, the ring, the agent,
the session table, the sub-agent pool and the table of scheduled tasks, arrays for the fixed blocks, and methods
with loops where the C code loops. Each such method is proved against a function on plain values,
and the laws are proved about that function. Read-only input buffers are sequences.

Concurrent parts are machines over steps. A step is what happens between taking and releasing a
lock; waits on condition variables, signals, spurious wakeups, the write of the shutdown flag
outside the locks, thread creation, cancellation and joining are steps of their own. Results quantify
over every sequence of enabled steps. Steps are sequentially consistent, and mutexes and condition
variables behave as POSIX says.

`dafny verify dfyconfig.toml` checks the whole project.

| file | models |
|---|---|
| `Bytes.dfy`, `Options.dfy` | bytes, C strings, character constants, optional values |
| `Utf.dfy` | `\uXXXX` escapes, surrogate pairs, UTF-8 (section 3 of RFC 3629, section 2.2 of RFC 2781) |
| `JsonString.dfy` | the counting and the decoding pass of `parse_string` |
| `JsonValue.dfy`, `JsonParse.dfy` | values, `strtod`, the parser |
| `JsonSyntax.dfy`, `JsonNumber.dfy`, `JsonAccepts.dfy` | concrete syntax trees of RFC 8259, and that the parser accepts all of them |
| `JsonSound.dfy` | the lenient grammar of everything that the parser accepts |
| `JsonText.dfy`, `JsonPrint.dfy` | what the printer prints, the round trip, the print buffer |
| `JsonLookup.dfy`, `ToolCalls.dfy` | member lookup, tool-call arguments |
| `ChildList.dfy` | the linked lists of children |
| `RingQueue.dfy`, `BusMonitor.dfy`, `BusLog.dfy` | the ring, the queues as monitors, and as lists |
| `Exchange.dfy`, `ExchangeLog.dfy`, `TaggedMessages.dfy`, `MessageFrees.dfy` | requests and replies, a log of what is asked and answered, what a tag in an asynchronous message does, who frees messages |
| `AgentHistory.dfy`, `ToolPairs.dfy`, `AgentChat.dfy` | the history, pairs of tool calls and results, the agent |
| `SessionTable.dfy` | the session table |
| `SubagentPool.dfy` | the sub-agent pool |
| `MemoryFile.dfy`, `MemoryLaws.dfy`, `MemoryEdit.dfy`, `MemoryStore.dfy` | the memory file line by line, its laws, what becomes of each line, and its life over stores and recalls |
| `SchedulerJobs.dfy`, `Scheduler.dfy`, `SchedulerClock.dfy`, `SchedulerLedger.dfy` | persisted jobs, the scheduler, its firings by the clock, the ledger that its users see |

## What turned out not to hold

* `src/agent/agent.c:13` says that compaction never splits a tool call from its result. It does:
  for every limit below 8 (`ToolPairs.SmallLimitSplits`) and for replies with several calls
  (`ToolPairs.MultiCallSplits`). `ToolPairs.CompactSplits` says exactly when one compaction splits a
  group, and `ToolPairs.PairsKept` that with a limit of at least 8 and single calls no run ever does.
* `src/agent/agent.c:407-409` says that a provider error rolls back everything that the turn added.
  `AgentHistory.FailedTurnRestores` says exactly when that restores the history: whenever nothing was
  compacted, and otherwise only when equal messages make up for what was dropped. After a compaction
  the rollback may leave a tool call without its result: exactly when is `ToolPairs.FailedTurnUnanswered`,
  and `ToolPairs.RollbackLeavesCall` is an instance.
* The worker trusts any "rp=" in a message's metadata, and `src/channels/whatsapp/whatsapp_channel.c:118-123`
  forwards text from its bridge there. `TaggedMessages.PublishSafeExactly` says that publishing an
  asynchronous message is safe if and only if its metadata carries no tag: with one, some run ends
  with the worker touching a pair that is gone. `Exchange.WhatsAppTag` says which reply addresses
  carry one, and `TaggedMessages.WhatsAppBreaks` gives a run.
* A message that the bus refuses to the command line is freed twice (`src/cli/main.c:769-773`), and only
  such a message is (`MessageFrees.FreedExactly`, `MessageFrees.RefusedFreedTwice`).
* The wakeup law of sleeping producers fails in the window between the write of the shutdown flag
  and the broadcast (`BusMonitor.ProducerWindow`), and only while a broadcast to that very queue is
  still to come (`BusMonitor.BusSafe`).
* Consecutive firings of a scheduled task are an interval apart by the recorded stamps, not by the
  clock. `SchedulerClock.EarlyExactly` says, for every state of every run with a steady clock, exactly
  when the next firing can come less than the interval after the last one. Right after a firing that
  is so if and only if it lagged behind its stamp and the interval is more than the second that the
  thread sleeps (`SchedulerClock.EarlyAfterFiring`). Two firings are never closer than a second, nor
  than the interval less that lag (`SchedulerClock.WallGap`), and every interval and lag has a run that
  reaches this bound (`SchedulerClock.GapReached`).
* Storing and recalling a fact read headings differently: `src/memory/md_memory.c:251-265` compares the
  untrimmed heading cut at a carriage return, `src/memory/md_memory.c:339-343` the trimmed one.
  `MemoryLaws.RecalledExactly` says exactly when the stored value is recalled: when the first thing
  that recall comes to is a place where the store writes (or an old bullet with the same value), not
  an old bullet under a heading that only recall takes for the section. So a heading with a blank
  behind it shadows the new value if the key stands under it (`MemoryStore.LooseHeadingShadows`) and
  does no harm otherwise (`MemoryStore.LooseHeadingHarmless`), and one with a carriage return inside
  hides it (`MemoryStore.ReturnHeadingHides`). Every other fact is recalled as before in any case.
* A value that fills the bullet's buffer makes a line of 2048 bytes. The next store copies that line
  with a NUL in place of its newline, and writing stops there: everything behind the line is lost
  (`MemoryLaws.BehindLost`), so that two stores break recall after store
  (`MemoryStore.OverlongLosesNext`). A store keeps the lines short if and only if its bullet has less
  than 2047 bytes (`MemoryLaws.LinedExactly`).
* A key with a colon or with blanks around it is never found again, and every store of it adds another
  bullet: `MemoryLaws.FactExactly` and `MemoryLaws.AgainExactly` say exactly which facts are recalled and
  for which storing twice is storing once, and `MemoryStore.ColonKeyLeaks` that such a bullet comes up
  under another key. The first store after the file has grown above the cap erases every other fact
  (`MemoryStore.CapErases`).
* A gateway caller that the bus refuses at shutdown stays blocked in every clean continuation
  (`Exchange.RefusedStaysBlocked`; `src/gateway/gateway.c:229-232`).
* A timeout of a sub-agent is not final: it can still end as done exactly while its worker is alive
  (`SubagentPool.LateExactly`, `SubagentPool.TimeoutOverwritten`). A conversation shares its session key with another one exactly from 319 bytes on (`SessionTable.KeyShared`).
* Appending an item that is still linked leaves something that is not a list
  (`ChildList.AddItemToArray` says exactly when).

## Model

| member | source | states |
|---|---|---|
| `Utf.EncodeThenDecode` | src/core/cJSON.c:764-812 | what is emitted for a scalar value decodes, by an independent decoder that refuses overlong forms and surrogates, to that value |
| `Utf.DecodeThenEncode` | src/core/cJSON.c:764-812 | the emitted form is the only one that decodes to its value, hence the shortest |
| `Utf.EscapeIsRead` | src/core/cJSON.c:698-760 | the text of every scalar value, escaped alone or as a surrogate pair with each digit in either case, is read as that value and consumed whole |
| `Utf.RefusedExactly` | src/core/cJSON.c:698-760 | one escape with room for its bytes is refused exactly when it is a lone or misordered surrogate |
| `Utf.ParseHex4` | src/core/cJSON.c:661-694 | four hexadecimal digits give their value; any other byte among them gives 0 |
| `Utf.UnitRead` | src/core/cJSON.c:661-694 | the four digits of a 16-bit unit, printed in either case, read as that unit |
| `Utf.UnitSpelt` | src/core/cJSON.c:661-694 | and any four hexadecimal digits are the printed form of what they read as |
| `Utf.ReadLiteral` | src/core/cJSON.c:698-760 | the branches agree with the escape as arithmetic on code points |
| `Utf.EncodingMasks` | src/core/cJSON.c:796-808 | on 32-bit words the masks and shifts of the encoding loop are remainders, quotients and sums |
| `Utf.JoiningMasks` | src/core/cJSON.c:752-753 | on 32-bit words the masks that join two surrogates give the code point of the pair |
| `Utf.EmitUtf8` | src/core/cJSON.c:762-812 | the shifting loop writes the UTF-8 form into the output and nothing else |
| `Utf.TranscodeLiteral` | src/core/cJSON.c:698-816 | an escape is consumed whole and its UTF-8 form written at the output position, or refused with nothing written |
| `JsonString.AdvanceTwo` | src/core/cJSON.c:829-859 | any two input bytes are worth one reserved output byte, whether or not the passes are in step |
| `JsonString.StepFits` | src/core/cJSON.c:870-921 | every decoding step stays within what the counting pass reserved, in step or out of step |
| `JsonString.DecodedFits` | src/core/cJSON.c:819-946 | for every input the decoded bytes fit the reserved size |
| `JsonString.OutOfStep` | src/core/cJSON.c:819-946 | a malformed escape does knock the decoding pass out of step, so that the closing quote is read as escaped |
| `JsonString.ScanString` | src/core/cJSON.c:829-862 | the counting loop finds the closing quote and the number of backslash pairs, or that there is no closing quote |
| `JsonString.DecodeInto` | src/core/cJSON.c:864-926 | every write of the decoding loop, and the final NUL, is inside the block, and the block then holds the decoded string |
| `JsonString.ParseString` | src/core/cJSON.c:819-946 | the two passes together give the decoded string and the offset after the closing quote, or fail |
| `JsonParse.SkipBlank` | src/core/cJSON.c:1085-1108 | skipping blanks never leaves the buffer nor moves backwards, the step back at the end included |
| `JsonParse.ValueAt` | src/core/cJSON.c:1363-1415 | parsing terminates on every buffer and makes strict progress inside it whenever it succeeds |
| `JsonParse.DepthBounded` | src/core/cJSON.c:1492-1767 | no parsed value nests deeper than the limit, whatever the input |
| `JsonParse.ParsedPrintable` | src/core/cJSON.c:1363-1767 | whatever the input, a parsed value has C strings for strings and keys, so that it can be printed once its numbers are 32-bit integers |
| `JsonParse.StrictExactly` | src/core/cJSON.c:1173-1181 | with the demand for a terminator a C string is taken if and only if it is taken without and nothing but blanks follows the value |
| `JsonParse.Parser.SkipWhitespace` | src/core/cJSON.c:1085-1108 | the loop on the offset moves it to the next byte above the blanks, or to the last byte |
| `JsonParse.Parser.ParseNumber` | src/core/cJSON.c:307-408 | the copied run of number bytes is read as far as it is a number, and the offset moves by what was used |
| `JsonNumber.AssembledRight` | src/core/cJSON.c:307-408 | the number that is computed from sign, digits and exponent is what the numeral stands for place by place: whole digits by powers of ten, fraction digits by tenths, the exponent by multiplying or dividing |
| `JsonParse.Parser.ParseValue` | src/core/cJSON.c:1363-1415 | the method on offset and depth refines the recursive description of values, reads only inside the buffer and restores the depth |
| `JsonParse.Parser.ParseArray` | src/core/cJSON.c:1492-1587 | as above for arrays, with the nesting check and the step back before the loop |
| `JsonParse.Parser.ParseItems` | src/core/cJSON.c:1521-1560 | the do-while loop over elements gathers exactly the elements |
| `JsonParse.Parser.ParseObject` | src/core/cJSON.c:1652-1767 | as above for objects |
| `JsonParse.Parser.ParseMembers` | src/core/cJSON.c:1680-1740 | the do-while loop over members gathers exactly the members |
| `JsonParse.Parser.ParseDocument` | src/core/cJSON.c:1142-1219 | the byte order mark and blanks are skipped and one value is parsed, with or without the demand for a terminator |
| `JsonAccepts.StringAccepted` | src/core/cJSON.c:819-946 | every string of section 7 of RFC 8259 is accepted with its meaning |
| `JsonAccepts.LoneSurrogateRefused` | src/core/cJSON.c:698-946 | a whole literal in which, after any characters, a lone or misordered surrogate escape stands is refused |
| `JsonAccepts.NumberAccepted` | src/core/cJSON.c:307-408 | every number of section 6 of RFC 8259 is accepted, whole, with the value that its places, its sign and its exponent give |
| `JsonAccepts.LooseAccepted` | src/core/cJSON.c:307-408 | the same for numbers with digits on one side of the point only |
| `JsonAccepts.TreeAccepted` | src/core/cJSON.c:1363-1767 | every concrete syntax tree of RFC 8259 within the nesting limit is accepted with the value it stands for, whatever its blanks and spellings |
| `JsonAccepts.DocumentAccepted` | src/core/cJSON.c:1142-1219 | a whole text with optional byte order mark and blanks around the value is accepted, and parsing stops right after the value |
| `JsonSound.ValueIsForm` | src/core/cJSON.c:1363-1767 | whatever the parser accepts, wherever it stands, is the text of a lenient form that stands for the value it returns |
| `JsonSound.LiteralIsForm` | src/core/cJSON.c:819-946 | what the two string passes accept depends on nothing but the literal, and they accept that literal alone with the same result |
| `JsonSound.NumberIsForm` | src/core/cJSON.c:307-408 | what is read as a number is the text of a number with digits on one side of the point at least, and the value is what that stands for |
| `JsonSound.LooseExactly` | src/core/cJSON.c:307-408 | such numbers are exactly the texts with a leading minus or digit that `strtod` takes whole |
| `JsonSound.DocumentIsForm` | src/core/cJSON.c:1142-1219 | every accepted text is an optional byte order mark, blanks, a lenient form with the returned value, and parsing stops right behind the form |
| `JsonText.CharsOfRight` | src/core/cJSON.c:949-1068 | a printed string is a string of the grammar that stands for the same bytes |
| `JsonText.LayoutRight` | src/core/cJSON.c:1418-1881 | what is printed, compact or formatted, is the text of a syntax tree that stands for the same value |
| `JsonText.PrintedNulFree` | src/core/cJSON.c:1418-1881 | printed text contains no NUL |
| `JsonText.RoundTrip` | src/core/cJSON.c:1363-1881 | parsing a printed value, compact or formatted, gives back the value and stops at the end of the text |
| `JsonText.PrintInjective` | src/core/cJSON.c:1418-1881 | different values print differently |
| `JsonPrint.PrintBuffer.Ensure` | src/core/cJSON.c:485-568 | success leaves the written prefix as it was and enough room behind it, and happens exactly when the sizes and the allocator allow it |
| `JsonPrint.PrintBuffer.UpdateOffset` | src/core/cJSON.c:571-581 | the offset moves to the end of NUL-free text that stands at it |
| `JsonPrint.PrintBuffer.PrintNumber` | src/core/cJSON.c:583-657 | a 32-bit integer is written in decimal after the text so far |
| `JsonPrint.PrintBuffer.PrintStringPtr` | src/core/cJSON.c:949-1068 | the counting pass asks for exactly what the copying pass writes, and the quoted string stands after the text so far |
| `JsonPrint.PrintBuffer.CopyEscaped` | src/core/cJSON.c:1017-1062 | the copying pass writes the escaped bytes in place, inside the reservation |
| `JsonPrint.PrintBuffer.RenderValue` | src/core/cJSON.c:1418-1489 | on success the value's text stands after the text so far, terminated; it fails only for want of room or memory |
| `JsonPrint.PrintBuffer.RenderArray` | src/core/cJSON.c:1590-1649 | the same for arrays, every write inside its reservation |
| `JsonPrint.PrintBuffer.EmitItem` | src/core/cJSON.c:1616-1639 | one round of the loop adds an element and its separator |
| `JsonPrint.PrintBuffer.RenderObject` | src/core/cJSON.c:1770-1881 | the same for objects |
| `JsonPrint.PrintBuffer.EmitMember` | src/core/cJSON.c:1800-1860 | one round of the loop adds tabs, key, colon, value and separator |
| `JsonPrint.PrintBuffer.PrintDocument` | src/core/cJSON.c:1234-1299 | what is returned is exactly the printed text, and there is a result whenever memory suffices |
| `JsonPrint.PrintBytesStep` | src/core/cJSON.c:968-1062 | the text of a prefix grows by the text of the next byte and never exceeds the text of the whole string |
| `ChildList.ChildrenUnique` | src/core/cJSON.c:1907-1924 | the links determine the list of children |
| `ChildList.GetArrayItem` | src/core/cJSON.c:1907-1924 | walking the links gives the child at the position, or none |
| `ChildList.AddItemToArray` | src/core/cJSON.c:2012-2043 | appending refines appending to the sequence if and only if the list was empty or the item came unlinked |
| `ChildList.Detach` | src/core/cJSON.c:2243-2277 | detaching refines removing from the sequence, keeps the invariant, and leaves the item unlinked |
| `ChildList.DetachFromArray` | src/core/cJSON.c:2279-2287 | the child at the position is detached; outside the list nothing happens |
| `ChildList.InsertItem` | src/core/cJSON.c:2319-2351 | inserting before a child refines inserting into the sequence; at the end it does under the same condition as appending |
| `ChildList.Replace` | src/core/cJSON.c:2353-2400 | replacing refines updating the sequence and unlinks the old item |
| `ToolCalls.Normalise` | src/providers/ollama/ollama.c:141-214 | one entry for each call that has a function, a non-empty text for its name and arguments that mean something, in order and under consecutive ids; each entry has that name and text that means the same arguments |
| `ToolCalls.KeptExactly` | src/providers/ollama/ollama.c:141-214 | a call is kept if and only if it has a function, a non-empty name and arguments that mean something, and then with its name and text of the same meaning |
| `JsonLookup.FirstMatch` | src/core/cJSON.c:1936-1970 | a member is looked up as the first whose key matches letter by letter, case aside, and none only if none does |
| `JsonLookup.LettersMatch` | src/core/cJSON.c:133-155 | two bytes match exactly when they are equal or the two cases of one letter |
| `ToolCalls.CallIdsDistinct` | src/providers/ollama/ollama.c:141-214 | ids repeat only after the 32-bit counter has gone all the way round |
| `ToolCalls.StoredTextMeans` | src/providers/ollama/ollama.c:141-214 | the stored text of a call parses to the value that the model meant |
| `ToolCalls.ArgumentsPreserved` | src/agent/agent.c:209-231 | for every call worth keeping, the value a tool executes with and the object or text sent back to the provider are the value that the model meant |
| `ToolCalls.UsedAsMeant` | src/agent/agent.c:209-231 | whoever stored the call: arguments that mean something are executed with and sent back as that, and others as no arguments |
| `ToolCalls.ResponseCallsOk` | src/providers/ollama/ollama.c:119-214 | every response that parses, with 32-bit integers for numbers, meets what the normalisation loop asks for |
| `ToolCalls.ResponseArgumentsPreserved` | src/providers/ollama/ollama.c:119-214 | for every such response each call worth keeping is kept, executed with, and sent back as, the arguments that the model gave |
| `RingQueue.Ring.constructor` | src/bus/bus.c:64-69 | a new ring is the empty sequence |
| `RingQueue.Ring.Push` | src/bus/bus.c:78-89 | pushing appends to the sequence, or refuses at shutdown |
| `RingQueue.Ring.Pop` | src/bus/bus.c:91-102 | popping takes the oldest item; what is queued at shutdown is still handed out |
| `BusMonitor.StepKeeps` | src/bus/bus.c:78-118 | every step of every thread keeps the queue invariant: first-in first-out, bounded, no lost wakeups |
| `BusMonitor.QuietKept` | src/bus/bus.c:78-118 | once the flag is set, a queue on which nobody sleeps stays so |
| `BusMonitor.BusStepKeeps` | src/bus/bus.c:78-133 | every step of both queues and of shutdown keeps the bus invariant |
| `BusMonitor.DueKept` | src/bus/bus.c:128-133 | a broadcast that is due stays due until it is made |
| `BusMonitor.BusSafe` | src/bus/bus.c:78-133 | over every run: accepted is taken followed by queued; a sleeping consumer means no more items than notified consumers; dually for producers, except after the flag while a broadcast to that queue is still to come; after the flag every sleeper has such a broadcast ahead; nobody sleeps on an inbound queue that was broadcast to, nor on either queue once `bus_shutdown` has returned |
| `BusLog.QueuesAreLists` | src/bus/bus.c:78-133 | over every interleaving each queue is a first-in first-out list on which a call takes effect when it leaves: accepted are exactly the messages of the pushes that left before the shutdown, handed out the first of them, one for each pop that found one |
| `BusMonitor.ProducerWindow` | src/bus/bus.c:78-133 | a reachable state between flag and broadcast in which a slot is free, no producer is notified and one sleeps |
| `Exchange.TagRoundTrip` | src/bus/bus.c:188-196 | the tag decodes to the address that was printed into it |
| `Exchange.SpeltHexRead` | src/bus/bus.c:188-196 | a number is read off any of its spellings: blanks, sign, prefix, digits of either case; negative ones count down from two to the power 64, too large ones read as the largest |
| `Exchange.FindTagFits` | src/bus/bus.c:188-196 | the first tag in the metadata is used |
| `Exchange.StepKeeps` | src/bus/agent_worker.c:19-67 | every step of callers, channels, worker and shutdown that publishes no foreign tag keeps the exchange invariant |
| `Exchange.ExchangeSafe` | src/bus/agent_worker.c:19-67 | over every run in which no asynchronous message carries a tag: the worker never touches a pair that is gone, every address still in use belongs to a caller blocked on it, every taken message has exactly one reply, to its own pair or outbound with the same channel, chat and metadata, and callers collect the answer to their own message |
| `ExchangeLog.EachAnswered` | src/bus/agent_worker.c:19-67 | over every run, against a log kept from the steps alone: messages are taken in the order they were asked, the i-th reply carries the i-th answer of the agent, to the pair that the tag names or back to the same channel and chat with that answer for content (empty if there is none), and the dispatcher gets the posted replies in order |
| `ExchangeLog.CallerServed` | src/bus/agent_worker.c:46-49 | over every clean run what a synchronous caller finds in its pair is the agent's answer to its own request |
| `Exchange.RefusedStaysBlocked` | src/gateway/gateway.c:229-232 | a gateway caller that is refused at shutdown stays blocked without an answer in every clean continuation |
| `Exchange.RunKeeps` | src/gateway/gateway.c:209-234 | the invariant holds whatever the order of callers, whether they wait on refusal as the gateway does or give up as the command line does |
| `Exchange.WhatsAppTag` | src/channels/whatsapp/whatsapp_channel.c:118-123 | the metadata of a WhatsApp message carries a tag exactly when the part of the reply address that fits would carry it alone |
| `TaggedMessages.CatchesUp` | src/bus/agent_worker.c:19-67 | however much is queued, the worker can get to the last message, and every pair named on the way has its answer |
| `TaggedMessages.PublishSafeExactly` | src/bus/agent_worker.c:45-50 | after any clean run with the bus open and the worker running, publishing an asynchronous message is safe, whatever clean run follows, if and only if it carries no tag |
| `TaggedMessages.WhatsAppBreaks` | src/channels/whatsapp/whatsapp_channel.c:118-123 | a WhatsApp message with the reply address "rp=1" can make the worker touch a pair that never was |
| `MessageFrees.FreedExactly` | src/bus/bus.c:78-89 | over every run a message with its caller or in flight has not been freed, every other one has, and twice if and only if the bus refused it to the command line |
| `MessageFrees.RefusedFreedTwice` | src/cli/main.c:769-773 | a run in which a message is freed twice |
| `AgentHistory.AddAllBounded` | src/agent/agent.c:55-108 | however many messages are added, the count stays within the limit or 2, and the system message stays first |
| `AgentHistory.LoopBounded` | src/agent/agent.c:391-475 | the same for every history that the provider is shown and for the one the turn leaves |
| `AgentHistory.AddAllShape` | src/agent/agent.c:55-108 | of all that was there and all that was added, the first message and a suffix remain, the whole exactly when it fits |
| `AgentHistory.LoopFailed` | src/agent/agent.c:363-475 | a failed turn leaves everything it added, rolled back to the old count |
| `AgentHistory.FailedTurnRestores` | src/agent/agent.c:363-475 | a failed turn restores exactly the history before it if and only if what compactions dropped is repeated right behind: always when nothing was compacted or only the system message was there, never when something was and the second message is not said again |
| `AgentHistory.Chat` | src/agent/agent.c:363-475 | at most as many provider calls as iterations are allowed |
| `AgentHistory.QuarterDropped` | src/agent/agent.c:55-92 | a compaction drops at least one message and at most a quarter of the limit, and the whole quarter when no message has tool calls |
| `AgentHistory.GroupRight` | src/agent/agent.c:414-449 | a reply with tool calls adds the message with its calls and then, for each call in order, a tool message with the id and name of that call and its result |
| `AgentHistory.LoopExactly` | src/agent/agent.c:391-475 | the provider is asked once for each reply with tool calls and once more, is shown each time everything added so far, and the turn ends as the first other reply says, or gives up |
| `AgentHistory.TurnExactly` | src/agent/agent.c:363-475 | the same for a whole turn: an empty text is refused and changes nothing, the first history shown ends with the user's text, and an answered turn leaves everything, the answer last |
| `AgentHistory.PromptShown` | src/agent/agent.c:363-475 | whatever is compacted or rolled back, every history shown or left starts with the system prompt of the first turn |
| `AgentChat.Agent.CompactHistory` | src/agent/agent.c:55-92 | the array after compaction, the moved tail included, is the compacted history |
| `AgentChat.Agent.AddMessage` | src/agent/agent.c:93-108 | the compacted history always leaves room in the array, and the message is added to it |
| `AgentChat.Agent.RollBackTo` | src/agent/agent.c:285-288 | popping until the old count leaves the old prefix |
| `AgentChat.Agent.Chat` | src/agent/agent.c:363-475 | the bounded loop of provider calls, tool executions and rollbacks refines the turn on histories |
| `AgentChat.Agent.NewConversation` | src/agent/agent.c:270-274 | the history is empty afterwards |
| `ToolPairs.CompactSplits` | src/agent/agent.c:55-92 | compaction keeps every result in its group if and only if the first message kept behind the cut is not a result |
| `ToolPairs.RollbackSplits` | src/agent/agent.c:407-409 | a rollback leaves an unanswered call if and only if the cut falls right behind a message with calls |
| `ToolPairs.FailedTurnUnanswered` | src/agent/agent.c:363-475 | a failed turn from a history without unanswered calls leaves one if and only if the message that compactions move to the end of the old count has tool calls and more follows |
| `ToolPairs.RunBounded` | src/agent/agent.c:363-475 | over every run of chats and new conversations every history fits and starts with the system message |
| `ToolPairs.PairsKept` | src/agent/agent.c:55-108 | with a limit of at least 8 and single calls, over every run each tool result directly follows the message with the very call that it answers, by id and name |
| `ToolPairs.SmallLimitSplits` | src/agent/agent.c:55-92 | for every limit below 8 some turn of single calls breaks this |
| `ToolPairs.MultiCallSplits` | src/agent/agent.c:55-92 | for every limit from 8 on a single reply with several calls breaks even the grouping |
| `ToolPairs.RollbackLeavesCall` | src/agent/agent.c:403-411 | after a compaction within the turn, a failed turn of single calls may leave a call without its result |
| `SessionTable.KeyInjective` | src/session/session.c:101-102 | pairs with a colon-free channel and a key that fits have keys of their own |
| `SessionTable.KeyShared` | src/session/session.c:101-102 | a pair with a colon-free channel shares its key with another such pair if and only if its text has at least 319 bytes |
| `SessionTable.ColonMoves` | src/session/session.c:101-102 | a colon moves freely between channel and chat without changing the key |
| `SessionTable.HashStart` | src/session/session.c:17-22 | the hash loop gives the start of the probe sequence |
| `SessionTable.ViewRight` | src/session/session.c:63-75 | a table without double keys is a map with as many keys as slots in use |
| `SessionTable.SessionManager.FindSlot` | src/session/session.c:63-75 | the slot that holds the key wherever it is, despite holes; failing that the first free slot in probing order; none only when all are in use |
| `SessionTable.SessionManager.Evict` | src/session/session.c:78-94 | exactly the sessions idle for the time to live are removed, and counted |
| `SessionTable.SessionManager.GetOrCreate` | src/session/session.c:96-140 | the table refines the request on the map: no key is ever in two slots, the count is the number in use, and the slot returned belongs to the key |
| `SessionTable.SessionManager.Release` | src/session/session.c:142-148 | only the slot's session changes, and of that only the time, which is that of the release |
| `SessionTable.FailsWhen` | src/session/session.c:96-140 | a request fails if and only if the key is new and all 64 sessions are in use and not stale, or the factory fails |
| `SessionTable.SessionDropped` | src/session/session.c:78-140 | an operation drops a session if and only if it sweeps and finds it idle for the time to live; otherwise its agent stays |
| `SessionTable.AgentKept` | src/session/session.c:63-148 | over every run and every continuation: a session stays if and only if no operation that sweeps comes a time to live after its last use (its last release or the request that made it, read off the operations), and then it answers with the agent made for it |
| `SessionTable.DroppedExactly` | src/session/session.c:78-148 | after every run an operation drops a session if and only if it sweeps and comes a time to live after the last use |
| `SessionTable.Recorded` | src/session/session.c:96-148 | what the table records is the time of the last use and the agent that the factory made |
| `SessionTable.PairsIsolated` | src/session/session.c:96-140 | over every run different conversations never share an agent |
| `SubagentPool.AllocSlot` | src/tools/subagent/subagent.c:222-248 | the first idle slot, else the oldest completed one, else none |
| `SubagentPool.ChosenUnique` | src/tools/subagent/subagent.c:222-248 | that choice is unique |
| `SubagentPool.ChosenNotRunning` | src/tools/subagent/subagent.c:222-248 | a running slot is never chosen |
| `SubagentPool.ToolStatus` | src/tools/subagent/subagent.c:366-398 | the scan shows the slot of the id that was asked for |
| `SubagentPool.Pool.Spawn` | src/tools/subagent/subagent.c:252-305 | the chosen slot gets the next id, running or, when creation fails, idle again with the id used up; no other slot changes |
| `SubagentPool.Pool.Report` | src/tools/subagent/subagent.c:161-180 | the slot behind the worker's pointer gets outcome, result and time |
| `SubagentPool.Pool.Expire` | src/tools/subagent/subagent.c:192-213 | only a running slot of the watchdog's own id is timed out |
| `SubagentPool.StepKeeps` | src/tools/subagent/subagent.c:136-336 | every step of spawners, workers and watchdogs keeps the pool invariant |
| `SubagentPool.PoolSafe` | src/tools/subagent/subagent.c:136-405 | over every interleaving: ids strictly increase, a worker writes only to the slot of its own id, a watchdog times out only its own sub-agent, a slot is recycled only after its occupant replied or timed out and no live worker points to it, and a query shows only what belongs to its id: its reply, as failed exactly when it starts like an error message and cut with a notice above the cap, or its timeout |
| `SubagentPool.OldestRecycled` | src/tools/subagent/subagent.c:222-248 | over every interleaving a spawner takes an idle slot if there is one, and otherwise the slot of the sub-agent that ended first, by the times of reports and timeouts |
| `SubagentPool.LateExactly` | src/tools/subagent/subagent.c:149-213 | over every run a timed-out sub-agent can still end as done if and only if its worker is alive, or it is shown so already |
| `SubagentPool.ReportsLate` | src/tools/subagent/subagent.c:161-180 | in every state that keeps the invariant the report of a live worker is what a query shows next |
| `SubagentPool.TimeoutOverwritten` | src/tools/subagent/subagent.c:161-171 | a timed-out sub-agent may still end as done |
| `SubagentPool.FirstTimesOut` | src/tools/subagent/subagent.c:192-213 | a run in which the first sub-agent is timed out and its worker still holds the slot |
| `MemoryLaws.BulletReads` | src/memory/md_memory.c:219-362 | the bullet of a storable fact reads back as its key and value |
| `MemoryLaws.StorableExactly` | src/memory/md_memory.c:225-362 | of the facts whose bullet fits a line, those with a trimmed, short, colon-free key and a trimmed value of at most 510 bytes are the ones that read back |
| `MemoryLaws.HeadingAgrees` | src/memory/md_memory.c:251-343 | no heading names one section for the store and another one for recall |
| `MemoryLaws.SeenFrom` | src/memory/md_memory.c:241-362 | from any line on, recall after store gives the stored value or an old one, whichever it comes to first, or nothing |
| `MemoryLaws.RecalledExactly` | src/memory/md_memory.c:219-362 | for every newline-terminated file with short lines, the stored value is recalled if and only if recall first comes to a place where the store writes, or to an unreached old bullet with the same value |
| `MemoryLaws.ExactRecalled` | src/memory/md_memory.c:219-362 | with headings that store and recall read alike, a fact whose bullet reads back with its key is always recalled |
| `MemoryLaws.FactExactly` | src/memory/md_memory.c:219-362 | for every newline-free fact under exact headings: what recall after store gives, and that it is the value if and only if the fact is storable |
| `MemoryLaws.AgainExactly` | src/memory/md_memory.c:219-316 | for every newline-free fact: storing twice is storing once if and only if its bullet reads back with its key |
| `MemoryLaws.OthersKept` | src/memory/md_memory.c:219-362 | every other section is recalled as before, and in the section every key but the stored one and the one that the bullet reads back with, whatever the headings |
| `MemoryLaws.StoredAgain` | src/memory/md_memory.c:219-316 | storing the same fact again changes nothing, whatever the headings |
| `MemoryLaws.StoredRegular` | src/memory/md_memory.c:219-316 | a file whose headings are read alike stays one |
| `MemoryLaws.LinedExactly` | src/memory/md_memory.c:225-306 | a store keeps the lines of a file within the line buffer if and only if its bullet has less than 2047 bytes |
| `MemoryLaws.BehindLost` | src/memory/md_memory.c:241-306 | what the next store writes does not depend on anything behind a line of 2048 bytes that it keeps |
| `MemoryStore.ReadBack` | src/memory/md_memory.c:93-119 | what was written, up to its first NUL, is read back unless it has grown above the cap, when the memory reads as empty |
| `MemoryEdit.StoredExactly` | src/memory/md_memory.c:236-306 | what a store makes of every line, without the flags of the loop: each line stays in its place but for those with the key under the section, which become the bullet; the bullet is added before the first heading that ends the section, or at the end of the file, with a new heading if the file does not end under the section |
| `MemoryEdit.RecalledFirst` | src/memory/md_memory.c:322-362 | recall gives the value of the first bullet with the key under the section, and nothing if there is none |
| `MemoryStore.StoreLaws` | src/memory/md_memory.c:219-362 | on every newline-terminated file with short lines: above the cap nothing is recalled; below it the frame law, idempotence, and recall of the stored value exactly as above |
| `MemoryStore.MemoryIsMap` | src/memory/md_memory.c:219-362 | over every sequence of stores under exact headings each fact is recalled with the value stored last |
| `MemoryStore.CapErases` | src/memory/md_memory.c:93-108 | a store on a file above the cap leaves its own fact and no other |
| `MemoryStore.ColonKeyLeaks` | src/memory/md_memory.c:225-290 | a key with a colon is lost, and its bullet is recalled under the part before the colon |
| `MemoryStore.LooseHeadingShadows` | src/memory/md_memory.c:251-266 | under a heading with a blank behind it that holds the key, recall still gives the old value after a store |
| `MemoryStore.LooseHeadingHarmless` | src/memory/md_memory.c:251-266 | under such a heading without the key the stored value is recalled |
| `MemoryStore.ReturnHeadingHides` | src/memory/md_memory.c:251-266 | under a heading with a carriage return inside the stored value is not recalled at all |
| `MemoryStore.OverlongLosesNext` | src/memory/md_memory.c:225-306 | after a store whose bullet fills its buffer, the next store under the section is lost |
| `MemoryFile.StoreText` | src/memory/md_memory.c:236-306 | the line loop with its three flags and its buffer, and what follows it, computes the rewritten file, lines of 2048 bytes included |
| `MemoryFile.RecallText` | src/memory/md_memory.c:322-362 | the line loop finds the first bullet with the key under the section |
| `SchedulerJobs.CollectJobs` | src/tools/scheduler/scheduler.c:199-214 | exactly the active tasks are written, in order |
| `SchedulerJobs.ReadItems` | src/tools/scheduler/scheduler.c:244-271 | the loop over the parsed items fills the table, passing over items without name, task or interval |
| `SchedulerJobs.LoadAfterSave` | src/tools/scheduler/scheduler.c:199-274 | loading the text that was saved gives exactly the saved tasks in order, last run now, and a next id above all of theirs |
| `SchedulerJobs.LoadExactly` | src/tools/scheduler/scheduler.c:226-274 | for any file that parses: its items with a name, a task and an interval become tasks in order, as many as fit, each with the fields of its item; an id that is not given is above all before it |
| `SchedulerJobs.ValueIntRight` | src/core/cJSON.c:387-400 | `valueint` is the number without its fraction, held within the range of `int` |
| `Scheduler.LoadFits` | src/tools/scheduler/scheduler.c:244-271 | however many items a file holds, the table is never overrun |
| `Scheduler.Table.Add` | src/tools/scheduler/scheduler.c:301-350 | a task with a positive interval is appended under the next id while there is room, and otherwise nothing changes |
| `Scheduler.Table.Control` | src/tools/scheduler/scheduler.c:379-427 | the first active task with the id is paused, resumed or deleted, and no other changes |
| `Scheduler.Table.Visit` | src/tools/scheduler/scheduler.c:130-178 | a task fires exactly when it is active, not paused and due, and is stamped |
| `Scheduler.StepKeeps` | src/tools/scheduler/scheduler.c:130-427 | every step of the thread, the tools and restarts keeps the invariant, although the lock is dropped within a scan |
| `Scheduler.ReloadedRight` | src/tools/scheduler/scheduler.c:226-274 | a restart restores exactly what was saved last, in order |
| `Scheduler.SchedulerSafe` | src/tools/scheduler/scheduler.c:130-427 | over every run with restarts, whatever the clock does: stamps of consecutive firings, and of the first after an add or load, are at least the interval apart; ids are unique and below the next one; a restart brings back exactly the active tasks |
| `SchedulerLedger.TableIsLedger` | src/tools/scheduler/scheduler.c:199-427 | over every run, restarts and failed writes included, the active tasks and what the file holds are exactly the jobs of a ledger that is kept from the calls of the tools alone, in order and under the same ids |
| `SchedulerLedger.FiresExactly` | src/tools/scheduler/scheduler.c:130-178 | after every run the thread fires the task that it visits exactly when its job stands in the ledger, is not paused and its interval has passed since the stamp of the last firing, and no other step fires any; the lock is dropped exactly for messages |
| `SchedulerClock.WallGap` | src/tools/scheduler/scheduler.c:130-178 | by a steady clock two consecutive firings are at least a second apart, and at least the interval less the lag of the first |
| `SchedulerClock.NeverEarlier` | src/tools/scheduler/scheduler.c:130-178 | no run fires a task before the earliest time computed from the state |
| `SchedulerClock.FiresThen` | src/tools/scheduler/scheduler.c:130-178 | some run fires an active task exactly at that time |
| `SchedulerClock.EarlyExactly` | src/tools/scheduler/scheduler.c:130-178 | in every state of every steady run: some continuation fires the task less than its interval after its last firing if and only if that earliest time is |
| `SchedulerClock.EarlyWhileAsleep` | src/tools/scheduler/scheduler.c:133-138 | while the thread sleeps: if and only if the last firing lagged and neither the clock nor the end of the sleep is an interval past it |
| `SchedulerClock.EarlyAfterFiring` | src/tools/scheduler/scheduler.c:140-178 | right after a firing: if and only if it lagged behind its stamp and the interval is more than a second |
| `SchedulerClock.GapReached` | src/tools/scheduler/scheduler.c:130-178 | for every interval and every lag some run has two firings exactly as close as this bound |

## Left out

- HTTP, IMAP, SMTP and the channels built on them: network plumbing; the gateway appears only as a synchronous caller.
- Shell, serial, file and skill tools, templates, the command line, logging and HTML: effects on the operating system and user interface.
- Configuration, conversation files, the allow list and the tool registry: small lists that would only add easy members.
- Rounding of numbers: `strtod` is exact here and numbers are reals, so `JsonText.RoundTrip` is about 32-bit integers; printing of other numbers and the locale's decimal point are not modelled.
- `cJSON_Minify`, `cJSON_Duplicate`, `cJSON_Compare`, `cJSON_Raw`, references, constant keys, allocator hooks and in-place item updates: cases without depth, or foreign calls; a duplicate is taken to be equal to its original.
- Allocation failure, except where the code has a branch for it that a result is about: the print buffer, the worker's reply, session and sub-agent creation.
- Progress: no claim is made that a thread eventually runs, nor that there is no deadlock; `alloc_slot` joins a thread while it holds the lock that this thread may need.
- JsonParse.Parser.ParseNumber: the number is the exact real; rounding and infinity are not part of it, and `valueint` is taken of the exact number (`SchedulerJobs.ValueIntRight`).
- JsonSound.ValueIsForm: the converse, that every lenient form is accepted, is proved only for the trees of RFC 8259 (`JsonAccepts.TreeAccepted`).
- JsonParse.Parser.ParseDocument: the position that is reported on failure is not modelled.
- JsonAccepts.NumberAccepted: the value is the exact real, without the rounding of `strtod`.
- JsonAccepts.LooseAccepted: the same.
- JsonNumber.AssembledRight: the same.
- JsonPrint.PrintBuffer.Ensure: after a failed reallocation the code frees the buffer and printing is over; here the old buffer stays in place unused.
- JsonPrint.PrintBuffer.PrintNumber: numbers that are not 32-bit integers are printed by the C library with 15 or 17 digits, which is not modelled.
- JsonPrint.PrintBuffer.RenderValue: for the same reason asks for 32-bit integers.
- ToolCalls.Normalise: for the same reason asks that numbers in arguments are 32-bit integers; everything else it asks for holds of every response that parses (`ToolCalls.ResponseCallsOk`).
- ToolCalls.StoredTextMeans: the same.
- Exchange.ExchangeSafe: asks that no asynchronous message carries a tag; `TaggedMessages.PublishSafeExactly` shows that nothing less will do.
- Exchange.TagRoundTrip: `sscanf` is modelled for blanks, sign, prefix and digits, with a number that is too large read as the largest one.
- ToolCalls.ArgumentsPreserved: as `ToolCalls.Normalise`.
- AgentChat.Agent.Chat: the provider's answers, the results of tools and the system prompt are parameters, and texts are those left once thinking tags are stripped; a NULL agent or message is not modelled.
- SessionTable.PairsIsolated: the factory gives an agent that no session has at the time.
- SessionTable.SessionManager.Release: touches whatever session is in the slot by then, as the code does; that the caller's session is still there is not claimed.
- SubagentPool.PoolSafe: the id counter does not overflow, critical sections are atomic, and the destruction of the pool is not modelled; the listing of all sub-agents would repeat the query for one.
- MemoryStore.StoreLaws: sections are canonical names already (`canonicalise_section` is not modelled); files are newline-terminated with lines below 2048 bytes; other keys and values than storable ones are treated on the text of the file (`MemoryLaws.FactExactly`, `MemoryLaws.AgainExactly`), and texts with newlines are not.
- MemoryFile.StoreText: lines of more than 2048 bytes are excluded, since copying them back reads past the line buffer.
- Memory search, context, deletion of facts and the migration of old files: scans of the same kind.
- Scheduler.SchedulerSafe: the parsing of interval texts, overflow of ids and of intervals, and a process that dies in the middle of writing the file are not modelled; running a shell command is a step without effect on the table.
- SchedulerClock.EarlyExactly: a task that is paused while the scan holds the lock is not treated, since it can be resumed only once the lock is free; `sleep` is not cut short by signals, and the time of a firing is that of the decision to fire, not that at which the bus accepts the message.
- SchedulerJobs.LoadAfterSave: is about files that the scheduler wrote; a file edited by hand may hold equal ids or an interval that is not positive.
