/**
 Requests and replies over the bus: synchronous callers (src/gateway/gateway.c, src/cli/main.c)
 put a response pair on their stack, publish a message tagged with its address and block; the
 worker of src/bus/agent_worker.c takes messages, answers them, and delivers each answer to the
 pair that the tag names or posts it on the outbound queue.
 */
module Exchange {
  import opened Bytes
  import opened Options
  import opened RingQueue

  // ---- The tag "rp=<hex>" ----------------------------------------------------------------

  const TAG: Text := [114, 112, 61]
  const WORD: nat := 0x1_0000_0000_0000_0000

  /** "%lx" */
  function HexText(n: nat): (t: Text)
    ensures t != [] && AllHex(t)
  {
    if n < 16 then [HexDigit(n)] else HexText(n / 16) + [HexDigit(n % 16)]
  }

  predicate AllHex(t: Text) { forall i :: 0 <= i < |t| ==> IsHex(t[i]) }

  function HexNumber(t: Text): nat
    requires AllHex(t)
  {
    if t == [] then 0 else HexNumber(t[..|t| - 1]) * 16 + HexValue(t[|t| - 1])
  }

  lemma {:induction false} HexTextNumber(n: nat)
    ensures HexNumber(HexText(n)) == n
  {
    var t := HexText(n);
    if n < 16 {
      assert t[..0] == [] && HexNumber(t[..0]) == 0;
    } else {
      HexTextNumber(n / 16);
      assert t[..|t| - 1] == HexText(n / 16);
    }
  }

  function HexEnd(t: Text, i: nat): (e: nat)
    requires i <= |t|
    ensures i <= e <= |t| && AllHex(t[i..e])
    decreases |t| - i
  {
    if i == |t| || !IsHex(t[i]) then i
    else
      var e := HexEnd(t, i + 1);
      assert t[i..e] == [t[i]] + t[i + 1..e];
      e
  }

  lemma {:induction false} HexEndOfAll(t: Text, i: nat)
    requires i <= |t| && AllHex(t)
    ensures HexEnd(t, i) == |t|
    decreases |t| - i
  {
    if i < |t| { HexEndOfAll(t, i + 1); }
  }

  function SpaceEnd(t: Text, i: nat): (e: nat)
    requires i <= |t|
    ensures i <= e <= |t|
    decreases |t| - i
  {
    if i == |t| || !IsSpace(t[i]) then i else SpaceEnd(t, i + 1)
  }

  /** `sscanf` with "%llx": blanks, a sign, a 0x prefix and digits; too large a number saturates. */
  function ScanHex(t: Text): Option<nat> {
    var s := SpaceEnd(t, 0);
    var neg := s < |t| && t[s] == MINUS;
    var d := if s < |t| && (t[s] == MINUS || t[s] == PLUS) then s + 1 else s;
    var x := if d + 2 < |t| && t[d] == ZERO && (t[d + 1] == 120 || t[d + 1] == 88) && IsHex(t[d + 2]) then d + 2 else d;
    var e := HexEnd(t, x);
    if e == x then None
    else
      var n := HexNumber(t[x..e]);
      Some(if n >= WORD then WORD - 1 else if neg then (WORD - n) % WORD else n)
  }

  function FindTag(t: Text, i: nat): Option<nat>
    decreases |t| - i
  {
    if i + 3 > |t| then None else if t[i..i + 3] == TAG then Some(i) else FindTag(t, i + 1)
  }

  /** `response_pair_from_meta`: the address in the metadata, or none; address 0 is NULL. */
  function FromMeta(meta: Option<Text>): (r: Option<nat>)
    ensures r.Some? ==> 0 < r.value < WORD
  {
    if meta.None? || FindTag(meta.value, 0).None? || FindTag(meta.value, 0).value + 3 > |meta.value| then None
    else
      var n := ScanHex(meta.value[FindTag(meta.value, 0).value + 3..]);
      if n.None? || n.value == 0 then None else n
  }

  function MetaFor(address: nat): Option<Text> { Some(TAG + HexText(address)) }

  /** The tag decodes to the address that was printed into it. */
  lemma TagRoundTrip(address: nat)
    requires 0 < address < WORD
    ensures FromMeta(MetaFor(address)) == Some(address)
  {
    hide HexText, ScanHex;
    var hex := HexText(address);
    var meta := TAG + hex;
    assert meta[0..3] == TAG && FindTag(meta, 0) == Some(0);
    assert meta[3..] == hex;
    HexScanned(address);
  }

  lemma HexScanned(address: nat)
    requires address < WORD
    ensures ScanHex(HexText(address)) == Some(address)
  {
    HexTextNumber(address);
    hide HexText, HexNumber, HexEnd;
    var hex := HexText(address);
    assert IsHex(hex[0]) && (|hex| > 1 ==> IsHex(hex[1]));
    assert SpaceEnd(hex, 0) == 0;
    HexEndOfAll(hex, 0);
    assert hex[0..|hex|] == hex;
  }

  lemma {:induction false} HexEndIs(t: Text, i: nat, j: nat)
    requires i <= j <= |t| && (forall k :: i <= k < j ==> IsHex(t[k])) && (j < |t| ==> !IsHex(t[j]))
    ensures HexEnd(t, i) == j
    decreases j - i
  {
    if i < j { HexEndIs(t, i + 1, j); }
  }

  lemma {:induction false} SpaceEndIs(t: Text, i: nat, j: nat)
    requires i <= j < |t| && (forall k :: i <= k < j ==> IsSpace(t[k])) && !IsSpace(t[j])
    ensures SpaceEnd(t, i) == j
    decreases j - i
  {
    if i < j { SpaceEndIs(t, i + 1, j); }
  }

  /** The ways to write a number that "%llx" reads: blanks, a sign, a prefix and digits of either case,
      up to the first byte that is no digit. */
  datatype Spelling = Spelling(pad: Text, sign: Text, prefix: Text, digits: Text, rest: Text)

  predicate SpellingOk(w: Spelling) {
    && (forall k :: 0 <= k < |w.pad| ==> IsSpace(w.pad[k]))
    && (w.sign == [] || w.sign == [PLUS] || w.sign == [MINUS])
    && (w.prefix == [] || w.prefix == [ZERO, 120] || w.prefix == [ZERO, 88])
    && w.digits != [] && AllHex(w.digits) && (w.rest != [] ==> !IsHex(w.rest[0]))
    && !(w.prefix == [] && w.digits == [ZERO]
         && |w.rest| >= 2 && (w.rest[0] == 120 || w.rest[0] == 88) && IsHex(w.rest[1]))
  }

  function SpellingText(w: Spelling): Text { w.pad + w.sign + w.prefix + w.digits + w.rest }

  /** Where the parts of a spelling stand. */
  lemma SpellingParts(w: Spelling)
    requires SpellingOk(w)
    ensures var t, s := SpellingText(w), |w.pad|;
            var d := s + |w.sign|;
            var x := d + |w.prefix|;
            var e := x + |w.digits|;
            && e <= |t| && t[x..e] == w.digits && (forall k :: 0 <= k < s ==> IsSpace(t[k])) && !IsSpace(t[s])
            && (w.sign != [] ==> t[s] == w.sign[0]) && (w.sign == [] ==> IsHex(t[s]))
            && (forall k :: x <= k < e ==> IsHex(t[k])) && (e < |t| ==> !IsHex(t[e]))
            && (w.prefix != [] ==> t[d] == ZERO && t[d + 1] == w.prefix[1])
            && (w.prefix == [] ==>
                  !(d + 2 < |t| && t[d] == ZERO && (t[d + 1] == 120 || t[d + 1] == 88) && IsHex(t[d + 2])))
  {
    FiveParts(w.pad, w.sign, w.prefix, w.digits, w.rest);
    assert SpellingText(w) == w.pad + w.sign + w.prefix + w.digits + w.rest;
    hide SpellingText;
    var t, s := SpellingText(w), |w.pad|;
    var d := s + |w.sign|;
    var x := d + |w.prefix|;
    var e := x + |w.digits|;
    assert IsHex(w.digits[0]) && forall h: byte :: IsHex(h) ==> !IsSpace(h) && h != PLUS && h != MINUS;
    assert t[s] == if w.sign != [] then w.sign[0] else if w.prefix != [] then ZERO else w.digits[0];
    if w.prefix == [] && |w.digits| >= 2 { assert t[d + 1] == w.digits[1]; }
  }

  lemma FiveParts(a: Text, b: Text, c: Text, d: Text, e: Text)
    ensures var t, i, j, k := a + b + c + d + e, |a| + |b|, |a| + |b| + |c|, |a| + |b| + |c| + |d|;
            && |t| == k + |e| && t[j..k] == d
            && (forall n :: 0 <= n < |a| ==> t[n] == a[n]) && (forall n :: |a| <= n < i ==> t[n] == b[n - |a|])
            && (forall n :: i <= n < j ==> t[n] == c[n - i]) && (forall n :: j <= n < k ==> t[n] == d[n - j])
            && (forall n :: k <= n < |t| ==> t[n] == e[n - k])
  {
  }

  /** A number is read off any of its spellings; one with a minus counts down from two to the power 64,
      and one that is too large is read as the largest. */
  lemma SpeltHexRead(w: Spelling)
    requires SpellingOk(w)
    ensures var n := HexNumber(w.digits);
            && (n >= WORD ==> ScanHex(SpellingText(w)) == Some(WORD - 1))
            && (n < WORD && w.sign != [MINUS] ==> ScanHex(SpellingText(w)) == Some(n))
            && (0 < n < WORD && w.sign == [MINUS] ==> ScanHex(SpellingText(w)) == Some(WORD - n))
            && (n == 0 ==> ScanHex(SpellingText(w)) == Some(0))
  {
    var t, s := SpellingText(w), |w.pad|;
    var d := s + |w.sign|;
    var x := d + |w.prefix|;
    assert AllHex(w.digits) && w.digits != [];
    hide SpellingOk, SpellingText, HexNumber, HexEnd, SpaceEnd, ScanHex, IsHex, IsSpace, AllHex;
    SpellingParts(w);
    SpaceEndIs(t, 0, s);
    HexEndIs(t, x, x + |w.digits|);
    SignAndPrefix(w, t);
    ScannedParts(t, s, d, x, x + |w.digits|);
  }

  lemma SignAndPrefix(w: Spelling, t: Text)
    requires SpellingOk(w) && t == SpellingText(w)
    ensures var s, d, x := |w.pad|, |w.pad| + |w.sign|, |w.pad| + |w.sign| + |w.prefix|;
            && s < |t| && (t[s] == MINUS <==> w.sign == [MINUS])
            && d == (if t[s] == MINUS || t[s] == PLUS then s + 1 else s)
            && x == if d + 2 < |t| && t[d] == ZERO && (t[d + 1] == 120 || t[d + 1] == 88) && IsHex(t[d + 2]) then d + 2
                    else d
  {
    SpellingParts(w);
    hide SpellingText;
    assert w.prefix != [] ==> IsHex(t[|w.pad| + |w.sign| + 2]);
  }

  lemma ScannedParts(t: Text, s: nat, d: nat, x: nat, e: nat)
    requires s < |t| && SpaceEnd(t, 0) == s && x < e <= |t| && HexEnd(t, x) == e && AllHex(t[x..e])
    requires d == if t[s] == MINUS || t[s] == PLUS then s + 1 else s
    requires x == if d + 2 < |t| && t[d] == ZERO && (t[d + 1] == 120 || t[d + 1] == 88) && IsHex(t[d + 2]) then d + 2
                  else d
    ensures var n := HexNumber(t[x..e]);
            && (n >= WORD ==> ScanHex(t) == Some(WORD - 1))
            && (n < WORD && t[s] != MINUS ==> ScanHex(t) == Some(n))
            && (0 < n < WORD && t[s] == MINUS ==> ScanHex(t) == Some(WORD - n))
            && (n == 0 ==> ScanHex(t) == Some(0))
  {
    hide HexNumber, HexEnd, SpaceEnd, IsHex, AllHex;
  }

  // ---- Metadata of asynchronous channels -------------------------------------------------

  /** "replyJid=" */
  const REPLY_JID: Text := [114, 101, 112, 108, 121, 74, 105, 100, 61]
  const META_SIZE: nat := 256

  /** What the WhatsApp channel puts into the metadata: the reply address that the bridge gave, cut
      to its buffer, or nothing. */
  function WhatsAppMeta(jid: Text): Option<Text> {
    if jid == [] then None
    else Some(if |REPLY_JID + jid| < META_SIZE then REPLY_JID + jid else (REPLY_JID + jid)[..META_SIZE - 1])
  }

  function Fitting(jid: Text): Text { if |jid| < META_SIZE - 9 then jid else jid[..META_SIZE - 10] }

  lemma {:induction false} FindTagShifted(prefix: Text, t: Text, i: nat)
    requires i <= |t|
    ensures FindTag(prefix + t, |prefix| + i) ==
            if FindTag(t, i).None? then None else Some(|prefix| + FindTag(t, i).value)
    decreases |t| - i
  {
    if i + 3 <= |t| {
      assert (prefix + t)[|prefix| + i..|prefix| + i + 3] == t[i..i + 3];
      FindTagShifted(prefix, t, i + 1);
    }
  }

  /** No tag starts within "replyJid=". */
  lemma {:induction false} NoTagInPrefix(t: Text, i: nat)
    requires i <= 9 <= |t| && t[..9] == REPLY_JID
    ensures FindTag(t, i) == FindTag(t, 9)
    decreases 9 - i
  {
    if i < 9 {
      NoTagInPrefix(t, i + 1);
      assert t[i] == t[..9][i] && t[1] == t[..9][1];
      if i + 3 <= |t| { assert t[i..i + 3][0] == t[i] && t[i..i + 3][1] == t[i + 1]; }
    }
  }

  /** The metadata of a WhatsApp message carries a tag exactly when the part of the reply address
      that fits would carry it on its own. */
  lemma WhatsAppTag(jid: Text)
    requires jid != []
    ensures FromMeta(WhatsAppMeta(jid)) == FromMeta(Some(Fitting(jid)))
  {
    hide ScanHex, FindTag;
    var t, fit := WhatsAppMeta(jid).value, Fitting(jid);
    assert t == REPLY_JID + fit;
    assert t[..9] == REPLY_JID;
    NoTagInPrefix(t, 0);
    FindTagShifted(REPLY_JID, fit, 0);
    if FindTag(fit, 0).Some? {
      var p := FindTag(fit, 0).value;
      FindTagFits(fit, 0);
      assert t[9 + p + 3..] == fit[p + 3..];
    }
  }

  predicate TagAt(t: Text, i: nat) { i + 3 <= |t| && t[i..i + 3] == TAG }

  /** The first tag from `i` on, if there is one. */
  lemma {:induction false} FindTagFits(t: Text, i: nat)
    ensures var r := FindTag(t, i);
            && (r.Some? ==> i <= r.value && TagAt(t, r.value))
            && (forall k :: i <= k < (if r.Some? then r.value else |t|) ==> !TagAt(t, k))
    decreases |t| - i
  {
    if i + 3 <= |t| && t[i..i + 3] != TAG { FindTagFits(t, i + 1); }
  }

  /** A reply address of "rp=1" does. */
  lemma WhatsAppTagged()
    ensures FromMeta(WhatsAppMeta(TAG + HexText(1))) == Some(1)
  {
    assert HexText(1) == [HexDigit(1)];
    WhatsAppTag(TAG + HexText(1));
    TagRoundTrip(1);
  }

  // ---- The machine -----------------------------------------------------------------------

  type Addr = a: nat | 0 < a < WORD witness 1

  /** A message; `id` tells it from every other one. */
  datatype InMsg = InMsg(id: nat, channel: Text, chat: Text, content: Text, meta: Option<Text>)
  datatype OutMsg = OutMsg(channel: Text, chat: Text, content: Text, meta: Option<Text>)

  /** The two kinds of synchronous callers differ when publishing is refused: the command line
      gives up, the gateway waits all the same. */
  datatype Kind = Cli | Gateway

  /** A live response pair and the caller that owns it: about to publish, or blocked in
      `response_pair_wait` until the pair is done. */
  datatype Caller =
    | Preparing(kind: Kind, msg: InMsg, done: bool, response: Option<Text>)
    | Blocked(kind: Kind, msg: InMsg, done: bool, response: Option<Text>)

  datatype Worker = Waiting | Busy(msg: InMsg) | Answered(msg: InMsg, response: Option<Text>) | Stopped

  datatype Reply =
    | Delivered(address: nat, response: Option<Text>)
    | Posted(out: OutMsg)
    | Refused(out: OutMsg)
    | OutOfMemory

  /** `freed` counts how often each message was freed, `refused` are the messages that the bus
      refused to the command line; `broken` is set when the worker touches a pair that is gone. */
  datatype State = State(
    pairs: map<Addr, Caller>,
    inbound: seq<InMsg>,
    outbound: seq<OutMsg>,
    worker: Worker,
    shut: bool,
    taken: seq<InMsg>,
    replies: seq<Reply>,
    nextId: nat,
    freed: multiset<nat>,
    refused: set<nat>,
    broken: bool)

  const START: State := State(map[], [], [], Waiting, false, [], [], 0, multiset{}, {}, false)

  datatype Step =
    | Begin(address: Addr, kind: Kind, channel: Text, chat: Text, content: Text)
    | Publish(address: Addr)
    | PublishRefused(address: Addr)
    | Collect(address: Addr)
    | PublishAsync(channel: Text, chat: Text, content: Text, meta: Option<Text>)
    | Take
    | Answer(response: Option<Text>)
    | Deliver
    | Post(memory: bool)
    | ConsumeOutbound
    | Shutdown
    | Stop

  function ReplyTo(msg: InMsg, response: Option<Text>): OutMsg {
    OutMsg(msg.channel, msg.chat, if response.Some? then response.value else [], msg.meta)
  }

  function TagOf(msg: InMsg): Option<nat> { FromMeta(msg.meta) }

  predicate Enabled(s: State, step: Step) {
    match step
    case Begin(a, _, _, _, _) => a !in s.pairs
    case Publish(a) => a in s.pairs && s.pairs[a].Preparing? && !s.shut && |s.inbound| < QUEUE_DEPTH
    case PublishRefused(a) => a in s.pairs && s.pairs[a].Preparing? && s.shut
    case Collect(a) => a in s.pairs && s.pairs[a].Blocked? && s.pairs[a].done
    case PublishAsync(_, _, _, _) => s.shut || |s.inbound| < QUEUE_DEPTH
    case Take => s.worker.Waiting? && s.inbound != []
    case Answer(_) => s.worker.Busy?
    case Deliver => s.worker.Answered? && TagOf(s.worker.msg).Some?
    case Post(memory) =>
      s.worker.Answered? && TagOf(s.worker.msg).None? && (memory && !s.shut ==> |s.outbound| < QUEUE_DEPTH)
    case ConsumeOutbound => s.outbound != []
    case Shutdown => true
    case Stop => s.worker.Waiting?
  }

  /** The worker has answered `msg`, frees it and goes on. */
  function Settled(s: State, reply: Reply): State
    requires s.worker.Answered?
  {
    s.(worker := Waiting, replies := s.replies + [reply], freed := s.freed + multiset{s.worker.msg.id})
  }

  function Apply(s: State, step: Step): State
    requires Enabled(s, step)
  {
    match step
    case Begin(a, kind, channel, chat, content) =>
      var msg := InMsg(s.nextId, channel, chat, content, MetaFor(a));
      s.(pairs := s.pairs[a := Preparing(kind, msg, false, None)], nextId := s.nextId + 1)
    case Publish(a) =>
      var c := s.pairs[a];
      s.(inbound := s.inbound + [c.msg], pairs := s.pairs[a := Blocked(c.kind, c.msg, c.done, c.response)])
    case PublishRefused(a) =>
      var c := s.pairs[a];
      // `q_push` frees what it refuses; the command line frees it once more.
      if c.kind.Cli? then
        s.(pairs := s.pairs - {a}, freed := s.freed + multiset{c.msg.id, c.msg.id}, refused := s.refused + {c.msg.id})
      else
        s.(pairs := s.pairs[a := Blocked(c.kind, c.msg, c.done, c.response)], freed := s.freed + multiset{c.msg.id})
    case Collect(a) => s.(pairs := s.pairs - {a})
    case PublishAsync(channel, chat, content, meta) =>
      var msg := InMsg(s.nextId, channel, chat, content, meta);
      if s.shut then s.(nextId := s.nextId + 1, freed := s.freed + multiset{s.nextId})
      else s.(nextId := s.nextId + 1, inbound := s.inbound + [msg])
    case Take => s.(inbound := s.inbound[1..], worker := Busy(s.inbound[0]), taken := s.taken + [s.inbound[0]])
    case Answer(response) => s.(worker := Answered(s.worker.msg, response))
    case Deliver =>
      var a := TagOf(s.worker.msg).value;
      var told := Settled(s, Delivered(a, s.worker.response));
      if a in s.pairs then
        told.(pairs := s.pairs[a := s.pairs[a].(done := true, response := s.worker.response)])
      else told.(broken := true)
    case Post(memory) =>
      var out := ReplyTo(s.worker.msg, s.worker.response);
      if !memory then Settled(s, OutOfMemory)
      else if s.shut then Settled(s, Refused(out))
      else Settled(s, Posted(out)).(outbound := s.outbound + [out])
    case ConsumeOutbound => s.(outbound := s.outbound[1..])
    case Shutdown => s.(shut := true)
    case Stop => s.(worker := Stopped)
  }

  /** A run from `s`: any interleaving of callers, channels, worker, dispatcher and shutdown. */
  function Exec(s: State, steps: seq<Step>): Option<State>
    decreases |steps|
  {
    if steps == [] then Some(s)
    else if !Enabled(s, steps[0]) then None
    else Exec(Apply(s, steps[0]), steps[1..])
  }

  /** A step that does not publish a tag that no caller has made. */
  predicate Untagged(step: Step) { step.PublishAsync? ==> FromMeta(step.meta).None? }

  predicate Clean(steps: seq<Step>) { forall i :: 0 <= i < |steps| ==> Untagged(steps[i]) }

  // ---- What every clean step keeps -------------------------------------------------------

  /** The message in the worker's hands, if any, and those still queued. */
  function Held(s: State): seq<InMsg> {
    if s.worker.Busy? || s.worker.Answered? then [s.worker.msg] + s.inbound else s.inbound
  }

  /** A tag that is still to be used names a pair whose caller is blocked on it. */
  ghost predicate Awaited(pairs: map<Addr, Caller>, msg: InMsg) {
    TagOf(msg).Some? ==>
      var a := TagOf(msg).value;
      a in pairs && pairs[a].Blocked? && pairs[a].msg == msg && !pairs[a].done
  }

  ghost predicate AllAwaited(pairs: map<Addr, Caller>, held: seq<InMsg>) {
    && (forall i :: 0 <= i < |held| ==> Awaited(pairs, held[i]))
    && (forall i, j :: 0 <= i < j < |held| && TagOf(held[i]).Some? ==> TagOf(held[i]) != TagOf(held[j]))
  }

  /** Pairs are tagged with their own address, and nothing is delivered before it is asked for. */
  ghost predicate PairsRight(pairs: map<Addr, Caller>) {
    forall a :: a in pairs ==> pairs[a].msg.meta == MetaFor(a) && (pairs[a].Preparing? ==> !pairs[a].done)
  }

  /** While the bus is open, whoever waits has its message on the way. */
  ghost predicate OnTheWay(s: State) {
    !s.shut ==> forall a :: a in s.pairs && s.pairs[a].Blocked? && !s.pairs[a].done ==> s.pairs[a].msg in Held(s)
  }

  /** The answer that a message calls for: to its own pair, or outbound with the same channel,
      chat and metadata. */
  ghost predicate Matches(shut: bool, msg: InMsg, reply: Reply) {
    match reply
    case Delivered(a, _) => TagOf(msg) == Some(a)
    case Posted(out) => TagOf(msg).None? && (out.channel, out.chat, out.meta) == (msg.channel, msg.chat, msg.meta)
    case Refused(out) =>
      TagOf(msg).None? && (out.channel, out.chat, out.meta) == (msg.channel, msg.chat, msg.meta) && shut
    case OutOfMemory => TagOf(msg).None?
  }

  /** Every message taken has had its one answer, but for the one in the worker's hands. */
  ghost predicate OneReplyEach(s: State) {
    && |s.taken| == |s.replies| + (if s.worker.Busy? || s.worker.Answered? then 1 else 0)
    && (s.worker.Busy? || s.worker.Answered? ==> s.taken[|s.taken| - 1] == s.worker.msg)
    && forall i :: 0 <= i < |s.replies| ==> Matches(s.shut, s.taken[i], s.replies[i])
  }

  ghost predicate HasAnswer(s: State, a: Addr, c: Caller) {
    exists i :: 0 <= i < |s.replies| && i < |s.taken| && s.taken[i] == c.msg && s.replies[i] == Delivered(a, c.response)
  }

  /** What a caller is about to collect is the answer to its own message. */
  ghost predicate OwnAnswers(s: State) {
    forall a :: a in s.pairs && s.pairs[a].done ==> HasAnswer(s, a, s.pairs[a])
  }

  ghost predicate Inv(s: State) {
    && AllAwaited(s.pairs, Held(s)) && PairsRight(s.pairs) && OnTheWay(s)
    && OneReplyEach(s) && OwnAnswers(s) && !s.broken
  }

  lemma ArrivalAwaited(pairs: map<Addr, Caller>, held: seq<InMsg>, msg: InMsg, next: map<Addr, Caller>)
    requires AllAwaited(pairs, held)
    requires forall a :: a in pairs && pairs[a].Blocked? ==> a in next && next[a] == pairs[a]
    requires Awaited(next, msg) && (TagOf(msg).Some? ==> var a := TagOf(msg).value; a in pairs ==> !pairs[a].Blocked?)
    ensures AllAwaited(next, held + [msg])
  {
    hide FromMeta;
    var r := held + [msg];
    forall i | 0 <= i < |held| ensures Awaited(next, r[i]) && (TagOf(msg).Some? ==> TagOf(r[i]) != TagOf(msg)) {
      assert r[i] == held[i] && Awaited(pairs, held[i]);
    }
    forall i, j | 0 <= i < j < |r| && TagOf(r[i]).Some? ensures TagOf(r[i]) != TagOf(r[j]) {
      if j < |held| { assert r[i] == held[i] && r[j] == held[j]; }
    }
  }

  /** Pairs that nobody is blocked on without an answer may come, go and change. */
  lemma OthersAwaited(pairs: map<Addr, Caller>, held: seq<InMsg>, next: map<Addr, Caller>)
    requires AllAwaited(pairs, held)
    requires forall a :: a in pairs && pairs[a].Blocked? && !pairs[a].done ==> a in next && next[a] == pairs[a]
    ensures AllAwaited(next, held)
  {
    hide FromMeta;
    forall i | 0 <= i < |held| ensures Awaited(next, held[i]) { assert Awaited(pairs, held[i]); }
  }

  /** The first message has been answered. */
  lemma RestAwaited(pairs: map<Addr, Caller>, held: seq<InMsg>, next: map<Addr, Caller>)
    requires AllAwaited(pairs, held) && held != []
    requires forall a :: a in pairs && TagOf(held[0]) != Some(a) ==> a in next && next[a] == pairs[a]
    ensures AllAwaited(next, held[1..])
  {
    hide FromMeta;
    var r := held[1..];
    forall i | 0 <= i < |r| ensures Awaited(next, r[i]) {
      assert r[i] == held[i + 1] && Awaited(pairs, held[i + 1]);
      assert TagOf(held[0]).Some? ==> TagOf(held[0]) != TagOf(held[i + 1]);
    }
    forall i, j | 0 <= i < j < |r| && TagOf(r[i]).Some? ensures TagOf(r[i]) != TagOf(r[j]) {
      assert r[i] == held[i + 1] && r[j] == held[j + 1];
    }
  }

  /** What a step does to the pairs and to the messages in flight. */
  lemma PublishEffect(s: State, step: Step)
    requires step.Publish? && Enabled(s, step)
    ensures var r, c := Apply(s, step), s.pairs[step.address];
            && r.pairs == s.pairs[step.address := Blocked(c.kind, c.msg, c.done, c.response)]
                && Held(r) == Held(s) + [c.msg]
  {
    hide FromMeta, MetaFor;
  }

  lemma AsyncEffect(s: State, step: Step)
    requires step.PublishAsync? && !s.shut && Enabled(s, step)
    ensures var r := Apply(s, step);
            && r.pairs == s.pairs && |Held(r)| == |Held(s)| + 1
            && Held(r) == Held(s) + [Held(r)[|Held(s)|]] && TagOf(Held(r)[|Held(s)|]) == FromMeta(step.meta)
  {
    hide FromMeta, MetaFor;
    var msg := InMsg(s.nextId, step.channel, step.chat, step.content, step.meta);
    assert Held(Apply(s, step)) == Held(s) + [msg];
  }

  lemma ReplyEffect(s: State, step: Step)
    requires (step.Deliver? || step.Post?) && Enabled(s, step)
    ensures var r := Apply(s, step);
            && Held(s) != [] && Held(s)[0] == s.worker.msg && Held(r) == Held(s)[1..]
            && (forall a :: a in s.pairs && TagOf(Held(s)[0]) != Some(a) ==> a in r.pairs && r.pairs[a] == s.pairs[a])
  {
    hide FromMeta, MetaFor;
  }

  lemma OtherEffect(s: State, step: Step)
    requires Enabled(s, step) && !step.Publish? && !(step.PublishAsync? && !s.shut) && !step.Deliver? && !step.Post?
    ensures var r := Apply(s, step);
            && Held(r) == Held(s)
            && (forall a :: a in s.pairs && s.pairs[a].Blocked? && !s.pairs[a].done ==>
                  a in r.pairs && r.pairs[a] == s.pairs[a])
  {
    hide FromMeta, MetaFor;
    if step.Take? { assert s.inbound == [s.inbound[0]] + s.inbound[1..]; }
  }

  lemma TagsKept(s: State, step: Step)
    requires Inv(s) && Enabled(s, step) && Untagged(step)
    ensures AllAwaited(Apply(s, step).pairs, Held(Apply(s, step)))
  {
    hide FromMeta, MetaFor, AllAwaited, OnTheWay, OneReplyEach, OwnAnswers, Apply, Held;
    var r := Apply(s, step);
    if step.Publish? {
      var c := s.pairs[step.address];
      TagRoundTrip(step.address);
      PublishEffect(s, step);
      ArrivalAwaited(s.pairs, Held(s), c.msg, r.pairs);
    } else if step.PublishAsync? && !s.shut {
      AsyncEffect(s, step);
      ArrivalAwaited(s.pairs, Held(s), Held(r)[|Held(s)|], r.pairs);
    } else if step.Deliver? || step.Post? {
      ReplyEffect(s, step);
      RestAwaited(s.pairs, Held(s), r.pairs);
    } else {
      OtherEffect(s, step);
      OthersAwaited(s.pairs, Held(s), r.pairs);
    }
  }

  lemma PairsKept(s: State, step: Step)
    requires Inv(s) && Enabled(s, step) && Untagged(step)
    ensures PairsRight(Apply(s, step).pairs) && !Apply(s, step).broken
  {
    hide FromMeta, MetaFor, OnTheWay, OneReplyEach, OwnAnswers;
    if step.Deliver? { assert Held(s)[0] == s.worker.msg && Awaited(s.pairs, Held(s)[0]); }
  }

  lemma WayKept(s: State, step: Step)
    requires Inv(s) && Enabled(s, step) && Untagged(step)
    ensures OnTheWay(Apply(s, step))
  {
    var r := Apply(s, step);
    hide FromMeta, AllAwaited, OneReplyEach, OwnAnswers;
    forall a | !r.shut && a in r.pairs && r.pairs[a].Blocked? && !r.pairs[a].done ensures r.pairs[a].msg in Held(r) {
      if step.Publish? && a == step.address {
        assert r.inbound[|s.inbound|] == r.pairs[a].msg;
      } else {
        var m := s.pairs[a].msg;
        assert r.pairs[a].msg == m && m in Held(s);
        if step.Deliver? || step.Post? {
          TagRoundTrip(a);
          assert m != s.worker.msg;
        }
        StillHeld(s, step, m);
      }
    }
  }

  /** A message leaves only when the worker answers it. */
  lemma StillHeld(s: State, step: Step, m: InMsg)
    requires Enabled(s, step) && m in Held(s) && ((step.Deliver? || step.Post?) ==> m != s.worker.msg)
    ensures m in Held(Apply(s, step))
  {
    hide FromMeta, MetaFor;
    var r := Apply(s, step);
    if step.Take? {
      assert Held(r) == Held(s);
    } else if !(step.Deliver? || step.Post?) {
      assert Held(s) <= Held(r);
    }
  }

  /** What a step does to the record of replies. */
  lemma RecordEffect(s: State, step: Step)
    requires Enabled(s, step)
    ensures var r := Apply(s, step);
            && (step.Take? ==> r.taken == s.taken + [s.inbound[0]]) && (!step.Take? ==> r.taken == s.taken)
            && (if step.Deliver? || step.Post?
                then |r.replies| == |s.replies| + 1 && s.replies == r.replies[..|s.replies|]
                else r.replies == s.replies)
            && (s.shut ==> r.shut)
  {
    hide FromMeta, MetaFor;
  }

  lemma NewReplyMatches(s: State, step: Step)
    requires (step.Deliver? || step.Post?) && Enabled(s, step)
    ensures var r := Apply(s, step);
            |r.replies| == |s.replies| + 1 && Matches(r.shut, s.worker.msg, r.replies[|s.replies|])
  {
    hide FromMeta, MetaFor;
  }

  lemma RepliesKept(s: State, step: Step)
    requires Inv(s) && Enabled(s, step)
    ensures OneReplyEach(Apply(s, step))
  {
    hide FromMeta, MetaFor, AllAwaited, PairsRight, OnTheWay, OwnAnswers, Matches, Apply, Enabled;
    var r := Apply(s, step);
    RecordEffect(s, step);
    WorkerRecord(s, step);
    if step.Deliver? || step.Post? { NewReplyMatches(s, step); }
    forall i | 0 <= i < |r.replies| ensures Matches(r.shut, r.taken[i], r.replies[i]) {
      if i < |s.replies| {
        assert r.replies[i] == s.replies[i] && r.taken[i] == s.taken[i];
        MatchesLater(s.shut, r.shut, s.taken[i], s.replies[i]);
      }
    }
  }

  /** The last message taken is the one in the worker's hands, and the only one without a reply. */
  lemma WorkerRecord(s: State, step: Step)
    requires Enabled(s, step) && |s.taken| == |s.replies| + (if Busied(s) then 1 else 0)
    requires Busied(s) ==> s.taken[|s.taken| - 1] == s.worker.msg
    ensures var r := Apply(s, step);
            && |r.taken| == |r.replies| + (if Busied(r) then 1 else 0)
            && (Busied(r) ==> r.taken[|r.taken| - 1] == r.worker.msg)
  {
    hide FromMeta, MetaFor, Apply;
    WorkerEffect(s, step);
    RecordEffect(s, step);
  }

  lemma WorkerEffect(s: State, step: Step)
    requires Enabled(s, step)
    ensures var w := Apply(s, step).worker;
            && (step.Take? ==> !Busied(s) && s.inbound != [] && w == Busy(s.inbound[0]))
            && (step.Answer? ==> Busied(s) && w == Answered(s.worker.msg, step.response))
            && (step.Deliver? || step.Post? ==> Busied(s) && w == Waiting)
            && (step.Stop? ==> !Busied(s) && w == Stopped)
            && (!step.Take? && !step.Answer? && !step.Deliver? && !step.Post? && !step.Stop? ==> w == s.worker)
  {
    hide FromMeta, MetaFor;
  }

  predicate Busied(s: State) { s.worker.Busy? || s.worker.Answered? }

  lemma MatchesLater(shut: bool, later: bool, msg: InMsg, reply: Reply)
    requires Matches(shut, msg, reply) && (shut ==> later)
    ensures Matches(later, msg, reply)
  {
    hide FromMeta;
  }

  lemma AnswersKept(s: State, step: Step)
    requires Inv(s) && Enabled(s, step)
    ensures OwnAnswers(Apply(s, step))
  {
    hide FromMeta, MetaFor, OnTheWay;
    var r := Apply(s, step);
    forall a | a in r.pairs && r.pairs[a].done ensures HasAnswer(r, a, r.pairs[a]) {
      if step.Deliver? && TagOf(s.worker.msg) == Some(a) {
        assert Held(s)[0] == s.worker.msg && Awaited(s.pairs, Held(s)[0]);
        var n := |s.replies|;
        assert r.replies[n] == Delivered(a, r.pairs[a].response) && r.taken[n] == s.worker.msg;
      } else {
        hide AllAwaited;
        AnswerStays(s, step, a);
      }
    }
  }

  lemma DoneEffect(s: State, step: Step, a: Addr)
    requires Enabled(s, step) && a in Apply(s, step).pairs && Apply(s, step).pairs[a].done
    requires step.Deliver? ==> TagOf(s.worker.msg) != Some(a)
    ensures a in s.pairs && s.pairs[a].done
    ensures var r := Apply(s, step); r.pairs[a].msg == s.pairs[a].msg && r.pairs[a].response == s.pairs[a].response
  {
    hide FromMeta, MetaFor;
  }

  lemma AnswerStays(s: State, step: Step, a: Addr)
    requires Enabled(s, step) && OwnAnswers(s) && a in Apply(s, step).pairs && Apply(s, step).pairs[a].done
    requires step.Deliver? ==> TagOf(s.worker.msg) != Some(a)
    ensures HasAnswer(Apply(s, step), a, Apply(s, step).pairs[a])
  {
    hide FromMeta, MetaFor, Apply, Enabled;
    var r := Apply(s, step);
    DoneEffect(s, step, a);
    RecordEffect(s, step);
    assert HasAnswer(s, a, s.pairs[a]);
    var c := s.pairs[a];
    var i :| 0 <= i < |s.replies| && i < |s.taken| && s.taken[i] == c.msg && s.replies[i] == Delivered(a, c.response);
    assert r.replies[i] == s.replies[i] && r.taken[i] == s.taken[i];
  }

  lemma StepKeeps(s: State, step: Step)
    requires Inv(s) && Enabled(s, step) && Untagged(step)
    ensures Inv(Apply(s, step))
  {
    TagsKept(s, step);
    PairsKept(s, step);
    WayKept(s, step);
    RepliesKept(s, step);
    AnswersKept(s, step);
    hide AllAwaited, PairsRight, OnTheWay, OneReplyEach, OwnAnswers, Apply;
  }

  lemma {:induction false} RunKeeps(s: State, steps: seq<Step>)
    requires Inv(s) && Clean(steps) && Exec(s, steps).Some?
    ensures Inv(Exec(s, steps).value)
    decreases |steps|
  {
    hide Inv, Apply, Enabled, Untagged;
    if steps != [] {
      StepKeeps(s, steps[0]);
      RunKeeps(Apply(s, steps[0]), steps[1..]);
    }
  }

  lemma StartInv()
    ensures Inv(START)
  {
  }

  /** In every run in which no asynchronous message carries a tag: the worker never touches a pair
      that is gone; the address in every tag still to be used belongs to a caller that is blocked
      on it; and every message taken before the one in hand has had exactly one answer, the one
      that it calls for. */
  lemma ExchangeSafe(steps: seq<Step>)
    requires Exec(START, steps).Some? && Clean(steps)
    ensures var s := Exec(START, steps).value;
            && !s.broken
            && (forall msg :: msg in Held(s) ==> Awaited(s.pairs, msg))
            && |s.replies| <= |s.taken| <= |s.replies| + 1
            && (forall i :: 0 <= i < |s.replies| ==> Matches(s.shut, s.taken[i], s.replies[i]))
            && OwnAnswers(s)
  {
    StartInv();
    RunKeeps(START, steps);
    hide FromMeta, Exec, OwnAnswers, OnTheWay, Matches, Awaited;
    var s := Exec(START, steps).value;
    forall msg | msg in Held(s) ensures Awaited(s.pairs, msg) {
      var i :| 0 <= i < |Held(s)| && Held(s)[i] == msg;
    }
  }

  // ---- Callers that are refused ----------------------------------------------------------

  /** A caller blocked after shutdown whose message is not on the way. */
  ghost predicate Stranded(s: State, a: Addr) {
    s.shut && a in s.pairs && s.pairs[a].Blocked? && !s.pairs[a].done && s.pairs[a].msg !in Held(s)
  }

  lemma StrandedStays(s: State, step: Step, a: Addr)
    requires Inv(s) && Enabled(s, step) && Untagged(step) && Stranded(s, a)
    ensures Stranded(Apply(s, step), a)
  {
    hide FromMeta, MetaFor, OnTheWay, OneReplyEach, OwnAnswers;
    var r := Apply(s, step);
    if step.Deliver? || step.Post? {
      ReplyEffect(s, step);
      assert Awaited(s.pairs, Held(s)[0]);
    } else {
      assert Held(r) == Held(s) by { if step.Take? { assert s.inbound == [s.inbound[0]] + s.inbound[1..]; } }
    }
  }

  lemma {:induction false} StrandedForEver(s: State, more: seq<Step>, a: Addr)
    requires Inv(s) && Clean(more) && Exec(s, more).Some? && Stranded(s, a)
    ensures Stranded(Exec(s, more).value, a)
    decreases |more|
  {
    hide Inv, Apply, Enabled, Untagged, Stranded;
    if more != [] {
      StepKeeps(s, more[0]);
      StrandedStays(s, more[0], a);
      StrandedForEver(Apply(s, more[0]), more[1..], a);
    }
  }

  /** A gateway caller that the bus refuses at shutdown stays blocked in every clean continuation. */
  lemma RefusedStaysBlocked(steps: seq<Step>, a: Addr, more: seq<Step>)
    requires Exec(START, steps).Some? && Clean(steps) && Clean(more)
    requires var s := Exec(START, steps).value;
             Enabled(s, PublishRefused(a)) && s.pairs[a].kind.Gateway? && Exec(Apply(s, PublishRefused(a)), more).Some?
    ensures var t := Exec(Apply(Exec(START, steps).value, PublishRefused(a)), more).value;
            a in t.pairs && t.pairs[a].Blocked? && !t.pairs[a].done
  {
    StartInv();
    RunKeeps(START, steps);
    var s := Exec(START, steps).value;
    StepKeeps(s, PublishRefused(a));
    var r := Apply(s, PublishRefused(a));
    assert Stranded(r, a) by {
      TagRoundTrip(a);
      hide FromMeta, MetaFor, Exec, OnTheWay, OneReplyEach, OwnAnswers;
      assert Held(r) == Held(s);
      assert forall i :: 0 <= i < |Held(s)| ==> Awaited(s.pairs, Held(s)[i]);
    }
    hide Inv, Exec, Apply, Enabled;
    StrandedForEver(r, more, a);
  }
}
