/**
 The session table of src/session/session.c, an open-addressing hash table with deletion and no
 tombstones, against a plain map from keys to sessions.
 */
module SessionTable {
  import opened Bytes
  import opened Options

  const SESSION_MAX: nat := 64
  const KEY_MAX: nat := 320
  const TTL_DEFAULT: nat := 3600

  /** The agent is known by its address. */
  datatype Session = Session(key: Text, agent: nat, lastActive: int, inUse: bool)

  const EMPTY: Session := Session([], 0, 0, false)

  datatype Entry = Entry(agent: nat, lastActive: int)

  function EntryOf(s: Session): Entry { Entry(s.agent, s.lastActive) }

  // ---- Keys ------------------------------------------------------------------------------

  /** "<channel>:<chat>" cut to what the key buffer holds. */
  function Key(channel: Text, chat: Text): Text {
    var full := channel + [COLON] + chat;
    if |full| < KEY_MAX then full else full[..KEY_MAX - 1]
  }

  /** Pairs with a channel free of colons and a key that fits have keys of their own. */
  lemma KeyInjective(channel: Text, chat: Text, channel': Text, chat': Text)
    requires COLON !in channel && COLON !in channel'
    requires |channel| + |chat| + 1 < KEY_MAX && |channel'| + |chat'| + 1 < KEY_MAX
    requires Key(channel, chat) == Key(channel', chat')
    ensures channel == channel' && chat == chat'
  {
    var k := channel + [COLON] + chat;
    assert k == channel' + [COLON] + chat';
    assert k[|channel|] == COLON && k[|channel'|] == COLON;
    assert forall i :: 0 <= i < |channel| ==> k[i] == channel[i] && channel[i] in channel;
    assert forall i :: 0 <= i < |channel'| ==> k[i] == channel'[i] && channel'[i] in channel';
    assert |channel| == |channel'|;
    assert k[..|channel|] == channel && k[..|channel'|] == channel';
    assert k[|channel| + 1..] == chat && k[|channel'| + 1..] == chat';
  }

  function Mix(h: bv32, c: byte): bv32 { (h * 33) ^ (c as bv32) }

  function Djb2(s: Text): bv32 {
    if s == [] then 5381 else Mix(Djb2(s[..|s| - 1]), s[|s| - 1])
  }

  function Bucket(h: bv32): (b: nat)
    ensures b < SESSION_MAX
  {
    (h % 64) as nat
  }

  function Start(key: Text): (start: nat)
    ensures start < SESSION_MAX
  {
    Bucket(Djb2(key))
  }

  method HashStart(key: Text) returns (start: nat)
    ensures start == Start(key)
  {
    hide Mix, Bucket;
    var h: bv32 := 5381;
    for i := 0 to |key|
      invariant h == Djb2(key[..i])
    {
      h := Mix(h, key[i]);
      assert key[..i + 1][..i] == key[..i];
    }
    assert key[..|key|] == key;
    start := Bucket(h);
  }

  // ---- The table as a map ----------------------------------------------------------------

  /** No key is in two slots. */
  predicate Distinct(s: seq<Session>) {
    forall i, j :: 0 <= i < j < |s| && s[i].inUse && s[j].inUse ==> s[i].key != s[j].key
  }

  function InUse(s: seq<Session>): nat {
    if s == [] then 0 else InUse(s[..|s| - 1]) + (if s[|s| - 1].inUse then 1 else 0)
  }

  function View(s: seq<Session>): map<Text, Entry> {
    if s == [] then map[]
    else if s[|s| - 1].inUse then View(s[..|s| - 1])[s[|s| - 1].key := EntryOf(s[|s| - 1])]
    else View(s[..|s| - 1])
  }

  predicate Holds(s: seq<Session>, i: int, key: Text) { 0 <= i < |s| && s[i].inUse && s[i].key == key }

  ghost predicate Agrees(s: seq<Session>, m: map<Text, Entry>) {
    && (forall i :: 0 <= i < |s| && s[i].inUse ==> s[i].key in m && m[s[i].key] == EntryOf(s[i]))
    && (forall key :: key in m ==> exists i :: Holds(s, i, key))
  }

  lemma AgreesGrows(t: seq<Session>, m: map<Text, Entry>, x: Session)
    requires Agrees(t, m) && Distinct(t + [x])
    ensures x.inUse ==> x.key !in m
    ensures Agrees(t + [x], if x.inUse then m[x.key := EntryOf(x)] else m)
  {
    var s, r := t + [x], if x.inUse then m[x.key := EntryOf(x)] else m;
    assert forall i :: 0 <= i < |t| && s[i].inUse && s[|t|].inUse ==> s[i].key != s[|t|].key;
    assert forall i :: 0 <= i < |t| ==> s[i] == t[i];
    forall key | key in r ensures exists i :: Holds(s, i, key) {
      if key in m {
        var i :| Holds(t, i, key);
        assert Holds(s, i, key);
      } else {
        assert Holds(s, |t|, key);
      }
    }
  }

  /** The map has exactly the sessions in use, and as many keys as there are slots in use. */
  lemma {:induction false} ViewRight(s: seq<Session>)
    requires Distinct(s)
    ensures Agrees(s, View(s)) && |View(s)| == InUse(s)
  {
    if s != [] {
      var t, x := s[..|s| - 1], s[|s| - 1];
      assert s == t + [x];
      ViewRight(t);
      AgreesGrows(t, View(t), x);
    }
  }

  /** A full table is one with every slot in use. */
  lemma {:induction false} FullWhen(s: seq<Session>)
    ensures InUse(s) <= |s|
    ensures InUse(s) == |s| <==> forall i :: 0 <= i < |s| ==> s[i].inUse
  {
    if s != [] {
      var t := s[..|s| - 1];
      FullWhen(t);
      assert forall i :: 0 <= i < |t| ==> t[i] == s[i];
    }
  }

  lemma AgreesOnce(s: seq<Session>, m: map<Text, Entry>, n: map<Text, Entry>)
    requires Agrees(s, m) && Agrees(s, n)
    ensures m == n
  {
    forall key | key in m || key in n ensures key in m && key in n && m[key] == n[key] {
      var i :| Holds(s, i, key);
    }
    assert m.Keys == n.Keys;
  }

  function Without(m: map<Text, Entry>, s: Session): map<Text, Entry> { if s.inUse then m - {s.key} else m }
  function With(m: map<Text, Entry>, s: Session): map<Text, Entry> { if s.inUse then m[s.key := EntryOf(s)] else m }

  lemma AgreesUpdated(s: seq<Session>, m: map<Text, Entry>, i: nat, x: Session)
    requires i < |s| && Distinct(s) && Distinct(s[i := x]) && Agrees(s, m)
    ensures Agrees(s[i := x], With(Without(m, s[i]), x))
  {
    var r := s[i := x];
    var n := With(Without(m, s[i]), x);
    forall j | 0 <= j < |r| && r[j].inUse ensures r[j].key in n && n[r[j].key] == EntryOf(r[j]) {
      if j != i {
        assert r[j] == s[j] && (s[i].inUse ==> s[i].key != s[j].key) && (x.inUse ==> r[i].key != r[j].key);
      }
    }
    forall key | key in n ensures exists j :: Holds(r, j, key) {
      if x.inUse && key == x.key {
        assert Holds(r, i, key);
      } else {
        var j :| Holds(s, j, key);
        assert Holds(r, j, key);
      }
    }
  }

  /** Filling or freeing one slot. */
  lemma ViewUpdated(s: seq<Session>, i: nat, x: Session)
    requires i < |s| && Distinct(s) && Distinct(s[i := x])
    ensures View(s[i := x]) == With(Without(View(s), s[i]), x)
  {
    ViewRight(s);
    ViewRight(s[i := x]);
    AgreesUpdated(s, View(s), i, x);
    AgreesOnce(s[i := x], View(s[i := x]), With(Without(View(s), s[i]), x));
  }

  // ---- The operations on the map ---------------------------------------------------------

  type Table = map<Text, Entry>

  predicate Stale(e: Entry, now: int, ttl: int) { now - e.lastActive >= ttl }

  function Evicted(m: Table, now: int, ttl: int): Table { map k | k in m && !Stale(m[k], now, ttl) :: m[k] }

  /** A full table is swept before a new session is placed. */
  function Room(m: Table, now: int, ttl: int): Table { if |m| == SESSION_MAX then Evicted(m, now, ttl) else m }

  /** The table after a request for `key`; `made` is what the factory gives if it is asked. */
  function AfterGet(m: Table, key: Text, evictNow: int, now: int, made: Option<nat>, ttl: int): Table {
    if key in m then m
    else
      var room := Room(m, evictNow, ttl);
      if |room| == SESSION_MAX || made.None? then room else room[key := Entry(made.value, now)]
  }

  function Answer(m: Table, key: Text, evictNow: int, made: Option<nat>, ttl: int): Option<nat> {
    if key in m then Some(m[key].agent)
    else if |m| == SESSION_MAX && |Evicted(m, evictNow, ttl)| == SESSION_MAX then None
    else made
  }

  /** A request fails exactly when the key is new and either all slots are taken by sessions that
      are not stale or the factory fails. */
  lemma FailsWhen(m: Table, key: Text, evictNow: int, made: Option<nat>, ttl: int)
    ensures Answer(m, key, evictNow, made, ttl).None?
       <==> key !in m && (made.None? || (|m| == SESSION_MAX && forall k :: k in m ==> !Stale(m[k], evictNow, ttl)))
  {
    var e := Evicted(m, evictNow, ttl);
    assert e.Keys <= m.Keys;
    if forall k :: k in m ==> !Stale(m[k], evictNow, ttl) {
      assert e == m;
    } else {
      var k :| k in m && Stale(m[k], evictNow, ttl);
      assert e.Keys <= m.Keys - {k};
      Smaller(e.Keys, m.Keys - {k});
    }
  }

  lemma {:induction false} Smaller<T>(a: set<T>, b: set<T>)
    requires a <= b
    ensures |a| <= |b|
  {
    assert b == a + (b - a);
    assert |a + (b - a)| == |a| + |b - a|;
  }

  lemma {:induction false} InUseUpdated(s: seq<Session>, i: nat, x: Session)
    requires i < |s|
    ensures InUse(s[i := x]) == InUse(s) - (if s[i].inUse then 1 else 0) + (if x.inUse then 1 else 0)
  {
    var n := |s| - 1;
    if i == n {
      assert s[i := x][..n] == s[..n];
    } else {
      InUseUpdated(s[..n], i, x);
      assert s[i := x][..n] == s[..n][i := x];
    }
  }

  function Swept(s: seq<Session>, now: int, ttl: int): (r: seq<Session>)
    ensures |r| == |s|
    ensures forall i :: 0 <= i < |s| ==> r[i] == if s[i].inUse && Stale(EntryOf(s[i]), now, ttl) then EMPTY else s[i]
  {
    seq(|s|, i requires 0 <= i < |s| => if s[i].inUse && Stale(EntryOf(s[i]), now, ttl) then EMPTY else s[i])
  }

  lemma SweptView(s: seq<Session>, now: int, ttl: int)
    requires Distinct(s)
    ensures Distinct(Swept(s, now, ttl)) && View(Swept(s, now, ttl)) == Evicted(View(s), now, ttl)
  {
    var r, m := Swept(s, now, ttl), Evicted(View(s), now, ttl);
    ViewRight(s);
    ViewRight(r);
    hide View;
    forall key | key in m ensures exists i :: Holds(r, i, key) {
      var i :| Holds(s, i, key);
      assert Holds(r, i, key);
    }
    AgreesOnce(r, View(r), m);
  }

  // ---- Probing ---------------------------------------------------------------------------

  function Probe(start: nat, i: nat): (idx: nat)
    ensures idx < SESSION_MAX
  {
    (start + i) % SESSION_MAX
  }

  /** Every slot is probed. */
  lemma ProbeReaches(start: nat, idx: nat)
    requires start < SESSION_MAX && idx < SESSION_MAX
    ensures exists i: nat :: i < SESSION_MAX && Probe(start, i) == idx
  {
    var i := if idx >= start then idx - start else idx + SESSION_MAX - start;
    assert start + i == idx || start + i == idx + SESSION_MAX;
    assert Probe(start, i) == idx;
  }

  /** Slot `r` is probed after `d` others, all of them in use. */
  predicate FirstFree(s: seq<Session>, start: nat, d: nat, r: int)
    requires |s| == SESSION_MAX
  {
    d < SESSION_MAX && Probe(start, d) == r && forall i: nat :: i < d ==> s[Probe(start, i)].inUse
  }

  /** What `find_slot` looks for: the slot that holds the key; failing that, the first free slot
      in probing order; failing that, none. */
  ghost predicate Found(s: seq<Session>, key: Text, r: int)
    requires |s| == SESSION_MAX
  {
    if exists i :: Holds(s, i, key) then Holds(s, r, key)
    else if r == -1 then forall i :: 0 <= i < |s| ==> s[i].inUse
    else
      && 0 <= r < |s| && !s[r].inUse
      && exists d: nat :: FirstFree(s, Start(key), d, r)
  }

  class SessionManager {
    const slots: array<Session>
    const ttl: int
    var count: int

    ghost predicate Valid()
      reads this, slots
    {
      && slots.Length == SESSION_MAX && ttl > 0
      && Distinct(slots[..]) && count == InUse(slots[..])
    }

    ghost function Sessions(): Table
      reads this, slots
    {
      View(slots[..])
    }

    constructor (ttlSeconds: int)
      ensures Valid() && fresh(slots) && Sessions() == map[]
      ensures ttl == (if ttlSeconds > 0 then ttlSeconds else TTL_DEFAULT)
    {
      slots := new Session[SESSION_MAX](_ => EMPTY);
      count := 0;
      ttl := if ttlSeconds > 0 then ttlSeconds else TTL_DEFAULT;
      new;
      AllFree(slots[..]);
    }

    method FindSlot(key: Text) returns (r: int)
      requires Valid()
      ensures Found(slots[..], key, r)
    {
      var start := HashStart(key);
      r := -1;
      hide Start;
      ghost var s := slots[..];
      for i := 0 to SESSION_MAX
        invariant forall j: nat :: j < i ==> !Holds(s, Probe(start, j), key)
        invariant r == -1 ==> forall j: nat :: j < i ==> s[Probe(start, j)].inUse
        invariant r != -1 ==> 0 <= r < SESSION_MAX && !s[r].inUse && exists d: nat :: FirstFree(s, start, d, r)
      {
        var idx := Probe(start, i);
        if slots[idx].inUse && slots[idx].key == key {
          assert Holds(s, idx, key);
          return idx;
        }
        if !slots[idx].inUse && r < 0 {
          r := idx;
          assert FirstFree(s, start, i, r);
        }
      }
      forall idx | 0 <= idx < SESSION_MAX ensures !Holds(s, idx, key) && (r == -1 ==> s[idx].inUse) {
        ProbeReaches(start, idx);
      }
    }

    /** `evict_locked` */
    method Evict(now: int) returns (evicted: int)
      requires Valid()
      modifies this`count, slots
      ensures Valid() && Sessions() == Evicted(old(Sessions()), now, ttl)
      ensures evicted == old(count) - count
    {
      evicted := 0;
      ghost var s := slots[..];
      for i := 0 to SESSION_MAX
        invariant slots.Length == SESSION_MAX
        invariant forall k :: 0 <= k < i ==> slots[k] == Swept(s, now, ttl)[k]
        invariant forall k :: i <= k < SESSION_MAX ==> slots[k] == s[k]
        invariant count == InUse(slots[..]) && evicted == old(count) - count
      {
        if slots[i].inUse && now - slots[i].lastActive >= ttl {
          InUseUpdated(slots[..], i, EMPTY);
          ghost var before := slots[..];
          slots[i] := EMPTY;
          assert slots[..] == before[i := EMPTY];
          count := count - 1;
          evicted := evicted + 1;
        }
      }
      assert slots[..] == Swept(s, now, ttl);
      SweptView(s, now, ttl);
    }

    /** `session_get_or_create`: the slot of the session, or -1. */
    method GetOrCreate(channel: Option<Text>, chat: Option<Text>, evictNow: int, now: int,
        made: Option<nat>) returns (r: int)
      requires Valid()
      modifies this`count, slots
      ensures Valid()
      ensures channel.None? || chat.None? ==> r == -1 && Sessions() == old(Sessions())
      ensures channel.Some? && chat.Some? ==>
                var key := Key(channel.value, chat.value);
                && Sessions() == AfterGet(old(Sessions()), key, evictNow, now, made, ttl)
                && (r == -1 <==> Answer(old(Sessions()), key, evictNow, made, ttl).None?)
                && (r != -1 ==> Holds(slots[..], r, key))
                && (r != -1 ==> Some(slots[r].agent) == Answer(old(Sessions()), key, evictNow, made, ttl))
    {
      if channel.None? || chat.None? { return -1; }
      var key := Key(channel.value, chat.value);
      hide Key, View, Distinct, InUse, Found;
      r := FindSlot(key);
      FoundMeans(slots[..], key, r);
      ghost var m := Sessions();
      if r < 0 {
        var _ := Evict(evictNow);
        r := FindSlot(key);
        FoundMeans(slots[..], key, r);
        assert key !in Sessions();
        if r < 0 { return -1; }
      }
      if !slots[r].inUse {
        if made.None? { return -1; }
        Create(r, Session(key, made.value, now, true));
      }
    }

    method Create(r: nat, x: Session)
      requires Valid() && r < slots.Length && !slots[r].inUse && x.inUse && x.key !in Sessions()
      modifies this`count, slots
      ensures Valid() && slots[r] == x && Sessions() == old(Sessions())[x.key := EntryOf(x)]
    {
      ghost var s := slots[..];
      ViewRight(s);
      InUseUpdated(s, r, x);
      slots[r] := x;
      count := count + 1;
      assert slots[..] == s[r := x];
      ViewUpdated(s, r, x);
    }

    /** `session_release`: the slot's time is set, whoever holds the slot by then. */
    method Release(r: nat, now: int)
      requires Valid() && r < slots.Length
      modifies slots
      ensures Valid()
      ensures Sessions() == if old(slots[r].inUse) then Touched(old(Sessions()), old(slots[r].key), now)
            else old(Sessions())
    {
      ghost var s := slots[..];
      ViewRight(s);
      var x := slots[r].(lastActive := now);
      InUseUpdated(s, r, x);
      slots[r] := x;
      assert slots[..] == s[r := x];
      ViewUpdated(s, r, x);
    }
  }

  function Touched(m: Table, key: Text, now: int): Table {
    if key in m then m[key := m[key].(lastActive := now)] else m
  }

  lemma FoundMeans(s: seq<Session>, key: Text, r: int)
    requires |s| == SESSION_MAX && Distinct(s) && Found(s, key, r)
    ensures key in View(s) ==> Holds(s, r, key) && View(s)[key] == EntryOf(s[r])
    ensures key !in View(s) ==> (r == -1 <==> |View(s)| == SESSION_MAX) && (r != -1 ==> 0 <= r < |s| && !s[r].inUse)
  {
    ViewRight(s);
    FullWhen(s);
    hide View, InUse, Probe, Start;
    if key in View(s) {
      var i :| Holds(s, i, key);
    } else if r != -1 {
      assert !exists i :: Holds(s, i, key);
    }
  }

  lemma {:induction false} AllFree(s: seq<Session>)
    requires forall i :: 0 <= i < |s| ==> s[i] == EMPTY
    ensures InUse(s) == 0 && View(s) == map[]
  {
    if s != [] { AllFree(s[..|s| - 1]); }
  }

  // ---- Runs ------------------------------------------------------------------------------

  /** A request, a release that reaches a slot in use by `key`, or a sweep of stale sessions. */
  datatype Op =
    | Get(key: Text, evictNow: int, now: int, made: Option<nat>)
    | Touch(key: Text, now: int)
    | Sweep(now: int)

  function Next(m: Table, op: Op, ttl: int): Table {
    match op
    case Get(key, evictNow, now, made) => AfterGet(m, key, evictNow, now, made, ttl)
    case Touch(key, now) => Touched(m, key, now)
    case Sweep(now) => Evicted(m, now, ttl)
  }

  /** Whether an operation removes stale sessions, and by which clock. */
  predicate Sweeps(m: Table, op: Op) { op.Sweep? || (op.Get? && op.key !in m && |m| == SESSION_MAX) }
  function Clock(op: Op): int { if op.Get? then op.evictNow else op.now }

  /** The factory gives an agent that no session has at the time. */
  predicate FreshAgent(m: Table, op: Op, ttl: int) {
    op.Get? && op.made.Some? ==>
      forall k :: k in Room(m, op.evictNow, ttl) ==> Room(m, op.evictNow, ttl)[k].agent != op.made.value
  }

  /** An operation drops a session exactly when it sweeps and the session is stale; otherwise the
      session keeps its agent. */
  lemma SessionDropped(m: Table, op: Op, ttl: int, key: Text)
    requires key in m
    ensures key in Next(m, op, ttl) <==> !(Sweeps(m, op) && Stale(m[key], Clock(op), ttl))
    ensures key in Next(m, op, ttl) ==> Next(m, op, ttl)[key].agent == m[key].agent
  {
  }

  function Exec(m: Table, ops: seq<Op>, ttl: int): Table
    decreases |ops|
  {
    if ops == [] then m else Exec(Next(m, ops[0], ttl), ops[1..], ttl)
  }

  lemma {:induction false} ExecStep(m: Table, ops: seq<Op>, ttl: int, op: Op)
    ensures Exec(m, ops + [op], ttl) == Next(Exec(m, ops, ttl), op, ttl)
    decreases |ops|
  {
    hide Next;
    if ops == [] {
      assert [] + [op] == [op] && [op][1..] == [];
      assert Exec(m, [op], ttl) == Exec(Next(m, op, ttl), [], ttl);
    } else {
      assert (ops + [op])[0] == ops[0] && (ops + [op])[1..] == ops[1..] + [op];
      ExecStep(Next(m, ops[0], ttl), ops[1..], ttl, op);
    }
  }

  // ---- Idleness, from the operations alone -----------------------------------------------

  /** The operation asks for a session that is not there. */
  predicate Asks(ops: seq<Op>, op: Op, ttl: int, key: Text) {
    op.Get? && op.key == key && key !in Exec(map[], ops, ttl)
  }

  /** When the session was last used: the time of the last release, or of the request that made it. */
  function LastUse(ops: seq<Op>, ttl: int, key: Text): int {
    if ops == [] then 0
    else
      var before, op := ops[..|ops| - 1], ops[|ops| - 1];
      if (op.Touch? && op.key == key) || Asks(before, op, ttl, key) then op.now else LastUse(before, ttl, key)
  }

  /** The agent that the factory made at the last request that found no session. */
  function Made(ops: seq<Op>, ttl: int, key: Text): Option<nat> {
    if ops == [] then None
    else
      var before, op := ops[..|ops| - 1], ops[|ops| - 1];
      if Asks(before, op, ttl, key) then op.made else Made(before, ttl, key)
  }

  /** Where an entry comes from. */
  lemma NextEntry(m: Table, op: Op, ttl: int, key: Text)
    requires key in Next(m, op, ttl)
    ensures var e := Next(m, op, ttl)[key];
            if key in m then
              && e.agent == m[key].agent
              && e.lastActive == if op.Touch? && op.key == key then op.now else m[key].lastActive
            else op.Get? && op.key == key && op.made == Some(e.agent) && e.lastActive == op.now
  {
  }

  /** What the table records of a session is when it was last used and the agent made for it. */
  lemma {:induction false} Recorded(ops: seq<Op>, ttl: int, key: Text)
    requires key in Exec(map[], ops, ttl)
    ensures Exec(map[], ops, ttl)[key].lastActive == LastUse(ops, ttl, key)
    ensures Made(ops, ttl, key) == Some(Exec(map[], ops, ttl)[key].agent)
  {
    if ops == [] {
      assert false;
    } else {
      var before, op := ops[..|ops| - 1], ops[|ops| - 1];
      assert before + [op] == ops;
      ExecStep(map[], before, ttl, op);
      NextEntry(Exec(map[], before, ttl), op, ttl, key);
      hide Exec, Next;
      if key in Exec(map[], before, ttl) { Recorded(before, ttl, key); }
    }
  }

  /** The operation sweeps, and the session has not been used for the time to live. */
  ghost predicate FindsIdle(ops: seq<Op>, op: Op, ttl: int, key: Text) {
    Sweeps(Exec(map[], ops, ttl), op) && Clock(op) - LastUse(ops, ttl, key) >= ttl
  }

  /** After every run, an operation drops a session exactly when it sweeps and the session has not been
      used for the time to live; otherwise the session keeps the agent that was made for it. */
  lemma DroppedExactly(ops: seq<Op>, op: Op, ttl: int, key: Text)
    requires key in Exec(map[], ops, ttl)
    ensures key !in Exec(map[], ops + [op], ttl) <==> FindsIdle(ops, op, ttl, key)
    ensures key in Exec(map[], ops + [op], ttl) ==> Made(ops + [op], ttl, key) == Made(ops, ttl, key)
  {
    Recorded(ops, ttl, key);
    ExecStep(map[], ops, ttl, op);
    SessionDropped(Exec(map[], ops, ttl), op, ttl, key);
    assert (ops + [op])[..|ops + [op]| - 1] == ops;
    hide Exec, Next, LastUse;
  }

  predicate AllFresh(m: Table, ops: seq<Op>, ttl: int)
    decreases |ops|
  {
    ops == [] || (FreshAgent(m, ops[0], ttl) && AllFresh(Next(m, ops[0], ttl), ops[1..], ttl))
  }

  /** Over every run, and whatever comes after it: a session stays all along if and only if no operation
      that sweeps finds it unused for the time to live, and then it still answers with the agent that was
      made for it. */
  lemma {:induction false} AgentKept(ops: seq<Op>, more: seq<Op>, ttl: int, key: Text, evictNow: int, made: Option<nat>)
    requires key in Exec(map[], ops, ttl)
    ensures (forall i :: 0 <= i <= |more| ==> key in Exec(map[], ops + more[..i], ttl))
       <==> (forall i :: 0 <= i < |more| ==> !FindsIdle(ops + more[..i], more[i], ttl, key))
    ensures (forall i :: 0 <= i < |more| ==> !FindsIdle(ops + more[..i], more[i], ttl, key)) ==>
              && Made(ops, ttl, key).Some?
              && Answer(Exec(map[], ops + more, ttl), key, evictNow, made, ttl) == Made(ops, ttl, key)
    decreases |more|
  {
    hide Exec, FindsIdle, Made;
    if more == [] {
      assert ops + more == ops && more[..0] == [];
      Recorded(ops, ttl, key);
    } else {
      var n := |more| - 1;
      var most, op := more[..n], more[n];
      AgentKept(ops, most, ttl, key, evictNow, made);
      assert forall i :: 0 <= i <= n ==> most[..i] == more[..i];
      assert ops + most + [op] == ops + more && more[..|more|] == more;
      if key in Exec(map[], ops + most, ttl) {
        DroppedExactly(ops + most, op, ttl, key);
        Recorded(ops + most, ttl, key);
        if key in Exec(map[], ops + more, ttl) { Recorded(ops + more, ttl, key); }
      }
    }
  }

  ghost predicate Isolated(m: Table) {
    && |m| <= SESSION_MAX
    && forall j, k :: j in m && k in m && j != k ==> m[j].agent != m[k].agent
  }

  lemma NextIsolated(m: Table, op: Op, ttl: int)
    requires Isolated(m) && FreshAgent(m, op, ttl)
    ensures Isolated(Next(m, op, ttl))
  {
    var e := Evicted(m, Clock(op), ttl);
    assert e.Keys <= m.Keys;
    Smaller(e.Keys, m.Keys);
    assert Isolated(e);
    if op.Touch? && op.key in m { assert Next(m, op, ttl).Keys == m.Keys; }
  }

  lemma {:induction false} ExecIsolated(m: Table, ops: seq<Op>, ttl: int)
    requires Isolated(m) && AllFresh(m, ops, ttl)
    ensures Isolated(Exec(m, ops, ttl))
    decreases |ops|
  {
    if ops != [] {
      NextIsolated(m, ops[0], ttl);
      hide Next, FreshAgent;
      ExecIsolated(Next(m, ops[0], ttl), ops[1..], ttl);
    }
  }

  /** Over every run, different conversations have different agents: two pairs with a channel free
      of colons and a key that fits never get the same agent. */
  lemma PairsIsolated(ops: seq<Op>, ttl: int, channel: Text, chat: Text, channel': Text, chat': Text)
    requires AllFresh(map[], ops, ttl)
    requires COLON !in channel && COLON !in channel' && (channel, chat) != (channel', chat')
    requires |channel| + |chat| + 1 < KEY_MAX && |channel'| + |chat'| + 1 < KEY_MAX
    requires Key(channel, chat) in Exec(map[], ops, ttl) && Key(channel', chat') in Exec(map[], ops, ttl)
    ensures Exec(map[], ops, ttl)[Key(channel, chat)].agent != Exec(map[], ops, ttl)[Key(channel', chat')].agent
  {
    ExecIsolated(map[], ops, ttl);
    if Key(channel, chat) == Key(channel', chat') { KeyInjective(channel, chat, channel', chat'); }
  }

  /** A pair with a colon-free channel shares its key with another such pair if and only if its text
      fills the key: from 319 bytes on. */
  lemma KeyShared(channel: Text, chat: Text)
    requires COLON !in channel
    ensures (exists channel', chat' :: COLON !in channel' && (channel', chat') != (channel, chat)
                                    && Key(channel', chat') == Key(channel, chat))
       <==> |channel| + 1 + |chat| >= KEY_MAX - 1
  {
    var full := channel + [COLON] + chat;
    if |full| >= KEY_MAX - 1 {
      var longer := chat + [97];
      assert channel + [COLON] + longer == full + [97] && (full + [97])[..KEY_MAX - 1] == full[..KEY_MAX - 1];
      assert Key(channel, longer) == Key(channel, chat) && |longer| != |chat|;
    } else {
      forall channel', chat' | COLON !in channel' && Key(channel', chat') == Key(channel, chat)
        ensures (channel', chat') == (channel, chat)
      {
        KeyInjective(channel', chat', channel, chat);
      }
    }
  }

  /** A colon in a channel moves freely between the channel and the chat. */
  lemma ColonMoves(channel: Text, a: Text, b: Text)
    ensures Key(channel, a + [COLON] + b) == Key(channel + [COLON] + a, b)
  {
    assert channel + [COLON] + (a + [COLON] + b) == channel + [COLON] + a + [COLON] + b;
  }
}
