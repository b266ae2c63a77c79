/**
 The laws of the memory file of src/memory/md_memory.c: when a stored fact is recalled, that every
 other fact is recalled as before, that storing twice is storing once, and what long lines do.
 */
module MemoryLaws {
  import opened Bytes
  import opened Options
  import opened MemoryFile

  // ---- What the laws ask for -------------------------------------------------------------

  predicate Free(s: Text, b: byte) { forall i :: 0 <= i < |s| ==> s[i] != b }

  /** A section name that its heading gives back; the four canonical names are such. */
  predicate Nameable(section: Text) {
    section != [] && Trimmed(section) && Free(section, NEWLINE) && Free(section, RETURN) && |section| < 255
  }

  /** Trimmed, short, without newlines; the key not empty and without colons. */
  predicate Storable(f: Fact) {
    && f.key != [] && Trimmed(f.key) && Free(f.key, NEWLINE) && Free(f.key, COLON) && |f.key| < 512
    && Trimmed(f.value) && Free(f.value, NEWLINE) && |f.value| <= 510
    && Nameable(f.section)
  }

  /** A newline-terminated text whose lines fit the line buffer. */
  predicate Lined(content: Text)
    decreases |content|
  {
    content == [] ||
    var n := LineLength(content);
    IsLine(content[..n]) && n <= LINE_MAX && Lined(content[n..])
  }

  lemma LinedLine(line: Text, rest: Text)
    requires IsLine(line)
    ensures Lined(line + rest) <==> |line| <= LINE_MAX && Lined(rest)
  {
    FirstLine(line, rest);
  }

  /** Texts without newlines, of any length. */
  predicate Worded(f: Fact) { f.key != [] && Free(f.key, NEWLINE) && Free(f.value, NEWLINE) && Nameable(f.section) }

  /** Texts without newlines whose bullet fits a line. */
  predicate Written(f: Fact) { Worded(f) && |Bullet(f.key, f.value)| < LINE_MAX }

  /** The key and the value that a bullet reads back as. */
  function KeyOf(f: Fact): Text {
    var b := BulletLine(f.key, f.value);
    if IsBullet(b) then BulletKey(b) else []
  }
  function ValueOf(f: Fact): Text {
    var b := BulletLine(f.key, f.value);
    if IsBullet(b) && ColonAt(b) < |b| then BulletValue(b) else []
  }

  /** The bullet reads back with the key it was stored under. */
  predicate Readable(f: Fact) { Written(f) && KeyOf(f) == f.key }

  lemma BulletText(f: Fact)
    requires Written(f)
    ensures BulletLine(f.key, f.value) == BULLET_MARK + f.key + [COLON, SPACE] + f.value + [NEWLINE]
  {
  }

  lemma BulletShape(f: Fact)
    requires Written(f)
    ensures var b := BulletLine(f.key, f.value);
            IsLine(b) && |b| <= LINE_MAX && !IsHeading(b) && IsBullet(b) && ColonAt(b) < |b|
  {
    BulletText(f);
    hide BulletLine;
    var b := BULLET_MARK + f.key + [COLON, SPACE] + f.value + [NEWLINE];
    assert b[0] == 45 && b[2 + |f.key|] == COLON;
  }

  /** Where the key ends: at its own first colon, or at its end. */
  lemma BulletParts(f: Fact)
    requires Written(f)
    ensures var b, p := BulletLine(f.key, f.value), Find(f.key, COLON, 0);
            && IsBullet(b) && ColonAt(b) == 2 + p && 2 + p < |b| && b[2..2 + p] == f.key[..p]
            && (p == |f.key| ==> b[2 + p + 1..] == [SPACE] + f.value + [NEWLINE])
  {
    BulletShape(f);
    BulletText(f);
    hide BulletLine;
    var b, p := BulletLine(f.key, f.value), Find(f.key, COLON, 0);
    assert forall i :: 2 <= i < 2 + |f.key| ==> b[i] == f.key[i - 2];
    assert b[2 + p] == COLON;
    assert b[2..2 + p] == f.key[..p];
  }

  /** A bullet reads back with its key if and only if the key is trimmed, short and without colons. */
  lemma ReadableExactly(f: Fact)
    requires Written(f)
    ensures Readable(f) <==> Trimmed(f.key) && Free(f.key, COLON) && |f.key| < 512
  {
    BulletParts(f);
    var p := Find(f.key, COLON, 0);
    hide BulletLine, Find;
    TrimShortens(f.key[..p]);
    assert f.key[..|f.key|] == f.key;
    assert Free(f.key, COLON) <==> p == |f.key| by { FindFree(f.key, COLON); }
    if Trimmed(f.key) { TrimmedKept(f.key); }
  }

  lemma FindFree(s: Text, b: byte)
    ensures Free(s, b) <==> Find(s, b, 0) == |s|
  {
  }

  lemma {:induction false} TrimLeftShortens(s: Text)
    ensures |TrimLeft(s)| <= |s| && (TrimLeft(s) != [] ==> !IsSpace(TrimLeft(s)[0]))
  {
    if s != [] && IsSpace(s[0]) { TrimLeftShortens(s[1..]); }
  }

  lemma {:induction false} TrimRightKeeps(s: Text)
    ensures TrimRight(s) <= s && forall i :: |TrimRight(s)| <= i < |s| ==> IsSpace(s[i])
    ensures TrimRight(s) != [] ==> !IsSpace(TrimRight(s)[|TrimRight(s)| - 1])
  {
    if s != [] && IsSpace(s[|s| - 1]) { TrimRightKeeps(s[..|s| - 1]); }
  }

  /** Trimming makes no text longer, and trimmed. */
  lemma TrimShortens(s: Text)
    ensures |Trim(s)| <= |s| && Trimmed(Trim(s))
  {
    TrimLeftShortens(s);
    TrimRightKeeps(TrimLeft(s));
  }

  /** It reads back with its value if and only if the value is trimmed and not above 510 bytes. */
  lemma ValueExactly(f: Fact)
    requires Readable(f)
    ensures ValueOf(f) == f.value <==> Trimmed(f.value) && |f.value| <= 510
  {
    ReadableExactly(f);
    BulletParts(f);
    FindFree(f.key, COLON);
    var v := [SPACE] + f.value + [NEWLINE];
    var t := Take(v, 511);
    assert ValueOf(f) == Trim(t);
    hide BulletLine, Find, ValueOf;
    TrimShortens(t[1..]);
    assert t[0] == SPACE && Trim(t) == Trim(t[1..]);
    if Trimmed(f.value) && |f.value| <= 510 { TakeValue(f.value); }
  }

  /** The bullet reads back as the key and the value it was made from. */
  lemma BulletReads(f: Fact)
    requires Storable(f)
    ensures Readable(f) && ValueOf(f) == f.value
  {
    assert Written(f);
    ReadableExactly(f);
    ValueExactly(f);
  }

  /** So of the facts whose bullet fits a line, the storable ones are those that read back. */
  lemma StorableExactly(f: Fact)
    requires Written(f)
    ensures Storable(f) <==> KeyOf(f) == f.key && ValueOf(f) == f.value
  {
    ReadableExactly(f);
    if Readable(f) { ValueExactly(f); }
  }

  /** A value of 510 bytes loses just the newline to the value buffer. */
  lemma TakeValue(v: Text)
    requires Trimmed(v) && |v| <= 510
    ensures Trim(Take([SPACE] + v + [NEWLINE], 511)) == v
  {
    TrimValue(v);
    if |v| == 510 {
      var s := [SPACE] + v;
      assert Take([SPACE] + v + [NEWLINE], 511) == s && s[1..] == v;
      assert TrimLeft(s) == TrimLeft(v) == v && TrimRight(v) == v;
    }
  }

  lemma HeadingReads(section: Text)
    requires Nameable(section)
    ensures var h := HeadingLine(section);
            && IsLine(h) && |h| <= LINE_MAX && IsHeading(h) && !IsBullet(h)
            && StoreHeading(h) == section && RecallHeading(h) == section
  {
    var h := HeadingLine(section);
    var t := section + [NEWLINE];
    assert h[3..] == t && Take(t, 255) == t && h[0] == 35;
    assert t[|section|] == NEWLINE && forall i :: 0 <= i < |section| ==> t[i] == section[i];
    assert CutAt(t, NEWLINE) == section && CutAt(section, RETURN) == section;
    TrimmedKept(section);
  }

  lemma BlankLine()
    ensures IsLine([NEWLINE]) && !IsHeading([NEWLINE]) && !IsBullet([NEWLINE])
  {
  }

  // ---- Recall after store ----------------------------------------------------------------

  /** Until the bullet is written, the section has been seen exactly when the scan is inside it. */
  predicate Coherent(st: Scan) { !st.written ==> (st.inTarget <==> st.found) }

  lemma AfterCoherent(st: Scan, line: Text, f: Fact)
    requires Coherent(st)
    ensures Coherent(After(st, line, f))
  {
  }

  lemma RecallBullet(inTarget: bool, f: Fact, rest: Text, section: Text, key: Text)
    requires Written(f)
    ensures RecallFrom(inTarget, BulletLine(f.key, f.value) + rest, section, key) ==
            if inTarget && key == KeyOf(f) then Some(ValueOf(f)) else RecallFrom(inTarget, rest, section, key)
  {
    BulletShape(f);
    RecallLine(inTarget, BulletLine(f.key, f.value), rest, section, key);
  }

  lemma RecallBlank(inTarget: bool, rest: Text, section: Text, key: Text)
    ensures RecallFrom(inTarget, [NEWLINE] + rest, section, key) == RecallFrom(inTarget, rest, section, key)
  {
    BlankLine();
    RecallLine(inTarget, [NEWLINE], rest, section, key);
  }

  lemma RecallNewSection(inTarget: bool, name: Text, rest: Text, section: Text, key: Text)
    requires Nameable(name)
    ensures RecallFrom(inTarget, HeadingLine(name) + rest, section, key)
         == RecallFrom(name == section, rest, section, key)
  {
    HeadingReads(name);
    RecallLine(inTarget, HeadingLine(name), rest, section, key);
  }

  /** A recall from the end of the file on. */
  lemma TailRecalled(st: Scan, inTarget: bool, f: Fact, section: Text, key: Text)
    requires Written(f)
    ensures RecallFrom(inTarget, Tail(st, f), section, key) ==
            if !st.written && key == KeyOf(f) && (if st.found then inTarget else section == f.section)
            then Some(ValueOf(f)) else None
  {
    var b, h := BulletLine(f.key, f.value), HeadingLine(f.section);
    assert RecallFrom(inTarget, [], section, key) == RecallFrom(f.section == section, [], section, key) == None;
    assert Nameable(f.section);
    hide BulletLine, HeadingLine, RecallFrom, Written, Worded, KeyOf, ValueOf, Nameable;
    assert b + [] == b;
    if st.found {
      RecallBullet(inTarget, f, [], section, key);
    } else {
      var now := f.section == section;
      RecallBullet(now, f, [], section, key);
      RecallBlank(now, b, section, key);
      RecallNewSection(inTarget, f.section, [NEWLINE] + b, section, key);
      RecallBlank(inTarget, h + ([NEWLINE] + b), section, key);
    }
  }

  // ---- When the stored value is recalled -------------------------------------------------

  /** The text of some lines. */
  function Join(ls: seq<Text>): Text { if ls == [] then [] else ls[0] + Join(ls[1..]) }

  /** The lines of a text. */
  function Lines(content: Text): seq<Text>
    decreases |content|
  {
    if content == [] then [] else [content[..LineLength(content)]] + Lines(content[LineLength(content)..])
  }

  predicate ShortLines(ls: seq<Text>) { forall i :: 0 <= i < |ls| ==> IsLine(ls[i]) && |ls[i]| <= LINE_MAX }

  lemma {:induction false} LinesJoined(content: Text)
    requires Lined(content)
    ensures Join(Lines(content)) == content && ShortLines(Lines(content))
    decreases |content|
  {
    if content != [] {
      var n := LineLength(content);
      LinesJoined(content[n..]);
      assert content == content[..n] + content[n..];
    }
  }

  /** How far the store has got before line `i`, and whether recall takes that line to be under the
      section. */
  function ScanAt(ls: seq<Text>, i: nat, f: Fact): Scan
    requires i <= |ls|
  {
    if i == 0 then START else After(ScanAt(ls, i - 1, f), ls[i - 1], f)
  }
  predicate RecallAt(ls: seq<Text>, i: nat, section: Text)
    requires i <= |ls|
  {
    i > 0 && Target(RecallAt(ls, i - 1, section), ls[i - 1], section)
  }

  /** The store writes the bullet at line `i`, or at the end of the file. */
  predicate Writes(ls: seq<Text>, i: nat, f: Fact)
    requires i <= |ls|
  {
    var st := ScanAt(ls, i, f);
    if i < |ls| then Closes(st, ls[i]) || Replaces(st, ls[i], f) else !st.written
  }

  /** It writes it where recall is inside the section, or under a new heading. */
  predicate Visible(ls: seq<Text>, i: nat, f: Fact)
    requires i <= |ls|
  {
    Writes(ls, i, f) && (RecallAt(ls, i, f.section) || (i == |ls| && !ScanAt(ls, i, f).found))
  }

  /** An old bullet with the key under a heading that recall takes for the section and store does
      not. */
  predicate Shadow(ls: seq<Text>, i: nat, f: Fact)
    requires i <= |ls|
  {
    i < |ls| && !ScanAt(ls, i, f).inTarget && Hit(RecallAt(ls, i, f.section), ls[i], f.key)
  }

  /** What recall comes to first. */
  predicate First(ls: seq<Text>, k: nat, i: nat, f: Fact) {
    && k <= i <= |ls| && (Visible(ls, i, f) || Shadow(ls, i, f))
    && forall j :: k <= j < i ==> !Visible(ls, j, f) && !Shadow(ls, j, f)
  }

  lemma EmitSeen(ls: seq<Text>, k: nat, f: Fact, out: Text)
    requires Readable(f) && ShortLines(ls) && k < |ls|
    ensures RecallFrom(RecallAt(ls, k, f.section), Emit(ScanAt(ls, k, f), ls[k], f, out), f.section, f.key) ==
            if Visible(ls, k, f) then Some(ValueOf(f))
            else if Shadow(ls, k, f) then Some(BulletValue(ls[k]))
            else RecallFrom(RecallAt(ls, k + 1, f.section), out, f.section, f.key)
  {
    var line := ls[k];
    assert IsLine(line) && |line| <= LINE_MAX && Buffer(line) == line && Copy(line) == line;
    hide BulletLine, RecallFrom, IsLine, Written, Worded, KeyOf, ValueOf, StoreHeading, RecallHeading, BulletKey,
        BulletValue, ScanAt, ColonAt;
    var r := RecallAt(ls, k, f.section);
    RecallBullet(r, f, line + out, f.section, f.key);
    RecallBullet(r, f, out, f.section, f.key);
    RecallLine(r, line, out, f.section, f.key);
  }

  /** What a recall from line `k` on gives: the stored value or the old one, whichever comes first. */
  predicate Gives(ls: seq<Text>, k: nat, f: Fact, got: Option<Text>) {
    && (forall i :: 0 <= i <= |ls| && First(ls, k, i, f) ==>
          got == Some(if Visible(ls, i, f) then ValueOf(f) else BulletValue(ls[i])))
    && ((forall i :: 0 <= i <= |ls| ==> !First(ls, k, i, f)) ==> got == None)
  }

  function RecallStored(ls: seq<Text>, k: nat, f: Fact): Option<Text>
    requires k <= |ls|
  {
    RecallFrom(RecallAt(ls, k, f.section), StoreFrom(ScanAt(ls, k, f), Join(ls[k..]), f), f.section, f.key)
  }

  lemma SeenAtEnd(ls: seq<Text>, f: Fact)
    requires Readable(f)
    ensures Gives(ls, |ls|, f, RecallStored(ls, |ls|, f))
  {
    var k := |ls|;
    assert ls[k..] == [];
    TailRecalled(ScanAt(ls, k, f), RecallAt(ls, k, f.section), f, f.section, f.key);
    hide RecallFrom, ScanAt, RecallAt, Tail, Written, Worded, KeyOf, ValueOf;
    assert First(ls, k, k, f) <==> Visible(ls, k, f);
  }

  lemma RecallStep(ls: seq<Text>, k: nat, f: Fact)
    requires Readable(f) && ShortLines(ls) && k < |ls|
    ensures RecallStored(ls, k, f) ==
            if Visible(ls, k, f) then Some(ValueOf(f))
            else if Shadow(ls, k, f) then Some(BulletValue(ls[k]))
            else RecallStored(ls, k + 1, f)
  {
    var st, line, rest := ScanAt(ls, k, f), ls[k], Join(ls[k + 1..]);
    assert ls[k..][0] == line && ls[k..][1..] == ls[k + 1..];
    assert Join(ls[k..]) == line + rest && ScanAt(ls, k + 1, f) == After(st, line, f);
    hide RecallFrom, StoreFrom, Emit, After, ScanAt, RecallAt, Written, Worded, KeyOf, ValueOf, Visible, Shadow,
        BulletValue, Join;
    StoreLine(st, line, rest, f);
    EmitSeen(ls, k, f, StoreFrom(After(st, line, f), rest, f));
  }

  lemma {:induction false} SeenFrom(ls: seq<Text>, k: nat, f: Fact)
    requires Readable(f) && ShortLines(ls) && k <= |ls|
    ensures Gives(ls, k, f, RecallStored(ls, k, f))
    decreases |ls| - k
  {
    hide RecallStored, Written, Worded, KeyOf, ValueOf, Visible, Shadow, BulletValue;
    if k == |ls| {
      SeenAtEnd(ls, f);
    } else {
      var next := k + 1;
      RecallStep(ls, k, f);
      SeenFrom(ls, next, f);
      FirstLater(ls, k, next, f);
      hide First;
    }
  }

  lemma FirstLater(ls: seq<Text>, k: nat, next: nat, f: Fact)
    requires k < |ls| && next == k + 1
    ensures Visible(ls, k, f) || Shadow(ls, k, f) ==>
              First(ls, k, k, f) && forall i :: 0 <= i <= |ls| && First(ls, k, i, f) ==> i == k
    ensures !Visible(ls, k, f) && !Shadow(ls, k, f) ==>
              forall i :: 0 <= i <= |ls| ==> (First(ls, k, i, f) <==> First(ls, next, i, f))
  {
    hide Visible, Shadow;
  }

  /** The stored value is recalled if and only if what recall comes to first is a place where the
      store writes, or an old bullet that it does not reach and that holds the same value. */
  predicate WillRecall(ls: seq<Text>, f: Fact) {
    exists i :: 0 <= i <= |ls| && First(ls, 0, i, f) && (Visible(ls, i, f) || BulletValue(ls[i]) == ValueOf(f))
  }

  lemma RecalledExactly(content: Text, f: Fact)
    requires Readable(f) && Lined(content)
    ensures RecallFrom(false, StoreFrom(START, content, f), f.section, f.key) == Some(ValueOf(f))
       <==> WillRecall(Lines(content), f)
  {
    var ls := Lines(content);
    LinesJoined(content);
    assert ls[0..] == ls;
    assert ScanAt(ls, 0, f) == START && !RecallAt(ls, 0, f.section);
    hide RecallFrom, StoreFrom, ScanAt, RecallAt, Written, Worded, KeyOf, ValueOf, BulletValue, Lines, Visible, Shadow;
    SeenFrom(ls, 0, f);
  }

  // ---- Storing twice ---------------------------------------------------------------------

  lemma StoreBullet(st: Scan, f: Fact, rest: Text)
    requires Readable(f) && st.inTarget
    ensures StoreFrom(st, BulletLine(f.key, f.value) + rest, f)
         == BulletLine(f.key, f.value) + StoreFrom(st.(written := true), rest, f)
  {
    BulletShape(f);
    StoreLine(st, BulletLine(f.key, f.value), rest, f);
  }

  lemma StoreBlank(st: Scan, f: Fact, rest: Text)
    ensures StoreFrom(st, [NEWLINE] + rest, f) == [NEWLINE] + StoreFrom(st, rest, f)
  {
    BlankLine();
    StoreLine(st, [NEWLINE], rest, f);
  }

  lemma StoreNewSection(st: Scan, f: Fact, rest: Text)
    requires Written(f) && !st.inTarget
    ensures StoreFrom(st, HeadingLine(f.section) + rest, f)
         == HeadingLine(f.section) + StoreFrom(Scan(true, st.written, true), rest, f)
  {
    HeadingReads(f.section);
    StoreLine(st, HeadingLine(f.section), rest, f);
  }

  lemma TailAgain(st: Scan, f: Fact)
    requires Readable(f) && Coherent(st)
    ensures StoreFrom(st, Tail(st, f), f) == Tail(st, f)
  {
    var b, h := BulletLine(f.key, f.value), HeadingLine(f.section);
    assert forall inTarget: bool, found: bool :: StoreFrom(Scan(inTarget, true, found), [], f) == [];
    hide BulletLine, HeadingLine, StoreFrom, Written, Worded, KeyOf, ValueOf;
    assert b + [] == b;
    if !st.written {
      if st.found {
        StoreBullet(st, f, []);
      } else {
        StoreBullet(Scan(true, false, true), f, []);
        StoreBlank(Scan(true, false, true), f, b);
        StoreNewSection(st, f, [NEWLINE] + b);
        StoreBlank(st, f, h + ([NEWLINE] + b));
      }
    }
  }

  lemma EmitAgain(st: Scan, line: Text, f: Fact, out: Text)
    requires Readable(f) && IsLine(line) && |line| <= LINE_MAX
    ensures StoreFrom(st, Emit(st, line, f, out), f) == Emit(st, line, f, StoreFrom(After(st, line, f), out, f))
  {
    hide BulletLine, StoreFrom, IsLine, Written, Worded, KeyOf, ValueOf, StoreHeading, IsHeading, IsBullet, BulletKey;
    StoreLine(st, line, out, f);
    if Closes(st, line) {
      StoreBullet(st, f, line + out);
      StoreLine(st.(written := true), line, out, f);
    } else if Replaces(st, line, f) {
      StoreBullet(st, f, out);
    }
  }

  lemma {:induction false} StoredAgain(st: Scan, content: Text, f: Fact)
    requires Readable(f) && Coherent(st) && Lined(content)
    ensures StoreFrom(st, StoreFrom(st, content, f), f) == StoreFrom(st, content, f)
    decreases |content|
  {
    if content == [] {
      TailAgain(st, f);
    } else {
      var n := LineLength(content);
      var line, next := content[..n], After(st, content[..n], f);
      AfterCoherent(st, line, f);
      EmitAgain(st, line, f, StoreFrom(next, content[n..], f));
      hide IsLine, Written, Worded, KeyOf, ValueOf, After, Emit;
      StoredAgain(next, content[n..], f);
    }
  }

  // ---- Everything else is recalled as before ---------------------------------------------

  /** No heading names one section for the store and another one for recall. */
  lemma HeadingAgrees(line: Text, a: Text, b: Text)
    requires IsHeading(line) && Nameable(a) && Nameable(b) && StoreHeading(line) == a && RecallHeading(line) == b
    ensures a == b
  {
    var u := CutAt(Take(line[3..], 255), NEWLINE);
    var p := Find(u, RETURN, 0);
    assert a == u[..p] && a[0] == u[0] && TrimLeft(u) == u;
    TrimRightKeeps(u);
    assert b == TrimRight(u) && b == u[..|b|];
    assert forall i :: 0 <= i < |b| ==> b[i] == u[i];
    assert p > 0 && a[p - 1] == u[p - 1];
  }

  /** Another fact is looked for: under the same section with another key than the one stored under
      and the one that the bullet reads back with, or where the scan of the store is not. */
  predicate Aside(st: Scan, inTarget: bool, f: Fact, section: Text, key: Text) {
    (key != f.key && key != KeyOf(f)) || (section != f.section && !(inTarget && st.inTarget))
  }

  lemma AfterAside(st: Scan, inTarget: bool, line: Text, f: Fact, section: Text, key: Text)
    requires Nameable(f.section) && Nameable(section) && Aside(st, inTarget, f, section, key)
    ensures Aside(After(st, line, f), Target(inTarget, line, section), f, section, key)
  {
    hide StoreHeading, RecallHeading, Nameable;
    if IsHeading(line) && StoreHeading(line) == f.section && RecallHeading(line) == section {
      HeadingAgrees(line, f.section, section);
    }
  }

  lemma EmitAside(st: Scan, inTarget: bool, line: Text, f: Fact, out: Text, section: Text, key: Text)
    requires Written(f) && Aside(st, inTarget, f, section, key) && IsLine(line) && |line| <= LINE_MAX
    ensures RecallFrom(inTarget, Emit(st, line, f, out), section, key) ==
            if Hit(inTarget, line, key) then Some(BulletValue(line))
            else RecallFrom(Target(inTarget, line, section), out, section, key)
  {
    assert Buffer(line) == line && Copy(line) == line;
    hide BulletLine, RecallFrom, IsLine, Written, Worded, KeyOf, ValueOf, StoreHeading, RecallHeading, BulletKey;
    RecallBullet(inTarget, f, line + out, section, key);
    RecallBullet(inTarget, f, out, section, key);
    RecallLine(inTarget, line, out, section, key);
  }

  lemma {:induction false} OthersKept(st: Scan, inTarget: bool, content: Text, f: Fact, section: Text, key: Text)
    requires Written(f) && Nameable(section) && Lined(content) && Coherent(st) && Aside(st, inTarget, f, section, key)
    ensures RecallFrom(inTarget, StoreFrom(st, content, f), section, key) == RecallFrom(inTarget, content, section, key)
    decreases |content|
  {
    if content == [] {
      TailRecalled(st, inTarget, f, section, key);
    } else {
      var n := LineLength(content);
      var line, next := content[..n], After(st, content[..n], f);
      AfterCoherent(st, line, f);
      AfterAside(st, inTarget, line, f, section, key);
      EmitAside(st, inTarget, line, f, StoreFrom(next, content[n..], f), section, key);
      assert Buffer(line) == line;
      hide IsLine, Written, Worded, KeyOf, ValueOf, After, Emit, Closes, Replaces, Hit, Target, Aside, BulletValue,
          Nameable;
      if !Hit(inTarget, line, key) {
        OthersKept(next, Target(inTarget, line, section), content[n..], f, section, key);
      }
    }
  }

  // ---- Files with exact headings ---------------------------------------------------------

  /** Store and recall agree on whether a heading names the section. */
  predicate Exact(line: Text, section: Text) {
    IsHeading(line) ==> (StoreHeading(line) == section <==> RecallHeading(line) == section)
  }

  /** A newline-terminated text whose lines fit the line buffer and whose headings are exact. */
  predicate Regular(content: Text, section: Text)
    decreases |content|
  {
    content == [] ||
    var n := LineLength(content);
    IsLine(content[..n]) && n <= LINE_MAX && Exact(content[..n], section) && Regular(content[n..], section)
  }

  lemma RegularLine(line: Text, rest: Text, section: Text)
    requires IsLine(line)
    ensures Regular(line + rest, section) <==> |line| <= LINE_MAX && Exact(line, section) && Regular(rest, section)
  {
    FirstLine(line, rest);
  }

  predicate ExactLines(ls: seq<Text>, section: Text) { forall i :: 0 <= i < |ls| ==> Exact(ls[i], section) }

  lemma {:induction false} RegularLines(content: Text, section: Text)
    requires Regular(content, section)
    ensures Lined(content) && ExactLines(Lines(content), section)
    decreases |content|
  {
    hide Exact, IsLine;
    if content != [] { RegularLines(content[LineLength(content)..], section); }
  }

  lemma {:induction false} InStep(ls: seq<Text>, i: nat, f: Fact)
    requires ExactLines(ls, f.section) && i <= |ls|
    ensures RecallAt(ls, i, f.section) == ScanAt(ls, i, f).inTarget && Coherent(ScanAt(ls, i, f))
  {
    hide StoreHeading, RecallHeading, IsHeading, BulletKey;
    if i > 0 {
      InStep(ls, i - 1, f);
      assert Exact(ls[i - 1], f.section);
    }
  }

  lemma {:induction false} WriteComes(ls: seq<Text>, k: nat, f: Fact) returns (i: nat)
    requires k <= |ls| && !ScanAt(ls, k, f).written
    ensures k <= i <= |ls| && Writes(ls, i, f) && forall j :: k <= j < i ==> !Writes(ls, j, f)
    decreases |ls| - k
  {
    hide StoreHeading, BulletKey;
    if k == |ls| || Writes(ls, k, f) {
      i := k;
    } else {
      assert !ScanAt(ls, k + 1, f).written;
      i := WriteComes(ls, k + 1, f);
    }
  }

  /** With exact headings the stored value is always recalled. */
  lemma ExactRecalled(content: Text, f: Fact)
    requires Readable(f) && Regular(content, f.section)
    ensures RecallFrom(false, StoreFrom(START, content, f), f.section, f.key) == Some(ValueOf(f))
  {
    RegularLines(content, f.section);
    var ls := Lines(content);
    assert ScanAt(ls, 0, f) == START;
    hide RecallFrom, StoreFrom, Lines, Written, Worded, KeyOf, ValueOf, BulletKey, StoreHeading, RecallHeading,
        BulletValue, ColonAt;
    RecalledExactly(content, f);
    var i := WriteComes(ls, 0, f);
    forall j | 0 <= j <= i ensures !Shadow(ls, j, f) && (Visible(ls, j, f) <==> Writes(ls, j, f)) {
      InStep(ls, j, f);
      hide RecallAt, ScanAt;
    }
    assert First(ls, 0, i, f);
  }

  lemma RegularBullet(f: Fact, rest: Text, section: Text)
    requires Written(f) && Regular(rest, section)
    ensures Regular(BulletLine(f.key, f.value) + rest, section)
  {
    BulletShape(f);
    RegularLine(BulletLine(f.key, f.value), rest, section);
  }

  lemma TailRegular(st: Scan, f: Fact, section: Text)
    requires Written(f)
    ensures Regular(Tail(st, f), section)
  {
    var b, h := BulletLine(f.key, f.value), HeadingLine(f.section);
    assert Regular([], section);
    RegularBullet(f, [], section);
    HeadingReads(f.section);
    assert IsLine(h) && |h| <= LINE_MAX && Exact(h, section);
    BlankLine();
    assert Exact([NEWLINE], section);
    hide BulletLine, HeadingLine, Written, Worded, KeyOf, ValueOf, StoreHeading, RecallHeading, IsLine, Regular,
        IsHeading, IsBullet, Exact;
    assert b + [] == b;
    RegularLine([NEWLINE], b, section);
    RegularLine(h, [NEWLINE] + b, section);
    RegularLine([NEWLINE], h + ([NEWLINE] + b), section);
  }

  lemma EmitRegular(st: Scan, line: Text, f: Fact, out: Text, section: Text)
    requires Written(f) && IsLine(line) && |line| <= LINE_MAX && Exact(line, section) && Regular(out, section)
    ensures Regular(Emit(st, line, f, out), section)
  {
    hide BulletLine, Written, Worded, KeyOf, ValueOf, IsLine, Regular, Exact, Closes, Replaces;
    RegularLine(line, out, section);
    RegularBullet(f, line + out, section);
    RegularBullet(f, out, section);
  }

  lemma {:induction false} StoredRegular(st: Scan, content: Text, f: Fact, section: Text)
    requires Written(f) && Regular(content, section)
    ensures Regular(StoreFrom(st, content, f), section)
    decreases |content|
  {
    if content == [] {
      TailRegular(st, f, section);
    } else {
      var n := LineLength(content);
      var line, next := content[..n], After(st, content[..n], f);
      hide Written, Worded, KeyOf, ValueOf, After, Emit, IsLine, Exact;
      StoredRegular(next, content[n..], f, section);
      EmitRegular(st, line, f, StoreFrom(next, content[n..], f), section);
    }
  }

  // ---- Facts that do not read back -------------------------------------------------------

  lemma EmitUnread(st: Scan, line: Text, f: Fact, out: Text)
    requires Written(f) && KeyOf(f) != f.key && IsLine(line) && |line| <= LINE_MAX && Exact(line, f.section)
    ensures RecallFrom(st.inTarget, Emit(st, line, f, out), f.section, f.key)
         == RecallFrom(After(st, line, f).inTarget, out, f.section, f.key)
  {
    assert Buffer(line) == line && Copy(line) == line;
    hide BulletLine, RecallFrom, IsLine, Written, KeyOf, ValueOf, StoreHeading, RecallHeading, BulletKey, BulletValue,
        ColonAt;
    RecallBullet(st.inTarget, f, line + out, f.section, f.key);
    RecallBullet(st.inTarget, f, out, f.section, f.key);
    RecallLine(st.inTarget, line, out, f.section, f.key);
  }

  /** A fact whose bullet reads back with another key is never recalled: even an old bullet with its
      key is replaced by that one. */
  lemma {:induction false} UnreadNeverRecalled(st: Scan, content: Text, f: Fact)
    requires Written(f) && KeyOf(f) != f.key && Regular(content, f.section)
    ensures RecallFrom(st.inTarget, StoreFrom(st, content, f), f.section, f.key) == None
    decreases |content|
  {
    if content == [] {
      TailRecalled(st, st.inTarget, f, f.section, f.key);
    } else {
      var n := LineLength(content);
      var line, next := content[..n], After(st, content[..n], f);
      assert Buffer(line) == line;
      EmitUnread(st, line, f, StoreFrom(next, content[n..], f));
      hide RecallFrom, IsLine, Written, KeyOf, After, Emit;
      UnreadNeverRecalled(next, content[n..], f);
    }
  }

  /** For every fact without newlines whose bullet fits a line, in every file with exact headings: what
      is recalled under its key after a store, and that this is its value if and only if the key is
      trimmed, short and without colons and the value trimmed and not above 510 bytes. */
  lemma FactExactly(content: Text, f: Fact)
    requires Written(f) && Regular(content, f.section)
    ensures var got := RecallFrom(false, StoreFrom(START, content, f), f.section, f.key);
            && got == (if KeyOf(f) == f.key then Some(ValueOf(f)) else None)
            && (got == Some(f.value) <==> Storable(f))
  {
    StorableExactly(f);
    hide Written, KeyOf, ValueOf, RecallFrom, StoreFrom;
    if KeyOf(f) == f.key { ExactRecalled(content, f); } else { UnreadNeverRecalled(START, content, f); }
  }

  /** No line is one that the store would replace. */
  predicate NoKey(inTarget: bool, content: Text, f: Fact)
    decreases |content|
  {
    content == [] ||
    var n := LineLength(content);
    var st := Scan(inTarget, true, true);
    !Replaces(st, content[..n], f) && NoKey(After(st, content[..n], f).inTarget, content[n..], f)
  }

  lemma NoKeyLine(inTarget: bool, line: Text, rest: Text, f: Fact)
    requires IsLine(line)
    ensures var st := Scan(inTarget, true, true);
            NoKey(inTarget, line + rest, f) <==> !Replaces(st, line, f) && NoKey(After(st, line, f).inTarget, rest, f)
  {
    FirstLine(line, rest);
  }

  lemma NoKeyBullet(inTarget: bool, f: Fact, rest: Text)
    requires Written(f) && KeyOf(f) != f.key
    ensures NoKey(inTarget, BulletLine(f.key, f.value) + rest, f) <==> NoKey(inTarget, rest, f)
  {
    BulletShape(f);
    NoKeyLine(inTarget, BulletLine(f.key, f.value), rest, f);
  }

  lemma TailNoKey(st: Scan, f: Fact)
    requires Written(f) && KeyOf(f) != f.key
    ensures NoKey(st.inTarget, Tail(st, f), f)
  {
    var b, h := BulletLine(f.key, f.value), HeadingLine(f.section);
    HeadingReads(f.section);
    BlankLine();
    assert NoKey(st.inTarget, [], f) && NoKey(true, [], f);
    hide BulletLine, HeadingLine, NoKey, Written, KeyOf, StoreHeading, RecallHeading, BulletKey, IsLine;
    assert b + [] == b;
    NoKeyBullet(st.inTarget, f, []);
    NoKeyBullet(true, f, []);
    NoKeyLine(true, [NEWLINE], b, f);
    NoKeyLine(st.inTarget, h, [NEWLINE] + b, f);
    NoKeyLine(st.inTarget, [NEWLINE], h + ([NEWLINE] + b), f);
  }

  lemma EmitNoKey(st: Scan, line: Text, f: Fact, out: Text)
    requires Written(f) && KeyOf(f) != f.key && IsLine(line) && |line| <= LINE_MAX
    requires NoKey(After(st, line, f).inTarget, out, f)
    ensures NoKey(st.inTarget, Emit(st, line, f, out), f)
  {
    assert Buffer(line) == line && Copy(line) == line;
    hide BulletLine, NoKey, Written, KeyOf, StoreHeading, IsHeading, IsBullet, BulletKey, IsLine;
    NoKeyLine(st.inTarget, line, out, f);
    NoKeyBullet(st.inTarget, f, line + out);
    NoKeyBullet(st.inTarget, f, out);
  }

  lemma {:induction false} StoredNoKey(st: Scan, content: Text, f: Fact)
    requires Written(f) && KeyOf(f) != f.key && Lined(content)
    ensures NoKey(st.inTarget, StoreFrom(st, content, f), f)
    decreases |content|
  {
    if content == [] {
      TailNoKey(st, f);
    } else {
      var n := LineLength(content);
      var line, next := content[..n], After(st, content[..n], f);
      assert Buffer(line) == line;
      hide NoKey, IsLine, Written, KeyOf, After, Emit;
      StoredNoKey(next, content[n..], f);
      EmitNoKey(st, line, f, StoreFrom(next, content[n..], f));
    }
  }

  /** A store that replaces nothing makes the file longer, unless its bullet is written already. */
  lemma {:induction false} Lengthens(st: Scan, content: Text, f: Fact)
    requires Lined(content) && NoKey(st.inTarget, content, f)
    ensures |StoreFrom(st, content, f)| >= |content| + if st.written then 0 else 1
    decreases |content|
  {
    hide BulletKey, StoreHeading, IsHeading, IsBullet;
    if content != [] {
      var n := LineLength(content);
      var line := content[..n];
      assert Buffer(line) == line && Copy(line) == line && |content| == n + |content[n..]|;
      hide IsLine, BulletLine;
      Lengthens(After(st, line, f), content[n..], f);
    }
  }

  /** Storing twice is storing once if and only if the bullet reads back with its key: otherwise every
      store adds another bullet. */
  lemma AgainExactly(content: Text, f: Fact)
    requires Written(f) && Lined(content)
    ensures StoreFrom(START, StoreFrom(START, content, f), f) == StoreFrom(START, content, f) <==> KeyOf(f) == f.key
  {
    var out := StoreFrom(START, content, f);
    if KeyOf(f) == f.key {
      StoredAgain(START, content, f);
    } else {
      LinedExactly(content, f);
      StoredNoKey(START, content, f);
      hide StoreFrom, Written, KeyOf, Lined, NoKey;
      Lengthens(START, out, f);
    }
  }

  // ---- Long lines ------------------------------------------------------------------------

  lemma BulletIsLine(f: Fact)
    requires Worded(f)
    ensures IsLine(BulletLine(f.key, f.value)) && |BulletLine(f.key, f.value)| == |Bullet(f.key, f.value)| + 1
  {
    assert Free(BULLET_MARK + f.key + [COLON, SPACE] + f.value, NEWLINE);
  }

  lemma TailLined(st: Scan, f: Fact)
    requires Worded(f)
    ensures Lined(Tail(st, f)) <==> st.written || |Bullet(f.key, f.value)| < LINE_MAX
  {
    var b, h := BulletLine(f.key, f.value), HeadingLine(f.section);
    BulletIsLine(f);
    HeadingReads(f.section);
    BlankLine();
    assert Lined([]);
    hide BulletLine, HeadingLine, Lined, IsLine, Worded, StoreHeading, RecallHeading, IsHeading, IsBullet, Bullet;
    assert b + [] == b;
    LinedLine(b, []);
    LinedLine([NEWLINE], b);
    LinedLine(h, [NEWLINE] + b);
    LinedLine([NEWLINE], h + ([NEWLINE] + b));
  }

  lemma EmitLined(st: Scan, line: Text, f: Fact, out: Text)
    requires Worded(f) && IsLine(line) && |line| <= LINE_MAX
    ensures Lined(Emit(st, line, f, out)) <==>
            Lined(out) && (Closes(st, line) || Replaces(st, line, f) ==> |Bullet(f.key, f.value)| < LINE_MAX)
  {
    BulletIsLine(f);
    assert Buffer(line) == line && Copy(line) == line;
    hide BulletLine, Lined, IsLine, Worded, Closes, Replaces, Bullet;
    LinedLine(line, out);
    LinedLine(BulletLine(f.key, f.value), line + out);
    LinedLine(BulletLine(f.key, f.value), out);
  }

  lemma {:induction false} LinedFrom(st: Scan, content: Text, f: Fact)
    requires Worded(f) && Lined(content)
    ensures |Bullet(f.key, f.value)| < LINE_MAX ==> Lined(StoreFrom(st, content, f))
    ensures |Bullet(f.key, f.value)| >= LINE_MAX && !st.written ==> !Lined(StoreFrom(st, content, f))
    decreases |content|
  {
    if content == [] {
      TailLined(st, f);
    } else {
      var n := LineLength(content);
      var line, next := content[..n], After(st, content[..n], f);
      assert Buffer(line) == line && (next.written ==> st.written || Closes(st, line) || Replaces(st, line, f));
      hide Worded, After, Emit, IsLine, Closes, Replaces, Bullet;
      LinedFrom(next, content[n..], f);
      EmitLined(st, line, f, StoreFrom(next, content[n..], f));
    }
  }

  /** A store keeps the lines of a file within the line buffer if and only if its bullet is shorter
      than 2047 bytes. */
  lemma LinedExactly(content: Text, f: Fact)
    requires Worded(f) && Lined(content)
    ensures Lined(StoreFrom(START, content, f)) <==> |Bullet(f.key, f.value)| < LINE_MAX
  {
    LinedFrom(START, content, f);
  }

  lemma {:induction false} CStringJoin(a: Text, b: Text)
    requires NulFree(a)
    ensures CString(a + b) == a + CString(b)
  {
    if a == [] {
      assert a + b == b && a + CString(b) == CString(b);
    } else {
      assert (a + b)[0] == a[0] && (a + b)[1..] == a[1..] + b;
      CStringJoin(a[1..], b);
    }
  }

  predicate Texts(f: Fact) { NulFree(f.section) && NulFree(f.key) && NulFree(f.value) }

  lemma BulletNulFree(f: Fact)
    requires Texts(f)
    ensures NulFree(BulletLine(f.key, f.value)) && NulFree(HeadingLine(f.section))
  {
  }

  /** What a line of 2048 bytes becomes ends in a NUL. */
  lemma LongEmit(st: Scan, line: Text, f: Fact, out: Text)
    requires |line| > LINE_MAX && NulFree(line) && Texts(f) && !Replaces(st, Buffer(line), f)
    ensures CString(Emit(st, line, f, out)) ==
            if Closes(st, Buffer(line)) then BulletLine(f.key, f.value) + Buffer(line) else Buffer(line)
  {
    BulletNulFree(f);
    var b, x := BulletLine(f.key, f.value), Buffer(line);
    assert Copy(line) == x + [NUL];
    hide BulletLine, Closes, Replaces, Copy, Buffer;
    assert x + [NUL] + out == x + ([NUL] + out);
    assert CString([NUL] + out) == [] && x + [] == x;
    CStringJoin(x, [NUL] + out);
    CStringJoin(b, x + ([NUL] + out));
  }

  lemma EmitCut(st: Scan, line: Text, f: Fact, out: Text, out': Text)
    requires |line| <= LINE_MAX && NulFree(line) && Texts(f) && CString(out) == CString(out')
    ensures CString(Emit(st, line, f, out)) == CString(Emit(st, line, f, out'))
  {
    BulletNulFree(f);
    assert Copy(line) == line;
    hide BulletLine, Closes, Replaces;
    var b := BulletLine(f.key, f.value);
    CStringJoin(line, out);
    CStringJoin(line, out');
    CStringJoin(b, out);
    CStringJoin(b, out');
    CStringJoin(b, line + out);
    CStringJoin(b, line + out');
  }

  /** Everything behind a line of 2048 bytes is lost at the next store that keeps the line: what is
      written does not depend on it. */
  lemma {:induction false} BehindLost(st: Scan, before: Text, line: Text, rest: Text, rest': Text, f: Fact)
    requires Lined(before) && NulFree(before) && Texts(f)
    requires IsLine(line) && |line| == LINE_MAX + 1 && NulFree(line)
    requires !(IsBullet(Buffer(line)) && BulletKey(Buffer(line)) == f.key)
    ensures CString(StoreFrom(st, before + (line + rest), f)) == CString(StoreFrom(st, before + (line + rest'), f))
    decreases |before|
  {
    if before == [] {
      assert [] + (line + rest) == line + rest && [] + (line + rest') == line + rest';
      FirstLine(line, rest);
      FirstLine(line, rest');
      var next := After(st, Buffer(line), f);
      LongEmit(st, line, f, StoreFrom(next, rest, f));
      LongEmit(st, line, f, StoreFrom(next, rest', f));
    } else {
      var n := LineLength(before);
      var first, more := before[..n], before[n..];
      assert NulFree(first) && NulFree(more) && IsLine(first);
      assert before + (line + rest) == first + (more + (line + rest));
      assert before + (line + rest') == first + (more + (line + rest'));
      hide CString, Emit, After, IsBullet, BulletKey, Texts, IsLine, Buffer, StoreFrom;
      var next := After(st, first, f);
      StoreLine(st, first, more + (line + rest), f);
      StoreLine(st, first, more + (line + rest'), f);
      BehindLost(next, more, line, rest, rest', f);
      EmitCut(st, first, f, StoreFrom(next, more + (line + rest), f), StoreFrom(next, more + (line + rest'), f));
    }
  }
}
