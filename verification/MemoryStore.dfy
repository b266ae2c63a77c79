/**
 The memory file of src/memory/md_memory.c over stores and recalls: what is read back, the laws on
 files, whole sequences of stores, and the files on which a law fails.
 */
module MemoryStore {
  import opened Bytes
  import opened Options
  import opened MemoryFile
  import opened MemoryLaws

  /** `read_memory_file`: nothing for a file that is missing, empty or above the cap. */
  function Read(file: Option<Text>): Text {
    if file.None? || |file.value| == 0 || |file.value| > MAX_FILE_SIZE then [] else CString(file.value)
  }

  /** `memory_store` and `memory_recall` with the section already canonical; storing without a key
      is an error that changes nothing, and writing ends at the first NUL. */
  function Store(file: Option<Text>, f: Fact): Option<Text> {
    if f.key == [] then file else Some(CString(StoreFrom(START, Read(file), f)))
  }
  function Recall(file: Option<Text>, section: Text, key: Text): Option<Text> {
    RecallFrom(false, Read(file), section, key)
  }

  /** The file is newline-terminated and its lines fit the line buffer. */
  predicate Sound(file: Option<Text>) { Lined(Read(file)) }

  lemma EmitNulFree(st: Scan, line: Text, f: Fact, out: Text)
    requires NulFree(line) && NulFree(out) && Texts(f) && |line| <= LINE_MAX
    ensures NulFree(Emit(st, line, f, out)) && NulFree(Tail(st, f))
  {
    BulletNulFree(f);
    hide Closes, Replaces, BulletLine, HeadingLine;
    assert NulFree(line + out);
  }

  lemma {:induction false} StoredNulFree(st: Scan, content: Text, f: Fact)
    requires NulFree(content) && Lined(content) && Texts(f)
    ensures NulFree(StoreFrom(st, content, f))
    decreases |content|
  {
    if content == [] {
      EmitNulFree(st, [], f, []);
    } else {
      var n := LineLength(content);
      var next := After(st, Buffer(content[..n]), f);
      assert NulFree(content[..n]) && NulFree(content[n..]);
      hide Texts, After, Emit, NulFree, IsLine;
      StoredNulFree(next, content[n..], f);
      EmitNulFree(st, content[..n], f, StoreFrom(next, content[n..], f));
    }
  }

  /** What is read back after a store is what was written, unless it has grown above the cap: then
      the whole memory reads as empty. */
  lemma ReadBack(file: Option<Text>, f: Fact)
    requires Texts(f) && f.key != []
    ensures var out := StoreFrom(START, Read(file), f);
            && Read(Store(file, f)) == (if |Store(file, f).value| <= MAX_FILE_SIZE then CString(out) else [])
            && (Sound(file) ==> CString(out) == out)
  {
    var out := StoreFrom(START, Read(file), f);
    CStringOfNulFree(CString(out));
    if Sound(file) {
      StoredNulFree(START, Read(file), f);
      CStringOfNulFree(out);
    }
  }

  /** The laws of the store on every newline-terminated file whose lines fit the line buffer. Above
      the cap nothing is recalled. Below it every other fact is recalled as before; storing twice is
      storing once; the file stays so; and the stored value is recalled exactly when recall does
      not come first to an old bullet that the store does not reach. */
  lemma StoreLaws(file: Option<Text>, f: Fact, section: Text, key: Text)
    requires Storable(f) && Texts(f) && Sound(file) && Nameable(section)
    ensures |Store(file, f).value| > MAX_FILE_SIZE ==> Recall(Store(file, f), section, key) == None
    ensures |Store(file, f).value| <= MAX_FILE_SIZE ==>
              && ((section, key) != (f.section, f.key)
                  ==> Recall(Store(file, f), section, key) == Recall(file, section, key))
              && (Recall(Store(file, f), f.section, f.key) == Some(f.value) <==> WillRecall(Lines(Read(file)), f))
              && Store(Store(file, f), f) == Store(file, f) && Sound(Store(file, f))
  {
    var content := Read(file);
    assert RecallFrom(false, [], section, key) == None && |BulletLine(f.key, f.value)| == |Bullet(f.key, f.value)| + 1;
    assert Written(f) && Worded(f) && |Bullet(f.key, f.value)| < LINE_MAX;
    hide StoreFrom, RecallFrom, Lined, Read, Storable, Written, Worded, Texts, Bullet, BulletLine, WillRecall, Lines,
        CString, KeyOf, ValueOf, Readable;
    ReadBack(file, f);
    BulletReads(f);
    LinedExactly(content, f);
    StoredAgain(START, content, f);
    RecalledExactly(content, f);
    if (section, key) != (f.section, f.key) { OthersKept(START, false, content, f, section, key); }
  }

  /** A sequence of stores. */
  function StoreAll(file: Option<Text>, fs: seq<Fact>): (r: Option<Text>)
    ensures fs != [] && fs[|fs| - 1].key != [] ==> r.Some?
  {
    if fs == [] then file else Store(StoreAll(file, fs[..|fs| - 1]), fs[|fs| - 1])
  }

  /** The value stored last, or what the file held at first. */
  function Latest(file: Option<Text>, fs: seq<Fact>, section: Text, key: Text): Option<Text> {
    if fs == [] then Recall(file, section, key)
    else if (section, key) == (fs[|fs| - 1].section, fs[|fs| - 1].key) then Some(fs[|fs| - 1].value)
    else Latest(file, fs[..|fs| - 1], section, key)
  }

  /** The stores are of storable facts under exact headings and never push the file above the cap. */
  predicate Orderly(file: Option<Text>, fs: seq<Fact>) {
    fs == [] ||
    var f := fs[|fs| - 1];
    && Orderly(file, fs[..|fs| - 1])
    && Storable(f) && Texts(f) && Regular(Read(file), f.section) && |StoreAll(file, fs).value| <= MAX_FILE_SIZE
  }

  lemma StoreRegular(file: Option<Text>, f: Fact, section: Text, key: Text)
    requires Storable(f) && Texts(f) && Nameable(section) && Regular(Read(file), f.section)
          && Regular(Read(file), section)
    requires |Store(file, f).value| <= MAX_FILE_SIZE
    ensures Recall(Store(file, f), section, key) ==
            if (section, key) == (f.section, f.key) then Some(f.value) else Recall(file, section, key)
    ensures Regular(Read(Store(file, f)), section)
  {
    var content := Read(file);
    BulletReads(f);
    RegularLines(content, f.section);
    ReadBack(file, f);
    hide Written, KeyOf, ValueOf, Storable, Texts, StoreFrom, RecallFrom, Regular, Read, WillRecall, Lines, CString,
        Lined;
    StoredRegular(START, content, f, section);
    ExactRecalled(content, f);
    RecalledExactly(content, f);
    StoreLaws(file, f, section, key);
  }

  /** Over every sequence of stores a file with exact headings behaves as a map: each fact is
      recalled with the value stored last. */
  lemma {:induction false} MemoryIsMap(file: Option<Text>, fs: seq<Fact>, section: Text, key: Text)
    requires Orderly(file, fs) && Nameable(section) && Regular(Read(file), section)
    ensures Recall(StoreAll(file, fs), section, key) == Latest(file, fs, section, key)
    ensures Regular(Read(StoreAll(file, fs)), section)
  {
    if fs != [] {
      var n := |fs| - 1;
      var before, f := fs[..n], fs[n];
      assert Nameable(f.section);
      hide Storable, Recall, Store, Texts, Regular, Read, Nameable;
      MemoryIsMap(file, before, section, key);
      MemoryIsMap(file, before, f.section, key);
      StoreRegular(StoreAll(file, before), f, section, key);
    }
  }

  /** The first store after the file has grown above the cap erases every other fact. */
  lemma CapErases(file: Text, f: Fact, section: Text, key: Text)
    requires |file| > MAX_FILE_SIZE && Storable(f) && Texts(f) && Nameable(section)
    ensures Recall(Store(Some(file), f), section, key) == if (section, key) == (f.section, f.key) then Some(f.value)
          else None
  {
    BulletReads(f);
    assert Read(Some(file)) == [] && Regular([], f.section) && Regular([], section);
    assert |StoreFrom(START, [], f)| <= MAX_FILE_SIZE;
    ReadBack(Some(file), f);
    hide Written, KeyOf, ValueOf, Storable, Nameable, StoreFrom;
    StoreRegular(Some(file), f, section, key);
    assert Recall(Some(file), section, key) == None;
  }

  /** A key with a colon is lost, and its bullet comes up under the part before the colon. */
  lemma ColonKeyLeaks(section: Text, a: Text, b: Text, value: Text)
    requires var f := Fact(section, a + [COLON] + b, value);
             Written(f) && a != [] && Trimmed(a) && Free(a, COLON) && |a| < 512
    ensures var f := Fact(section, a + [COLON] + b, value);
            && RecallFrom(false, StoreFrom(START, [], f), section, f.key) == None
            && RecallFrom(false, StoreFrom(START, [], f), section, a) == Some(ValueOf(f))
  {
    var f := Fact(section, a + [COLON] + b, value);
    assert f.key[|a|] == COLON && f.key[..|a|] == a && forall i :: 0 <= i < |a| ==> f.key[i] == a[i];
    assert Find(f.key, COLON, 0) == |a|;
    BulletParts(f);
    TrimmedKept(a);
    assert KeyOf(f) == a;
    hide KeyOf, ValueOf, RecallFrom, Written;
    TailRecalled(START, false, f, section, f.key);
    TailRecalled(START, false, f, section, a);
    assert |a| != |f.key|;
  }

  // ---- Where recall after store fails ----------------------------------------------------

  /** A heading with a blank behind the name. */
  function LooseHeading(section: Text): Text { HEADING_MARK + (section + [SPACE, NEWLINE]) }

  lemma LooseReads(section: Text)
    requires Nameable(section) && |section| < 254
    ensures var h := LooseHeading(section);
            IsLine(h) && |h| <= LINE_MAX && IsHeading(h) && StoreHeading(h) != section && RecallHeading(h) == section
  {
    var h := LooseHeading(section);
    var t := section + [SPACE, NEWLINE];
    assert h[3..] == t && Take(t, 255) == t;
    assert t[|section| + 1] == NEWLINE && t[|section|] == SPACE;
    assert forall i :: 0 <= i < |section| ==> t[i] == section[i];
    var u := section + [SPACE];
    assert CutAt(t, NEWLINE) == u;
    assert CutAt(u, RETURN) == u && |u| != |section|;
    assert u[..|section|] == section;
    assert TrimLeft(u) == u && TrimRight(u) == TrimRight(section) == section;
  }

  /** Under such a heading recall still finds the old value: the new one goes to a second section of
      the same name at the end of the file. */
  lemma LooseHeadingShadows(f: Fact, before: Text)
    requires Storable(f) && Storable(f.(value := before)) && |f.section| < 254
    ensures var content := LooseHeading(f.section) + BulletLine(f.key, before);
            RecallFrom(false, StoreFrom(START, content, f), f.section, f.key) == Some(before)
  {
    var h, g := LooseHeading(f.section), f.(value := before);
    var b, tail := BulletLine(f.key, before), Tail(START, f);
    LooseReads(f.section);
    BulletReads(g);
    BulletShape(g);
    assert StoreFrom(START, [], f) == tail;
    hide LooseHeading, BulletLine, StoreHeading, RecallHeading, RecallFrom, StoreFrom, IsBullet, IsHeading, Tail,
        IsLine,
         Written, KeyOf, ValueOf, Storable;
    StoreLine(START, b, [], f);
    StoreLine(START, h, b, f);
    assert b + [] == b && StoreFrom(START, h + b, f) == h + (b + tail);
    RecallLine(false, h, b + tail, f.section, f.key);
    RecallBullet(true, g, tail, f.section, f.key);
  }

  /** Such a heading does no harm as long as the key is not under it. */
  lemma LooseHeadingHarmless(f: Fact)
    requires Storable(f) && |f.section| < 254
    ensures RecallFrom(false, StoreFrom(START, LooseHeading(f.section), f), f.section, f.key) == Some(f.value)
  {
    var h := LooseHeading(f.section);
    LooseReads(f.section);
    BulletReads(f);
    assert StoreFrom(START, [], f) == Tail(START, f);
    hide LooseHeading, StoreHeading, RecallHeading, RecallFrom, StoreFrom, IsBullet, Tail, IsLine, Written, KeyOf,
        ValueOf,
         Storable;
    StoreLine(START, h, [], f);
    assert h + [] == h;
    RecallLine(false, h, Tail(START, f), f.section, f.key);
    TailRecalled(START, true, f, f.section, f.key);
  }

  /** A heading with a carriage return and a letter behind the name. */
  function ReturnHeading(section: Text): Text { HEADING_MARK + (section + [RETURN, 97, NEWLINE]) }

  lemma ReturnReads(section: Text)
    requires Nameable(section) && |section| < 253
    ensures var h := ReturnHeading(section);
            IsLine(h) && |h| <= LINE_MAX && IsHeading(h) && StoreHeading(h) == section && RecallHeading(h) != section
  {
    var h := ReturnHeading(section);
    var t, u := section + [RETURN, 97, NEWLINE], section + [RETURN, 97];
    assert h[3..] == t && Take(t, 255) == t;
    assert t[|section| + 2] == NEWLINE && t[|section| + 1] == 97 && t[|section|] == RETURN;
    assert forall i :: 0 <= i < |section| ==> t[i] == section[i] == u[i];
    assert CutAt(t, NEWLINE) == u && u[|section|] == RETURN && CutAt(u, RETURN) == section;
    assert u[0] == section[0] && TrimLeft(u) == u && TrimRight(u) == u && |u| != |section|;
  }

  /** Under such a heading the stored value is not recalled at all: only the store takes it for the
      section. */
  lemma ReturnHeadingHides(f: Fact)
    requires Storable(f) && |f.section| < 253
    ensures RecallFrom(false, StoreFrom(START, ReturnHeading(f.section), f), f.section, f.key) == None
  {
    var h := ReturnHeading(f.section);
    ReturnReads(f.section);
    var st := Scan(true, false, true);
    StoreLine(START, h, [], f);
    assert h + [] == h && StoreFrom(st, [], f) == Tail(st, f);
    hide ReturnHeading, StoreHeading, RecallHeading, RecallFrom, StoreFrom, IsBullet, Tail, IsLine;
    RecallLine(false, h, Tail(st, f), f.section, f.key);
    TailRecalled(st, false, f, f.section, f.key);
  }

  /** A fact whose bullet fills its buffer. */
  predicate Overlong(f: Fact) {
    && Worded(f) && Texts(f) && Trimmed(f.key) && Free(f.key, COLON) && |f.key| < 512
        && |Bullet(f.key, f.value)| == LINE_MAX
  }

  lemma OverlongReads(f: Fact)
    requires Overlong(f)
    ensures var b := Bullet(f.key, f.value);
            !IsHeading(b) && IsBullet(b) && BulletKey(b) == f.key && NulFree(b) && Free(b, NEWLINE)
  {
    var all := BULLET_MARK + f.key + [COLON, SPACE] + f.value;
    var b, c := Bullet(f.key, f.value), 2 + |f.key|;
    assert b == all[..LINE_MAX] && b[0] == 45 && b[1] == 32;
    assert all[2..c] == f.key && all[c] == COLON;
    assert forall i :: 2 <= i < c ==> b[i] == all[i] == all[2..c][i - 2];
    assert ColonAt(b) == c && b[2..c] == f.key;
    TrimmedKept(f.key);
  }

  /** After a store of such a fact into an empty memory the next store under the section is lost:
      two calls suffice to break recall after store. */
  lemma OverlongLosesNext(f: Fact, g: Fact)
    requires Overlong(f) && Storable(g) && Texts(g) && g.section == f.section && g.key != f.key
    ensures Recall(Store(Store(None, f), g), g.section, g.key) == None
  {
    var bullet, h := Bullet(f.key, f.value), HeadingLine(f.section);
    FirstStore(f);
    SecondStore(f, g, bullet, h);
    ThirdRead(f, g, bullet, h);
  }

  lemma FirstStore(f: Fact)
    requires Overlong(f)
    ensures Read(Store(None, f)) == Tail(START, f)
  {
    BulletNulFree(f);
    EmitNulFree(START, [], f, []);
    CStringOfNulFree(Tail(START, f));
  }

  /** The second store keeps the long line, and with it writes a NUL in place of its newline. */
  lemma SecondStore(f: Fact, g: Fact, bullet: Text, h: Text)
    requires Overlong(f) && Storable(g) && Texts(g) && g.section == f.section && g.key != f.key
    requires bullet == Bullet(f.key, f.value) && h == HeadingLine(f.section)
    ensures CString(StoreFrom(START, Tail(START, f), g)) == [NEWLINE] + (h + ([NEWLINE] + bullet))
  {
    var b, st := bullet + [NEWLINE], Scan(true, false, true);
    assert Tail(START, f) == [NEWLINE] + (h + ([NEWLINE] + b));
    BulletNulFree(f);
    hide StoreFrom, HeadingLine, BulletLine, Bullet, Storable, Overlong, CString;
    LongLineStored(f, g, bullet, st);
    OthersStored(f, g, h, b, st);
    CutJoined(h, bullet, StoreFrom(st, b, g));
  }

  lemma LongLineStored(f: Fact, g: Fact, bullet: Text, st: Scan)
    requires Overlong(f) && Texts(g) && g.key != f.key && bullet == Bullet(f.key, f.value)
    ensures CString(StoreFrom(st, bullet + [NEWLINE], g)) == bullet
  {
    var b, out := bullet + [NEWLINE], StoreFrom(st, [], g);
    BulletIsLine(f);
    OverlongReads(f);
    hide Overlong, Bullet, IsHeading, IsBullet, BulletKey, CString;
    FirstLine(b, []);
    assert b + [] == b && Buffer(b) == bullet && |b| == LINE_MAX + 1;
    LongEmit(st, b, g, out);
  }

  lemma OthersStored(f: Fact, g: Fact, h: Text, b: Text, st: Scan)
    requires Overlong(f) && Storable(g) && g.section == f.section && h == HeadingLine(f.section)
          && st == Scan(true, false, true)
    ensures StoreFrom(START, [NEWLINE] + (h + ([NEWLINE] + b)), g)
          == [NEWLINE] + (h + ([NEWLINE] + StoreFrom(st, b, g)))
  {
    hide StoreFrom, HeadingLine, Overlong;
    StoreBlank(st, g, b);
    StoreNewSection(START, g, [NEWLINE] + b);
    StoreBlank(START, g, h + ([NEWLINE] + b));
  }

  lemma CutJoined(h: Text, bullet: Text, out: Text)
    requires NulFree(h) && CString(out) == bullet
    ensures CString([NEWLINE] + (h + ([NEWLINE] + out))) == [NEWLINE] + (h + ([NEWLINE] + bullet))
  {
    hide CString;
    CStringJoin([NEWLINE], h + ([NEWLINE] + out));
    CStringJoin(h, [NEWLINE] + out);
    CStringJoin([NEWLINE], out);
  }

  lemma ThirdRead(f: Fact, g: Fact, bullet: Text, h: Text)
    requires Overlong(f) && Storable(g) && Texts(g) && g.section == f.section && g.key != f.key
    requires bullet == Bullet(f.key, f.value) && h == HeadingLine(f.section)
    requires CString(StoreFrom(START, Tail(START, f), g)) == [NEWLINE] + (h + ([NEWLINE] + bullet))
    requires Read(Store(None, f)) == Tail(START, f)
    ensures Recall(Store(Store(None, f), g), g.section, g.key) == None
  {
    var two := [NEWLINE] + (h + ([NEWLINE] + bullet));
    assert |two| <= MAX_FILE_SIZE;
    assert Store(Store(None, f), g) == Some(two);
    ReadBack(Store(None, f), g);
    assert Read(Store(Store(None, f), g)) == two;
    OverlongReads(f);
    assert LineLength(bullet) == |bullet| && bullet[..|bullet|] == bullet && Buffer(bullet) == bullet
        && bullet[|bullet|..] == [];
    assert RecallFrom(true, bullet, g.section, g.key) == None;
    assert Nameable(f.section);
    hide RecallFrom, HeadingLine, Bullet, Overlong, StoreFrom, Storable, Nameable;
    RecallBlank(true, bullet, g.section, g.key);
    RecallNewSection(false, f.section, [NEWLINE] + bullet, g.section, g.key);
    RecallBlank(false, h + ([NEWLINE] + bullet), g.section, g.key);
  }
}
