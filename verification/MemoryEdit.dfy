/**
 What `memory_store` of src/memory/md_memory.c makes of every line of the file, and which line
 `memory_recall` reads, said of the lines and the headings above them without the flags of the loops.
 */
module MemoryEdit {
  import opened Bytes
  import opened Options
  import opened MemoryFile
  import opened MemoryLaws

  /** The nearest heading above line `i` is that of the section, as the store reads it. */
  predicate Under(ls: seq<Text>, i: nat, section: Text)
    requires i <= |ls|
  {
    i > 0 && if IsHeading(ls[i - 1]) then StoreHeading(ls[i - 1]) == section else Under(ls, i - 1, section)
  }

  /** Line `i` is a bullet with the key under the section. */
  predicate KeyLine(ls: seq<Text>, i: nat, f: Fact)
    requires i < |ls|
  {
    Under(ls, i, f.section) && IsBullet(ls[i]) && BulletKey(ls[i]) == f.key
  }

  /** The section ends at line `i`, which is a heading. */
  predicate Ends(ls: seq<Text>, i: nat, f: Fact)
    requires i < |ls|
  {
    Under(ls, i, f.section) && IsHeading(ls[i])
  }

  /** Neither the key under the section nor an end of the section comes before line `i`. */
  ghost predicate Open(ls: seq<Text>, i: nat, f: Fact)
    requires i <= |ls|
  {
    forall j :: 0 <= j < i ==> !KeyLine(ls, j, f) && !Ends(ls, j, f)
  }

  /** What line `i` becomes: the bullet in place of the key's line; the bullet in front of the heading that
      first ends the section, if the key did not come before; and itself otherwise. */
  ghost function Piece(ls: seq<Text>, i: nat, f: Fact): Text
    requires i < |ls|
  {
    if KeyLine(ls, i, f) then BulletLine(f.key, f.value)
    else if Ends(ls, i, f) && Open(ls, i, f) then BulletLine(f.key, f.value) + ls[i]
    else ls[i]
  }

  /** What comes at the end: nothing if the bullet stands somewhere; else the bullet if the file ends under
      the section; else the section with the bullet. */
  ghost function Ending(ls: seq<Text>, f: Fact): Text {
    if !Open(ls, |ls|, f) then []
    else if Under(ls, |ls|, f.section) then BulletLine(f.key, f.value)
    else [NEWLINE] + (HeadingLine(f.section) + ([NEWLINE] + BulletLine(f.key, f.value)))
  }

  ghost function Edited(ls: seq<Text>, i: nat, f: Fact): Text
    requires i <= |ls|
    decreases |ls| - i
  {
    if i == |ls| then Ending(ls, f) else Piece(ls, i, f) + Edited(ls, i + 1, f)
  }

  /** The flags of the loop before line `i`. */
  lemma {:induction false} FlagsAt(ls: seq<Text>, i: nat, f: Fact)
    requires i <= |ls|
    ensures var st := ScanAt(ls, i, f);
            && (st.inTarget <==> Under(ls, i, f.section)) && (st.written <==> !Open(ls, i, f)) && Coherent(st)
  {
    if i > 0 {
      FlagsAt(ls, i - 1, f);
      var line := ls[i - 1];
      HeadingOrBullet(line);
      AfterCoherent(ScanAt(ls, i - 1, f), line, f);
      assert Open(ls, i, f) <==> Open(ls, i - 1, f) && !KeyLine(ls, i - 1, f) && !Ends(ls, i - 1, f);
      hide Open, IsHeading, IsBullet, StoreHeading, BulletKey, Coherent;
    }
  }

  lemma PieceEmitted(ls: seq<Text>, i: nat, f: Fact, rest: Text)
    requires i < |ls| && IsLine(ls[i]) && |ls[i]| <= LINE_MAX
    ensures Emit(ScanAt(ls, i, f), ls[i], f, rest) == Piece(ls, i, f) + rest
  {
    FlagsAt(ls, i, f);
    HeadingOrBullet(ls[i]);
    hide Open, IsHeading, IsBullet, StoreHeading, BulletKey, Coherent, ScanAt, Under, BulletLine;
    var b := BulletLine(f.key, f.value);
    assert b + (ls[i] + rest) == b + ls[i] + rest;
  }

  lemma {:induction false} StoredFrom(ls: seq<Text>, i: nat, f: Fact)
    requires ShortLines(ls) && i <= |ls|
    ensures StoreFrom(ScanAt(ls, i, f), Join(ls[i..]), f) == Edited(ls, i, f)
    decreases |ls| - i
  {
    if i == |ls| {
      FlagsAt(ls, i, f);
      assert ls[i..] == [];
      hide Open, Under, ScanAt;
    } else {
      var st, line, rest := ScanAt(ls, i, f), ls[i], Join(ls[i + 1..]);
      assert ls[i..][0] == line && ls[i..][1..] == ls[i + 1..];
      assert Join(ls[i..]) == line + rest && ScanAt(ls, i + 1, f) == After(st, line, f);
      hide StoreFrom, Emit, After, ScanAt, Join, Piece;
      StoreLine(st, line, rest, f);
      StoredFrom(ls, i + 1, f);
      PieceEmitted(ls, i, f, Edited(ls, i + 1, f));
    }
  }

  /** For every newline-terminated file with short lines, a store leaves every line as it is and in its
      place, but for those with the key under the section, which become the bullet; and the bullet is
      added at the first end of the section, or at the end of the file, if the key was not there. */
  lemma StoredExactly(content: Text, f: Fact)
    requires Lined(content)
    ensures ShortLines(Lines(content)) && Join(Lines(content)) == content
    ensures StoreFrom(START, content, f) == Edited(Lines(content), 0, f)
  {
    LinesJoined(content);
    var ls := Lines(content);
    assert ls[0..] == ls && ScanAt(ls, 0, f) == START;
    hide Lines, Join, StoreFrom, Edited, ScanAt;
    StoredFrom(ls, 0, f);
  }

  // ---- Recall ----------------------------------------------------------------------------

  /** The nearest heading above line `i` is that of the section, as recall reads it. */
  predicate UnderRecalled(ls: seq<Text>, i: nat, section: Text)
    requires i <= |ls|
  {
    i > 0 && if IsHeading(ls[i - 1]) then RecallHeading(ls[i - 1]) == section else UnderRecalled(ls, i - 1, section)
  }

  /** Line `i` is a bullet with a colon and the key under the section. */
  predicate Found(ls: seq<Text>, i: nat, section: Text, key: Text)
    requires i < |ls|
  {
    UnderRecalled(ls, i, section) && IsBullet(ls[i]) && ColonAt(ls[i]) < |ls[i]| && BulletKey(ls[i]) == key
  }

  lemma {:induction false} RecallFlagAt(ls: seq<Text>, i: nat, section: Text)
    requires i <= |ls|
    ensures RecallAt(ls, i, section) <==> UnderRecalled(ls, i, section)
  {
    if i > 0 { RecallFlagAt(ls, i - 1, section); }
  }

  lemma {:induction false} RecalledFrom(ls: seq<Text>, i: nat, section: Text, key: Text) returns (k: nat)
    requires ShortLines(ls) && i <= |ls|
    ensures i <= k <= |ls| && forall j :: i <= j < k ==> !Found(ls, j, section, key)
    ensures k < |ls| ==> Found(ls, k, section, key)
    ensures RecallFrom(RecallAt(ls, i, section), Join(ls[i..]), section, key)
         == if k < |ls| then Some(BulletValue(ls[k])) else None
    decreases |ls| - i
  {
    if i == |ls| {
      assert ls[i..] == [];
      k := i;
    } else {
      var line, rest := ls[i], Join(ls[i + 1..]);
      assert ls[i..][0] == line && ls[i..][1..] == ls[i + 1..];
      assert Join(ls[i..]) == line + rest;
      RecallLine(RecallAt(ls, i, section), line, rest, section, key);
      RecallFlagAt(ls, i, section);
      HeadingOrBullet(line);
      assert Hit(RecallAt(ls, i, section), line, key) <==> Found(ls, i, section, key);
      assert RecallAt(ls, i + 1, section) == Target(RecallAt(ls, i, section), line, section);
      hide RecallFrom, RecallAt, Found, Hit, Target, BulletValue;
      if Found(ls, i, section, key) { k := i; } else { k := RecalledFrom(ls, i + 1, section, key); }
    }
  }

  /** Recall gives the value of the first bullet with the key under the section, and nothing if there is
      none. */
  lemma RecalledFirst(content: Text, section: Text, key: Text) returns (k: nat)
    requires Lined(content)
    ensures var ls := Lines(content);
            && k <= |ls| && (forall j :: 0 <= j < k ==> !Found(ls, j, section, key))
            && (k < |ls| ==>
                  Found(ls, k, section, key) && RecallFrom(false, content, section, key) == Some(BulletValue(ls[k])))
            && (k == |ls| ==> RecallFrom(false, content, section, key) == None)
  {
    LinesJoined(content);
    var ls := Lines(content);
    assert ls[0..] == ls && !RecallAt(ls, 0, section);
    hide Lines, Join, RecallFrom, RecallAt, Found;
    k := RecalledFrom(ls, 0, section, key);
  }
}
