/**
 The memory file of src/memory/md_memory.c: facts as bullets under second-level headings, stored
 by rewriting the file line by line and recalled by scanning it.
 */
module MemoryFile {
  import opened Bytes
  import opened Options

  const MAX_FILE_SIZE: nat := 256 * 1024
  /** What the line buffers of 2048 bytes hold besides the terminating NUL. */
  const LINE_MAX: nat := 2047
  const HEADING_MARK: Text := [35, 35, 32]
  const BULLET_MARK: Text := [45, 32]

  // ---- Text ------------------------------------------------------------------------------

  /** The first occurrence of `b` from `i` on, or the length. */
  function Find(s: Text, b: byte, i: nat): (r: nat)
    requires i <= |s|
    ensures i <= r <= |s| && (r < |s| ==> s[r] == b) && (forall j :: i <= j < r ==> s[j] != b)
    decreases |s| - i
  {
    if i == |s| || s[i] == b then i else Find(s, b, i + 1)
  }

  function CutAt(s: Text, b: byte): Text { s[..Find(s, b, 0)] }

  function Take(s: Text, n: nat): Text { if |s| > n then s[..n] else s }

  function TrimLeft(s: Text): Text { if s != [] && IsSpace(s[0]) then TrimLeft(s[1..]) else s }
  function TrimRight(s: Text): Text { if s != [] && IsSpace(s[|s| - 1]) then TrimRight(s[..|s| - 1]) else s }

  /** `str_trim` */
  function Trim(s: Text): Text { TrimRight(TrimLeft(s)) }

  predicate Trimmed(s: Text) { s != [] ==> !IsSpace(s[0]) && !IsSpace(s[|s| - 1]) }

  /** Content up to and including the next newline. */
  function LineLength(s: Text): (n: nat)
    requires s != []
    ensures 0 < n <= |s|
  {
    if Find(s, NEWLINE, 0) < |s| then Find(s, NEWLINE, 0) + 1 else |s|
  }

  predicate IsLine(s: Text) { s != [] && s[|s| - 1] == NEWLINE && forall i :: 0 <= i < |s| - 1 ==> s[i] != NEWLINE }

  lemma FirstLine(line: Text, rest: Text)
    requires IsLine(line)
    ensures LineLength(line + rest) == |line| && (line + rest)[..|line|] == line && (line + rest)[|line|..] == rest
  {
    var s := line + rest;
    assert s[|line| - 1] == NEWLINE && forall i :: 0 <= i < |line| - 1 ==> s[i] == line[i];
  }

  lemma TrimmedKept(s: Text)
    requires Trimmed(s)
    ensures Trim(s) == s
  {
  }

  lemma TrimValue(v: Text)
    requires Trimmed(v)
    ensures Trim([SPACE] + v + [NEWLINE]) == v
  {
    var s := [SPACE] + v + [NEWLINE];
    var t := v + [NEWLINE];
    assert s[1..] == t && TrimLeft(s) == TrimLeft(t);
    assert t[..|v|] == v;
    if v == [] {
      assert t == [NEWLINE] && TrimLeft(t) == TrimLeft(t[1..]) == [];
    } else {
      assert TrimLeft(t) == t && TrimRight(t) == TrimRight(v) == v;
    }
  }

  // ---- Reading one line ------------------------------------------------------------------

  predicate IsHeading(line: Text) { HEADING_MARK <= line }
  predicate IsBullet(line: Text) { BULLET_MARK <= line }

  /** The heading as `memory_store` reads it, and as `memory_recall` does. */
  function StoreHeading(line: Text): Text
    requires IsHeading(line)
  {
    CutAt(CutAt(Take(line[3..], 255), NEWLINE), RETURN)
  }
  function RecallHeading(line: Text): Text
    requires IsHeading(line)
  {
    Trim(CutAt(Take(line[3..], 255), NEWLINE))
  }

  function ColonAt(line: Text): nat
    requires IsBullet(line)
  {
    Find(line, COLON, 2)
  }

  function BulletKey(line: Text): Text
    requires IsBullet(line)
  {
    var colon := ColonAt(line);
    Trim(if colon < |line| && colon - 2 < 512 then line[2..colon] else [])
  }

  function BulletValue(line: Text): Text
    requires IsBullet(line) && ColonAt(line) < |line|
  {
    Trim(Take(line[ColonAt(line) + 1..], 511))
  }

  /** The bullet that is written, cut to its buffer. */
  function Bullet(key: Text, value: Text): Text { Take(BULLET_MARK + key + [COLON, SPACE] + value, LINE_MAX) }
  function BulletLine(key: Text, value: Text): Text { Bullet(key, value) + [NEWLINE] }
  function HeadingLine(section: Text): Text { HEADING_MARK + section + [NEWLINE] }

  // ---- Storing and recalling -------------------------------------------------------------

  /** What is being stored, and how far `memory_store` has got: whether the lines at hand are under
      the section, whether the bullet is written, whether the section was seen. */
  datatype Fact = Fact(section: Text, key: Text, value: Text)
  datatype Scan = Scan(inTarget: bool, written: bool, found: bool)

  const START: Scan := Scan(false, false, false)

  /** A heading that ends the section without the key. */
  predicate Closes(st: Scan, line: Text) { IsHeading(line) && st.inTarget && !st.written }

  /** A bullet of the section with the key. */
  predicate Replaces(st: Scan, line: Text, f: Fact) {
    !IsHeading(line) && st.inTarget && IsBullet(line) && BulletKey(line) == f.key
  }

  function After(st: Scan, line: Text, f: Fact): Scan {
    if IsHeading(line) then
      var target := StoreHeading(line) == f.section;
      Scan(target, st.written || st.inTarget, st.found || target)
    else if Replaces(st, line, f) then st.(written := true)
    else st
  }

  /** What is added at the end of the file. */
  function Tail(st: Scan, f: Fact): Text {
    if st.written then []
    else if st.found then BulletLine(f.key, f.value)
    else [NEWLINE] + (HeadingLine(f.section) + ([NEWLINE] + BulletLine(f.key, f.value)))
  }

  function StoreFrom(st: Scan, content: Text, f: Fact): Text
    decreases |content|
  {
    if content == [] then Tail(st, f)
    else
      var n := LineLength(content);
      Emit(st, content[..n], f, StoreFrom(After(st, Buffer(content[..n]), f), content[n..], f))
  }

  /** What a line buffer holds of a line. */
  function Buffer(line: Text): Text { Take(line, LINE_MAX) }

  /** What is copied of a line that is kept: as many bytes as the line has, from the buffer; of a
      line of 2048 bytes the last one is the terminating NUL. */
  function Copy(line: Text): Text { if |line| <= LINE_MAX then line else line[..LINE_MAX] + [NUL] }

  /** What one line becomes, in front of what the rest becomes. */
  function Emit(st: Scan, line: Text, f: Fact, rest: Text): Text {
    if Closes(st, Buffer(line)) then BulletLine(f.key, f.value) + (Copy(line) + rest)
    else if Replaces(st, Buffer(line), f) then BulletLine(f.key, f.value) + rest
    else Copy(line) + rest
  }

  predicate Hit(inTarget: bool, line: Text, key: Text) {
    !IsHeading(line) && inTarget && IsBullet(line) && ColonAt(line) < |line| && BulletKey(line) == key
  }
  predicate Target(inTarget: bool, line: Text, section: Text) {
    if IsHeading(line) then RecallHeading(line) == section else inTarget
  }

  function RecallFrom(inTarget: bool, content: Text, section: Text, key: Text): Option<Text>
    decreases |content|
  {
    if content == [] then None
    else
      var n := LineLength(content);
      var line := Buffer(content[..n]);
      if Hit(inTarget, line, key) then Some(BulletValue(line))
      else RecallFrom(Target(inTarget, line, section), content[n..], section, key)
  }

  lemma RecallLine(inTarget: bool, line: Text, rest: Text, section: Text, key: Text)
    requires IsLine(line) && |line| <= LINE_MAX
    ensures RecallFrom(inTarget, line + rest, section, key) ==
            if Hit(inTarget, line, key) then Some(BulletValue(line))
            else RecallFrom(Target(inTarget, line, section), rest, section, key)
  {
    FirstLine(line, rest);
  }

  lemma StoreLine(st: Scan, line: Text, rest: Text, f: Fact)
    requires IsLine(line) && |line| <= LINE_MAX
    ensures StoreFrom(st, line + rest, f) == Emit(st, line, f, StoreFrom(After(st, line, f), rest, f))
  {
    FirstLine(line, rest);
  }

  // ---- The loops -------------------------------------------------------------------------

  /** No line is longer than the line buffer; copying it back would read past the buffer. */
  predicate Buffered(content: Text)
    decreases |content|
  {
    content == [] || (LineLength(content) <= LINE_MAX + 1 && Buffered(content[LineLength(content)..]))
  }

  /** The loop of `memory_store` with its three flags, and what follows it. */
  method StoreText(content: Text, f: Fact) returns (out: Text)
    requires Buffered(content)
    ensures out == StoreFrom(START, content, f)
  {
    hide BulletKey, StoreHeading, IsHeading, IsBullet;
    var bullet := Bullet(f.key, f.value);
    var inTarget, written, found := false, false, false;
    out := [];
    var rest := content;
    while rest != []
      invariant Buffered(rest)
      invariant out + StoreFrom(Scan(inTarget, written, found), rest, f) == StoreFrom(START, content, f)
      decreases |rest|
    {
      ghost var st, was := Scan(inTarget, written, found), out;
      var n := LineLength(rest);
      // The buffer with its terminating NUL.
      var line := Buffer(rest[..n]);
      var linebuf := line + [NUL];
      ghost var later := StoreFrom(After(st, line, f), rest[n..], f);
      assert StoreFrom(st, rest, f) == Emit(st, rest[..n], f, later);
      assert linebuf[..n] == Copy(rest[..n]);
      HeadingOrBullet(line);
      if IsHeading(line) {
        if inTarget && !written {
          out := out + (bullet + [NEWLINE]);
          written := true;
        }
        inTarget := StoreHeading(line) == f.section;
        if inTarget { found := true; }
      }
      if inTarget && IsBullet(line) && BulletKey(line) == f.key {
        out := out + (bullet + [NEWLINE]);
        written := true;
      } else {
        out := out + linebuf[..n];
      }
      EmitJoins(was, st, rest[..n], f, later, out);
      rest := rest[n..];
    }
    ghost var st := Scan(inTarget, written, found);
    if !written {
      if !found {
        out := out + ([NEWLINE] + (HeadingLine(f.section) + ([NEWLINE] + (bullet + [NEWLINE]))));
      } else {
        out := out + (bullet + [NEWLINE]);
      }
    }
  }

  lemma HeadingOrBullet(line: Text)
    ensures !(IsHeading(line) && IsBullet(line))
  {
    if IsHeading(line) { assert line[0] == 35; }
  }

  lemma EmitJoins(was: Text, st: Scan, line: Text, f: Fact, later: Text, out: Text)
    requires out == (if Closes(st, Buffer(line)) then was + BulletLine(f.key, f.value) + Copy(line)
                     else if Replaces(st, Buffer(line), f) then was + BulletLine(f.key, f.value) else was + Copy(line))
    ensures out + later == was + Emit(st, line, f, later)
  {
    hide BulletLine, Closes, Replaces, Copy;
    var b, copy := BulletLine(f.key, f.value), Copy(line);
    if Closes(st, Buffer(line)) {
      assert was + b + copy + later == was + (b + (copy + later));
    } else if Replaces(st, Buffer(line), f) {
      assert was + b + later == was + (b + later);
    } else {
      assert was + copy + later == was + (copy + later);
    }
  }

  /** The loop of `memory_recall`. */
  method RecallText(content: Text, section: Text, key: Text) returns (value: Option<Text>)
    ensures value == RecallFrom(false, content, section, key)
  {
    var inTarget := false;
    var rest := content;
    while rest != []
      invariant RecallFrom(inTarget, rest, section, key) == RecallFrom(false, content, section, key)
      decreases |rest|
    {
      var n := LineLength(rest);
      var line := Buffer(rest[..n]);
      if IsHeading(line) {
        inTarget := RecallHeading(line) == section;
      } else if inTarget && IsBullet(line) {
        var colon := ColonAt(line);
        if colon < |line| && BulletKey(line) == key { return Some(BulletValue(line)); }
      }
      rest := rest[n..];
    }
    value := None;
  }
}
