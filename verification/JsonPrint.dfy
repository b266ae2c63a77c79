/**
 The printer of src/core/cJSON.c: it writes into a buffer that `ensure` grows, and `offset`
 trails the end of the text until `update_offset` catches up with the terminating NUL.
 */
module JsonPrint {
  import opened Bytes
  import opened Options
  import opened JsonValue
  import opened JsonText

  lemma {:induction false} PrintBytesSplit(s: Text, i: nat)
    requires i <= |s|
    ensures PrintBytes(s) == PrintBytes(s[..i]) + PrintBytes(s[i..])
    decreases i
  {
    hide PrintByte;
    if i == 0 {
      assert s[..0] == [] && s[0..] == s;
    } else {
      PrintBytesSplit(s[1..], i - 1);
      assert s[1..][..i - 1] == s[..i][1..] && s[1..][i - 1..] == s[i..];
      var first, middle, rest := PrintByte(s[0]), PrintBytes(s[..i][1..]), PrintBytes(s[i..]);
      assert first + (middle + rest) == first + middle + rest;
    }
  }

  lemma PrintBytesStep(s: Text, i: nat)
    requires i < |s|
    ensures PrintBytes(s[..i + 1]) == PrintBytes(s[..i]) + PrintByte(s[i])
    ensures |PrintBytes(s[..i + 1])| <= |PrintBytes(s)|
  {
    hide PrintByte;
    PrintBytesSplit(s, i + 1);
    PrintBytesSplit(s[..i + 1], i);
    assert s[..i + 1][..i] == s[..i] && s[..i + 1][i..] == [s[i]];
    assert PrintBytes([s[i]]) == PrintByte(s[i]) + PrintBytes([]);
  }

  /** Extra bytes that the counting pass adds for one input byte. */
  function EscapeCost(b: byte): (n: nat)
    ensures |PrintByte(b)| == 1 + n
  {
    if ShortLetter(b).Some? then 1 else if b < 32 then 5 else 0
  }

  lemma Regroup(a: Text, b: Text, c: Text, d: Text, e: Text)
    ensures a + b + c + d + e == a + (b + (c + (d + e)))
  {
  }

  lemma RegroupThree(a: Text, b: Text, c: Text)
    ensures a + b + c == a + (b + c)
  {
  }

  /** The opening of an object, and its whole text. */
  function OpenText(format: bool): Text { [OPEN_BRACE] + IfFormat(format, [NEWLINE]) }
  function ObjectText(members: seq<Member>, format: bool, d: nat): Text
    requires MembersPrintable(members)
  {
    OpenText(format) + PrintMembers(members, format, d + 1)
  }

  class PrintBuffer {
    var buffer: array<byte>
    var offset: nat
    var depth: nat
    const format: bool
    const noalloc: bool
    /** The largest block that the allocator grants. */
    const memory: nat

    constructor (size: nat, format: bool, noalloc: bool, memory: nat)
      requires size > 0
      ensures fresh(buffer) && buffer.Length == size && offset == 0 && depth == 0
      ensures this.format == format && this.noalloc == noalloc && this.memory == memory
    {
      buffer := new byte[size];
      offset, depth := 0, 0;
      this.format, this.noalloc, this.memory := format, noalloc, memory;
    }

    ghost predicate Valid()
      reads this
    {
      offset < buffer.Length
    }

    /** The text written so far. */
    ghost function Written(): Text
      requires Valid()
      reads this, buffer
    {
      buffer[..offset]
    }

    /** `t` stands at `at` and is followed by a NUL. */
    ghost predicate Holds(at: nat, t: Text)
      reads this, buffer
    {
      at + |t| < buffer.Length && buffer[at..at + |t|] == t && buffer[at + |t|] == NUL
    }

    /** Text that ends at index `end` can be printed for certain. */
    ghost predicate Room(end: int) {
      !noalloc && memory >= INT_MAX && end + 2 <= INT_MAX
    }

    method Ensure(needed: nat) returns (ok: bool)
      requires Valid()
      modifies this`buffer
      ensures Valid() && (buffer == old(buffer) || fresh(buffer))
      ensures Written() == old(Written())
      ensures ok ==> offset + needed < buffer.Length
      ensures ok <==> needed <= INT_MAX
                      && (offset + needed < old(buffer.Length)
                          || (!noalloc && offset + needed < INT_MAX && GrownTo(offset + needed + 1) <= memory))
    {
      if needed > INT_MAX { return false; }
      var total := needed + offset + 1;
      if total <= buffer.Length { return true; }
      if noalloc { return false; }
      if total > INT_MAX { return false; }
      var newsize := GrownTo(total);
      if newsize > memory { return false; }
      var newbuffer := new byte[newsize];
      forall i | 0 <= i <= offset { newbuffer[i] := buffer[i]; }
      buffer := newbuffer;
      return true;
    }

    /** The size that a buffer grows to. */
    static function GrownTo(total: nat): (size: nat)
      requires total <= INT_MAX
      ensures total <= size <= INT_MAX
    {
      if total > INT_MAX / 2 then INT_MAX else total * 2
    }

    /** Reserves `needed` bytes, copies `t` to the end of the text, terminates it when asked to,
        and moves the offset past it. */
    method Append(t: Text, terminate: bool, needed: nat) returns (ok: bool)
      requires Valid() && |t| <= needed && (terminate ==> |t| < needed + 1)
      modifies this`buffer, this`offset, buffer
      ensures Valid() && (buffer == old(buffer) || fresh(buffer))
      ensures ok ==> offset == old(offset) + |t| && Written() == old(Written()) + t
      ensures ok && terminate ==> buffer[offset] == NUL
      ensures Room(old(offset) + needed - 1) ==> ok
    {
      ghost var before := Written();
      ok := Ensure(needed);
      if !ok { return; }
      PutAt(offset, t);
      if terminate { buffer[offset + |t|] := NUL; }
      assert buffer[..offset] == before && buffer[offset..offset + |t|] == t;
      assert buffer[..offset + |t|] == buffer[..offset] + buffer[offset..offset + |t|];
      offset := offset + |t|;
    }

    /** `update_offset` */
    method UpdateOffset(ghost at: nat, ghost t: Text)
      requires Valid() && Holds(at, t) && NulFree(t) && at <= offset <= at + |t|
      modifies this`offset
      ensures offset == at + |t|
    {
      assert forall k :: at <= k < at + |t| ==> buffer[k] == t[k - at] by {
        assert forall k :: at <= k < at + |t| ==> buffer[k] == buffer[at..at + |t|][k - at];
      }
      while buffer[offset] != NUL
        invariant at <= offset <= at + |t|
        decreases at + |t| - offset
      {
        offset := offset + 1;
      }
    }

    method PrintNumber(x: real) returns (ok: bool)
      requires Valid() && IsInt32(x)
      modifies this`buffer, this`offset, buffer
      ensures Valid() && (buffer == old(buffer) || fresh(buffer))
      ensures ok ==> Written() == old(Written()) + IntText(x.Floor) && buffer[offset] == NUL
      ensures Room(old(offset) + |IntText(x.Floor)|) ==> ok
    {
      var digits := IntText(x.Floor);
      ok := Append(digits, true, |digits| + 1);
    }

    /** `print_string_ptr`: a counting pass, then a copying pass into exactly that room. The
        offset stays where it was. */
    method PrintStringPtr(input: Text) returns (ok: bool)
      requires Valid() && NulFree(input)
      modifies this`buffer, buffer
      ensures Valid() && (buffer == old(buffer) || fresh(buffer))
      ensures ok ==> Written() == old(Written()) && Holds(offset, PrintString(input))
      ensures Room(offset + |PrintString(input)|) ==> ok
    {
      var escapes := CountEscapes(input);
      ok := Ensure(|input| + escapes + 3);
      if ok { FillString(input, |input| + escapes); }
    }

    /** The quotes, the escaped bytes between them, and the NUL, at the offset. */
    method FillString(input: Text, length: nat)
      requires Valid() && length == |PrintBytes(input)| && offset + length + 2 < buffer.Length
      modifies buffer
      ensures Written() == old(Written()) && Holds(offset, PrintString(input))
    {
      hide PrintBytes;
      var start := offset + 1;
      buffer[offset] := QUOTE;
      CopyEscaped(input, start);
      assert buffer[offset] == buffer[..start][offset] == QUOTE && buffer[..offset] == buffer[..start][..offset];
      buffer[start + length] := QUOTE;
      buffer[start + length + 1] := NUL;
      assert buffer[start..start + length] == PrintBytes(input);
      assert buffer[offset..start + length + 1] == [QUOTE] + buffer[start..start + length] + [QUOTE];
    }

    static method CountEscapes(input: Text) returns (escapes: nat)
      ensures |input| + escapes == |PrintBytes(input)|
    {
      escapes := 0;
      var i := 0;
      while i < |input|
        invariant 0 <= i <= |input|
        invariant i + escapes == |PrintBytes(input[..i])|
      {
        escapes := escapes + EscapeCost(input[i]);
        PrintBytesStep(input, i);
        i := i + 1;
      }
      assert input[..i] == input;
    }

    method CopyEscaped(input: Text, start: nat)
      requires start + |PrintBytes(input)| <= buffer.Length
      modifies buffer
      ensures buffer[..start] == old(buffer[..start])
      ensures buffer[start..start + |PrintBytes(input)|] == PrintBytes(input)
    {
      hide PrintByte, PrintBytes;
      var i, at := 0, start;
      assert PrintBytes(input[..0]) == [] by { PrintBytesSplit(input, 0); }
      while i < |input|
        invariant 0 <= i <= |input|
        invariant at == start + |PrintBytes(input[..i])| <= start + |PrintBytes(input)|
        invariant buffer[..start] == old(buffer[..start])
        invariant buffer[start..at] == PrintBytes(input[..i])
      {
        PrintBytesStep(input, i);
        ghost var done := buffer[..at];
        var unit := PrintByte(input[i]);
        PutAt(at, unit);
        assert buffer[..at][start..] == done[start..] && buffer[start..at + |unit|] == buffer[start..at] + unit;
        assert buffer[..at][..start] == done[..start];
        i, at := i + 1, at + |unit|;
      }
      assert input[..i] == input;
    }

    /** The bytes of one escape, or of one plain byte. */
    method PutAt(at: nat, t: Text)
      requires at + |t| <= buffer.Length
      modifies buffer
      ensures buffer[..at] == old(buffer[..at]) && buffer[at..at + |t|] == t
    {
      var i := 0;
      while i < |t|
        invariant 0 <= i <= |t|
        invariant buffer[..at] == old(buffer[..at]) && buffer[at..at + i] == t[..i]
      {
        buffer[at + i] := t[i];
        i := i + 1;
      }
    }

    /** `before` was written when rendering began and `t` has been rendered after it; the offset
        may lag behind the end of `t`. */
    ghost predicate Trails(before: Text, t: Text)
      reads this, buffer
    {
      |before| <= offset <= |before| + |t| && Holds(|before|, t) && buffer[..|before|] == before
    }

    /** Writes `t` and a NUL at the offset without moving it. */
    method Close(t: Text, needed: nat) returns (ok: bool)
      requires Valid() && |t| < needed + 1
      modifies this`buffer, buffer
      ensures Valid() && (buffer == old(buffer) || fresh(buffer))
      ensures ok ==> Written() == old(Written()) && Holds(offset, t)
      ensures Room(offset + needed - 1) ==> ok
    {
      ok := Ensure(needed);
      if !ok { return; }
      PutAt(offset, t);
      buffer[offset + |t|] := NUL;
    }

    /** `print_value` */
    method RenderValue(v: Value) returns (ok: bool)
      requires Valid() && Printable(v)
      modifies this, buffer
      ensures Valid() && (buffer == old(buffer) || fresh(buffer))
      ensures ok ==> depth == old(depth) && Trails(old(Written()), PrintValue(v, format, old(depth)))
      ensures Room(old(offset) + |PrintValue(v, format, old(depth))|) ==> ok
      decreases v, 1
    {
      hide PrintItems, PrintMembers, PrintBytes, IntText, NulFree, ItemsPrintable, MembersPrintable, IfFormat;
      match v
      case Null => ok := Close(NULL_WORD, 5);
      case False => ok := Close(FALSE_WORD, 6);
      case True => ok := Close(TRUE_WORD, 5);
      case Number(x) => ok := PrintNumber(x);
      case Str(s) => ok := PrintStringPtr(s);
      case Array(items) => ok := RenderArray(items);
      case Object(members) => ok := RenderObject(members);
    }

    /** A rendered value, with the offset brought up to its end. */
    method EmitValue(v: Value) returns (ok: bool)
      requires Valid() && Printable(v)
      modifies this, buffer
      ensures Valid() && (buffer == old(buffer) || fresh(buffer))
      ensures ok ==> depth == old(depth) && Written() == old(Written()) + PrintValue(v, format, old(depth))
      ensures Room(old(offset) + |PrintValue(v, format, old(depth))|) ==> ok
      decreases v, 2
    {
      hide Printable, PrintValue;
      ghost var before, t := Written(), PrintValue(v, format, depth);
      ok := RenderValue(v);
      if !ok { return; }
      PrintedNulFree(v, format, depth);
      UpdateOffset(|before|, t);
      assert buffer[..offset] == buffer[..|before|] + buffer[|before|..|before| + |t|];
    }

    method EmitString(key: Text) returns (ok: bool)
      requires Valid() && NulFree(key)
      modifies this`buffer, this`offset, buffer
      ensures Valid() && (buffer == old(buffer) || fresh(buffer))
      ensures ok ==> Written() == old(Written()) + PrintString(key)
      ensures Room(old(offset) + |PrintString(key)|) ==> ok
    {
      hide PrintBytes;
      ghost var before, t := Written(), PrintString(key);
      ok := PrintStringPtr(key);
      if !ok { return; }
      PrintedBytes(key);
      UpdateOffset(|before|, t);
      assert buffer[..offset] == buffer[..|before|] + buffer[|before|..|before| + |t|];
    }

    /** `print_array` */
    method RenderArray(items: seq<Value>) returns (ok: bool)
      requires Valid() && ItemsPrintable(items)
      modifies this, buffer
      ensures Valid() && (buffer == old(buffer) || fresh(buffer))
      ensures ok ==> depth == old(depth)
                     && Trails(old(Written()), [OPEN_BRACKET] + PrintItems(items, format, old(depth) + 1))
      ensures Room(old(offset) + 1 + |PrintItems(items, format, old(depth) + 1)|) ==> ok
      decreases items, 2
    {
      hide PrintItems, ItemsPrintable, Holds, Trails;
      ghost var before := Written();
      ghost var text := [OPEN_BRACKET] + PrintItems(items, format, depth + 1);
      ok := Append([OPEN_BRACKET], false, 1);
      if !ok { return; }
      depth := depth + 1;
      ok := EmitItems(items);
      if !ok { return; }
      ghost var done := Written();
      ok := Close([CLOSE_BRACKET], 2);
      if !ok { return; }
      depth := depth - 1;
      RegroupThree(before, [OPEN_BRACKET], PrintItems(items, format, old(depth) + 1));
      Closed(before, text, done, [CLOSE_BRACKET]);
    }

    /** The loop of `print_array`: everything between the brackets. */
    method EmitItems(items: seq<Value>) returns (ok: bool)
      requires Valid() && ItemsPrintable(items)
      modifies this, buffer
      ensures Valid() && (buffer == old(buffer) || fresh(buffer))
      ensures ok ==> depth == old(depth) && offset >= old(offset)
      ensures ok ==> Written() + [CLOSE_BRACKET] == old(Written()) + PrintItems(items, format, old(depth))
      ensures Room(old(offset) + |PrintItems(items, format, old(depth))|) ==> ok
      decreases items, 1
    {
      var i := 0;
      assert items[0..] == items;
      ok := true;
      while i < |items|
        invariant 0 <= i <= |items| && ItemsPrintable(items[i..])
        invariant Valid() && (buffer == old(buffer) || fresh(buffer))
        invariant depth == old(depth) && old(offset) <= offset && ok
        invariant Written() + PrintItems(items[i..], format, depth)
               == old(Written()) + PrintItems(items, format, old(depth))
      {
        ok := EmitItem(items, i);
        if !ok { return; }
        i := i + 1;
      }
      assert items[i..] == [];
    }

    /** One round of that loop: an element and the separator after it. */
    method EmitItem(items: seq<Value>, i: nat) returns (ok: bool)
      requires Valid() && i < |items| && ItemsPrintable(items[i..])
      modifies this, buffer
      ensures Valid() && (buffer == old(buffer) || fresh(buffer))
      ensures ItemsPrintable(items[i + 1..])
      ensures ok ==> depth == old(depth) && offset >= old(offset)
      ensures ok ==> Written() + PrintItems(items[i + 1..], format, depth)
                     == old(Written()) + PrintItems(items[i..], format, old(depth))
      ensures Room(old(offset) + |PrintItems(items[i..], format, old(depth))|) ==> ok
      decreases items, 0
    {
      hide Printable, PrintValue;
      ghost var before := Written();
      ghost var text := PrintValue(items[i], format, depth);
      ghost var rest := PrintItems(items[i + 1..], format, depth);
      ghost var separator := if i + 1 == |items| then [] else ItemSeparator(format);
      assert items[i..][0] == items[i] && items[i..][1..] == items[i + 1..];
      assert PrintItems(items[i..], format, depth) == text + (separator + rest);
      ok := EmitValue(items[i]);
      if !ok { return; }
      if i + 1 < |items| {
        ok := Append(ItemSeparator(format), true, |ItemSeparator(format)| + 1);
        if !ok { return; }
      }
      assert before + text + separator + rest == before + (text + (separator + rest));
    }

    /** The text is complete once the closing bytes stand after what was written. */
    lemma Closed(before: Text, text: Text, done: Text, closing: Text)
      requires Valid() && Written() == done && Holds(offset, closing) && done + closing == before + text
            && |before| <= offset
      ensures Trails(before, text)
    {
      assert buffer[..offset + |closing|] == done + closing;
      assert buffer[|before|..|before| + |text|] == (done + closing)[|before|..];
      assert buffer[..|before|] == (done + closing)[..|before|];
    }

    /** `print_object` */
    method RenderObject(members: seq<Member>) returns (ok: bool)
      requires Valid() && MembersPrintable(members)
      modifies this, buffer
      ensures Valid() && (buffer == old(buffer) || fresh(buffer))
      ensures ok ==> depth == old(depth)
                     && Trails(old(Written()), ObjectText(members, format, old(depth)))
      ensures Room(old(offset) + |ObjectText(members, format, old(depth))|) ==> ok
      decreases members, 2
    {
      hide PrintMembers, MembersPrintable, IfFormat, Tabs, Holds, Trails;
      var open := OpenText(format);
      ghost var text := ObjectText(members, format, depth);
      ghost var before := Written();
      hide OpenText;
      ok := Append(open, false, |open| + 1);
      if !ok { return; }
      depth := depth + 1;
      ok := EmitMembers(members);
      if !ok { return; }
      ghost var done := Written();
      var closing := IfFormat(format, Tabs(depth - 1)) + [CLOSE_BRACE];
      ok := Close(closing, |closing| + 1);
      if !ok { return; }
      depth := depth - 1;
      RegroupThree(before, open, PrintMembers(members, format, old(depth) + 1));
      Closed(before, text, done, closing);
    }

    /** The loop of `print_object`: everything between the braces. */
    method EmitMembers(members: seq<Member>) returns (ok: bool)
      requires Valid() && MembersPrintable(members) && depth > 0
      modifies this, buffer
      ensures Valid() && (buffer == old(buffer) || fresh(buffer))
      ensures ok ==> depth == old(depth) && offset >= old(offset)
      ensures ok ==> Written() + (IfFormat(format, Tabs(depth - 1)) + [CLOSE_BRACE])
                     == old(Written()) + PrintMembers(members, format, old(depth))
      ensures Room(old(offset) + |PrintMembers(members, format, old(depth))|) ==> ok
      decreases members, 1
    {
      hide Printable, PrintValue, MemberHead, MemberTail, NulFree;
      var i := 0;
      assert members[0..] == members;
      ok := true;
      while i < |members|
        invariant 0 <= i <= |members| && MembersPrintable(members[i..])
        invariant Valid() && (buffer == old(buffer) || fresh(buffer))
        invariant depth == old(depth) && old(offset) <= offset && ok
        invariant Written() + PrintMembers(members[i..], format, depth)
               == old(Written()) + PrintMembers(members, format, old(depth))
      {
        ok := EmitMember(members, i);
        if !ok { return; }
        i := i + 1;
      }
      assert members[i..] == [];
    }

    /** One round of that loop: a key, its value, and what follows it. */
    method EmitMember(members: seq<Member>, i: nat) returns (ok: bool)
      requires Valid() && i < |members| && MembersPrintable(members[i..]) && depth > 0
      modifies this, buffer
      ensures Valid() && (buffer == old(buffer) || fresh(buffer))
      ensures MembersPrintable(members[i + 1..])
      ensures ok ==> depth == old(depth) && offset >= old(offset)
      ensures ok ==> Written() + PrintMembers(members[i + 1..], format, depth)
                     == old(Written()) + PrintMembers(members[i..], format, old(depth))
      ensures Room(old(offset) + |PrintMembers(members[i..], format, old(depth))|) ==> ok
      decreases members, 0
    {
      hide Printable, PrintValue, MemberHead, MemberTail, NulFree, IfFormat, Tabs;
      ghost var before := Written();
      var m, last := members[i], i + 1 == |members|;
      assert members[i..][0] == m && members[i..][1..] == members[i + 1..];
      ghost var head, text, tail := MemberHead(m.key, format, depth), PrintValue(m.value, format, depth),
          MemberTail(last, format);
      ghost var rest := PrintMembers(members[i + 1..], format, depth);
      assert PrintMembers(members[i..], format, depth) == head + (text + (tail + rest));
      hide PrintMembers, MembersPrintable;
      ok := EmitHead(m.key);
      if !ok { return; }
      ok := EmitValue(m.value);
      if !ok { return; }
      ok := Append(MemberTail(last, format), true, |MemberTail(last, format)| + 1);
      if !ok { return; }
      Regroup(before, head, text, tail, rest);
    }

    /** The tabs, the key and the colon of a member. */
    method EmitHead(key: Text) returns (ok: bool)
      requires Valid() && NulFree(key)
      modifies this`buffer, this`offset, buffer
      ensures Valid() && (buffer == old(buffer) || fresh(buffer))
      ensures ok ==> Written() == old(Written()) + MemberHead(key, format, depth)
      ensures Room(old(offset) + |MemberHead(key, format, depth)|) ==> ok
    {
      hide PrintBytes, NulFree, Tabs;
      ghost var before, tabs := Written(), IfFormat(format, Tabs(depth));
      var colon := [COLON] + IfFormat(format, [TAB]);
      if format {
        ok := Append(Tabs(depth), false, |Tabs(depth)|);
        if !ok { return; }
      }
      ok := EmitString(key);
      if !ok { return; }
      ok := Append(colon, false, |colon|);
      if !ok { return; }
      assert before + tabs + PrintString(key) + colon == before + (tabs + (PrintString(key) + colon));
    }

    /** `print`: starts from a block of 256 bytes and returns the finished text. */
    static method PrintDocument(v: Value, format: bool, memory: nat) returns (r: Option<Text>)
      requires Printable(v)
      ensures r.Some? ==> r.value == Print(v, format)
      ensures memory >= INT_MAX && |Print(v, format)| + 2 <= INT_MAX ==> r.Some?
    {
      hide Printable, PrintValue;
      var p := new PrintBuffer(256, format, false, memory);
      var ok := p.EmitValue(v);
      if !ok { return None; }
      return Some(p.buffer[..p.offset]);
    }
  }
}
