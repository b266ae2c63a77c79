/**
 The parser of src/core/cJSON.c. The functions say what each routine makes of a buffer at an
 offset; the class below them moves an offset and a depth through the buffer as the C code does.
 */
module JsonParse {
  import opened Bytes
  import opened Options
  import opened JsonValue
  import opened JsonString

  datatype Outcome<T> = Fail | Done(value: T, offset: nat)

  function BlankEnd(s: Text, o: nat): (e: nat)
    requires o <= |s|
    ensures o <= e <= |s|
    decreases |s| - o
  {
    if o == |s| || s[o] > SPACE then o else BlankEnd(s, o + 1)
  }

  /** `buffer_skip_whitespace`: skipping that runs into the end of the buffer steps back onto
      the last byte. It never moves backwards. */
  function SkipBlank(s: Text, o: nat): (e: nat)
    requires o <= |s|
    ensures o <= e <= |s|
    ensures o < |s| ==> e < |s|
  {
    if o == |s| then o
    else
      var e := BlankEnd(s, o);
      if e == |s| then e - 1 else e
  }

  predicate CanRead(s: Text, o: nat, word: Text) { o + |word| <= |s| && s[o..o + |word|] == word }

  function NumberAt(s: Text, o: nat): (r: Outcome<Value>)
    requires o <= |s|
    ensures r.Done? ==> o < r.offset <= |s| && r.value.Number?
  {
    var (number, used) := StrToD(s[o..RunEnd(s, o)]);
    if used == 0 then Fail else Done(Number(number), o + used)
  }

  function ValueAt(s: Text, o: nat, depth: nat): (r: Outcome<Value>)
    requires o <= |s|
    ensures r.Done? ==> o < r.offset <= |s|
    decreases |s| - o, 1
  {
    if CanRead(s, o, NULL_WORD) then Done(Null, o + 4)
    else if CanRead(s, o, FALSE_WORD) then Done(False, o + 5)
    else if CanRead(s, o, TRUE_WORD) then Done(True, o + 4)
    else if o == |s| then Fail
    else if s[o] == QUOTE then
      var r := StringAt(s, o);
      if r.None? then Fail else Done(Str(r.value.0), r.value.1)
    else if s[o] == MINUS || IsDigit(s[o]) then NumberAt(s, o)
    else if s[o] == OPEN_BRACKET then ArrayAt(s, o, depth)
    else if s[o] == OPEN_BRACE then ObjectAt(s, o, depth)
    else Fail
  }

  function ArrayAt(s: Text, o: nat, depth: nat): (r: Outcome<Value>)
    requires o < |s|
    ensures r.Done? ==> o < r.offset <= |s| && r.value.Array?
    decreases |s| - o, 0
  {
    if depth >= NESTING_LIMIT then Fail
    else
      var first := SkipBlank(s, o + 1);
      if first == |s| then Fail
      else if s[first] == CLOSE_BRACKET then Done(Array([]), first + 1)
      else
        var r := ItemsAt(s, first, depth + 1);
        if r.Fail? then Fail else Done(Array(r.value), r.offset)
  }

  function ObjectAt(s: Text, o: nat, depth: nat): (r: Outcome<Value>)
    requires o < |s|
    ensures r.Done? ==> o < r.offset <= |s| && r.value.Object?
    decreases |s| - o, 0
  {
    if depth >= NESTING_LIMIT then Fail
    else
      var first := SkipBlank(s, o + 1);
      if first == |s| then Fail
      else if s[first] == CLOSE_BRACE then Done(Object([]), first + 1)
      else
        var r := MembersAt(s, first, depth + 1);
        if r.Fail? then Fail else Done(Object(r.value), r.offset)
  }

  /** One value with the blanks around it; the offset is that of the byte that follows. */
  function ItemAt(s: Text, o: nat, depth: nat): (r: Outcome<Value>)
    requires o <= |s|
    ensures r.Done? ==> o < r.offset < |s|
    decreases |s| - o, 2
  {
    var v := ValueAt(s, SkipBlank(s, o), depth);
    if v.Fail? || SkipBlank(s, v.offset) == |s| then Fail
    else Done(v.value, SkipBlank(s, v.offset))
  }

  /** The elements from offset `o` on, and the offset after the closing bracket. */
  function ItemsAt(s: Text, o: nat, depth: nat): (r: Outcome<seq<Value>>)
    requires o <= |s|
    ensures r.Done? ==> o < r.offset <= |s|
    decreases |s| - o, 3
  {
    var v := ItemAt(s, o, depth);
    if v.Fail? then Fail
    else if s[v.offset] == COMMA then
      var rest := ItemsAt(s, v.offset + 1, depth);
      if rest.Fail? then Fail else Done([v.value] + rest.value, rest.offset)
    else if s[v.offset] == CLOSE_BRACKET then Done([v.value], v.offset + 1)
    else Fail
  }

  /** A key with the blanks around it; the offset is that of its colon. */
  function KeyAt(s: Text, o: nat): (r: Outcome<Text>)
    requires o <= |s|
    ensures r.Done? ==> o < r.offset < |s|
  {
    if o == |s| then Fail
    else
      var key := StringAt(s, SkipBlank(s, o));
      if key.None? then Fail
      else
        var c := SkipBlank(s, key.value.1);
        if c == |s| || s[c] != COLON then Fail else Done(key.value.0, c)
  }

  function MemberAt(s: Text, o: nat, depth: nat): (r: Outcome<Member>)
    requires o <= |s|
    ensures r.Done? ==> o < r.offset < |s|
    decreases |s| - o, 0
  {
    var key := KeyAt(s, o);
    if key.Fail? then Fail
    else
      var v := ItemAt(s, key.offset + 1, depth);
      if v.Fail? then Fail else Done(Member(key.value, v.value), v.offset)
  }

  /** The members from offset `o` on, and the offset after the closing brace. */
  function MembersAt(s: Text, o: nat, depth: nat): (r: Outcome<seq<Member>>)
    requires o <= |s|
    ensures r.Done? ==> o < r.offset <= |s|
    decreases |s| - o, 3
  {
    var m := MemberAt(s, o, depth);
    if m.Fail? then Fail
    else if s[m.offset] == COMMA then
      var rest := MembersAt(s, m.offset + 1, depth);
      if rest.Fail? then Fail else Done([m.value] + rest.value, rest.offset)
    else if s[m.offset] == CLOSE_BRACE then Done([m.value], m.offset + 1)
    else Fail
  }

  /** No value nests deeper than the limit, whatever the input: every bracket that the parser
      enters is counted against it. */
  lemma {:induction false} DepthBounded(s: Text, o: nat, depth: nat)
    requires o <= |s| && depth <= NESTING_LIMIT
    requires ValueAt(s, o, depth).Done?
    ensures depth + Depth(ValueAt(s, o, depth).value) <= NESTING_LIMIT
    decreases |s| - o, 0
  {
    var v := ValueAt(s, o, depth).value;
    if v.Array? && v.items != [] {
      ItemsDepthBounded(s, SkipBlank(s, o + 1), depth + 1);
    } else if v.Object? && v.members != [] {
      MembersDepthBounded(s, SkipBlank(s, o + 1), depth + 1);
    }
  }

  lemma {:induction false} ItemDepthBounded(s: Text, o: nat, depth: nat)
    requires o <= |s| && depth <= NESTING_LIMIT
    requires ItemAt(s, o, depth).Done?
    ensures depth + Depth(ItemAt(s, o, depth).value) <= NESTING_LIMIT
    decreases |s| - o, 1
  {
    DepthBounded(s, SkipBlank(s, o), depth);
  }

  lemma {:induction false} ItemsDepthBounded(s: Text, o: nat, depth: nat)
    requires o <= |s| && depth <= NESTING_LIMIT
    requires ItemsAt(s, o, depth).Done?
    ensures depth + ItemsDepth(ItemsAt(s, o, depth).value) <= NESTING_LIMIT
    decreases |s| - o, 2
  {
    hide ItemAt, Depth;
    ItemDepthBounded(s, o, depth);
    var e := ItemAt(s, o, depth).offset;
    var items := ItemsAt(s, o, depth).value;
    if s[e] == COMMA {
      ItemsDepthBounded(s, e + 1, depth);
      assert items[1..] == ItemsAt(s, e + 1, depth).value;
    } else {
      assert items[1..] == [];
    }
  }

  lemma {:induction false} MembersDepthBounded(s: Text, o: nat, depth: nat)
    requires o <= |s| && depth <= NESTING_LIMIT
    requires MembersAt(s, o, depth).Done?
    ensures depth + MembersDepth(MembersAt(s, o, depth).value) <= NESTING_LIMIT
    decreases |s| - o, 3
  {
    hide KeyAt, ItemAt, ValueAt, Depth;
    ItemDepthBounded(s, KeyAt(s, o).offset + 1, depth);
    assert MemberAt(s, o, depth).value.value == ItemAt(s, KeyAt(s, o).offset + 1, depth).value;
    hide MemberAt;
    var e := MemberAt(s, o, depth).offset;
    var members := MembersAt(s, o, depth).value;
    if s[e] == COMMA {
      MembersDepthBounded(s, e + 1, depth);
      assert members[1..] == MembersAt(s, e + 1, depth).value;
    } else {
      assert members[1..] == [];
    }
  }

  /** Whatever the input, a parsed value without fractions and large numbers can be printed: its
      strings and keys are C strings. */
  lemma {:induction false} ParsedPrintable(s: Text, o: nat, depth: nat)
    requires o <= |s| && ValueAt(s, o, depth).Done? && IntNumbers(ValueAt(s, o, depth).value)
    ensures Printable(ValueAt(s, o, depth).value)
    decreases |s| - o, 0
  {
    hide SkipBlank, StringAt, NumberAt, NulFree, IsInt32, ItemsAt, MembersAt;
    var v := ValueAt(s, o, depth).value;
    if v.Array? && v.items != [] {
      ItemsParsedPrintable(s, SkipBlank(s, o + 1), depth + 1);
    } else if v.Object? && v.members != [] {
      MembersParsedPrintable(s, SkipBlank(s, o + 1), depth + 1);
    }
  }

  lemma {:induction false} ItemsParsedPrintable(s: Text, o: nat, depth: nat)
    requires o <= |s| && ItemsAt(s, o, depth).Done? && ItemsInt(ItemsAt(s, o, depth).value)
    ensures ItemsPrintable(ItemsAt(s, o, depth).value)
    decreases |s| - o, 2
  {
    hide ItemAt, SkipBlank, ValueAt, Printable, IntNumbers;
    var v, items := ItemAt(s, o, depth), ItemsAt(s, o, depth).value;
    ItemParts(s, o, depth);
    assert items[0] == v.value;
    ParsedPrintable(s, SkipBlank(s, o), depth);
    if s[v.offset] == COMMA {
      assert items[1..] == ItemsAt(s, v.offset + 1, depth).value;
      ItemsParsedPrintable(s, v.offset + 1, depth);
    } else {
      assert items[1..] == [];
    }
  }

  lemma ItemParts(s: Text, o: nat, depth: nat)
    requires o <= |s| && ItemAt(s, o, depth).Done?
    ensures ValueAt(s, SkipBlank(s, o), depth).Done?
          && ItemAt(s, o, depth).value == ValueAt(s, SkipBlank(s, o), depth).value
  {
    hide ValueAt;
  }

  lemma MemberParts(s: Text, o: nat, depth: nat)
    requires o <= |s| && MemberAt(s, o, depth).Done?
    ensures KeyAt(s, o).Done? && NulFree(MemberAt(s, o, depth).value.key)
    ensures var p := SkipBlank(s, KeyAt(s, o).offset + 1);
            o < p <= |s| && ValueAt(s, p, depth).Done?
                && MemberAt(s, o, depth).value.value == ValueAt(s, p, depth).value
  {
    hide ValueAt, StringAt, NulFree;
  }

  lemma {:induction false} MembersParsedPrintable(s: Text, o: nat, depth: nat)
    requires o <= |s| && MembersAt(s, o, depth).Done? && MembersInt(MembersAt(s, o, depth).value)
    ensures MembersPrintable(MembersAt(s, o, depth).value)
    decreases |s| - o, 2
  {
    hide MemberAt, KeyAt, SkipBlank, ValueAt, Printable, IntNumbers, NulFree;
    var m, members := MemberAt(s, o, depth), MembersAt(s, o, depth).value;
    MemberParts(s, o, depth);
    assert members[0] == m.value;
    ParsedPrintable(s, SkipBlank(s, KeyAt(s, o).offset + 1), depth);
    if s[m.offset] == COMMA {
      assert members[1..] == MembersAt(s, m.offset + 1, depth).value;
      MembersParsedPrintable(s, m.offset + 1, depth);
    } else {
      assert members[1..] == [];
    }
  }

  // ---- Whole documents -------------------------------------------------------------------

  const BOM: Text := [0xEF, 0xBB, 0xBF]

  function SkipBom(s: Text): (o: nat)
    ensures o <= |s|
  {
    if 4 < |s| && s[..3] == BOM then 3 else 0
  }

  /** `cJSON_ParseWithLengthOpts` without the demand for a terminator: the value and the offset
      at which parsing stopped. */
  function Document(s: Text): Outcome<Value> {
    ValueAt(s, SkipBlank(s, SkipBom(s)), 0)
  }

  /** The same with that demand: behind the value only blanks may come before a NUL. */
  function StrictDocument(s: Text): Outcome<Value> {
    var r := Document(s);
    if r.Fail? then Fail
    else
      var e := SkipBlank(s, r.offset);
      if e >= |s| || s[e] != NUL then Fail else Done(r.value, e)
  }

  lemma {:induction false} BlankEndIsEnd(s: Text, o: nat)
    requires o <= |s|
    ensures forall i :: o <= i < BlankEnd(s, o) ==> s[i] <= SPACE
    ensures BlankEnd(s, o) < |s| ==> s[BlankEnd(s, o)] > SPACE
    decreases |s| - o
  {
    if o < |s| && s[o] <= SPACE { BlankEndIsEnd(s, o + 1); }
  }

  /** A C string is taken with that demand if and only if it is taken without it and nothing but
      blanks stands behind the value. */
  lemma StrictExactly(text: Text)
    requires NulFree(text)
    ensures var s, r := text + [NUL], Document(text + [NUL]);
            StrictDocument(s).Done? <==> r.Done? && forall i :: r.offset <= i < |text| ==> text[i] <= SPACE
  {
    var s, r := text + [NUL], Document(text + [NUL]);
    hide ValueAt, SkipBom;
    if r.Done? {
      LastByte(s, SkipBlank(s, SkipBom(s)), 0);
      BlankEndIsEnd(s, r.offset);
      assert forall i :: 0 <= i < |text| ==> s[i] == text[i];
    }
  }

  /** A value never ends in a NUL. */
  lemma LastByte(s: Text, o: nat, depth: nat)
    requires o <= |s| && ValueAt(s, o, depth).Done?
    ensures o < ValueAt(s, o, depth).offset <= |s| && s[ValueAt(s, o, depth).offset - 1] != NUL
  {
    hide StrToD, SkipBlank, ItemsAt, MembersAt;
    var v, e := ValueAt(s, o, depth).value, ValueAt(s, o, depth).offset;
    if v.Number? {
      RunBytes(s, o);
    } else if v.Array? {
      if s[SkipBlank(s, o + 1)] != CLOSE_BRACKET { ItemsEnd(s, SkipBlank(s, o + 1), depth + 1); }
    } else if v.Object? {
      if s[SkipBlank(s, o + 1)] != CLOSE_BRACE { MembersEnd(s, SkipBlank(s, o + 1), depth + 1); }
    } else if v.Str? {
      assert s[e - 1] == QUOTE;
    } else {
      assert s[o..e][e - o - 1] == s[e - 1];
    }
  }

  lemma {:induction false} RunBytes(s: Text, o: nat)
    requires o <= |s|
    ensures forall i :: o <= i < RunEnd(s, o) ==> IsNumberByte(s[i])
    decreases |s| - o
  {
    if o < |s| && IsNumberByte(s[o]) { RunBytes(s, o + 1); }
  }

  lemma {:induction false} ItemsEnd(s: Text, o: nat, depth: nat)
    requires o <= |s| && ItemsAt(s, o, depth).Done?
    ensures s[ItemsAt(s, o, depth).offset - 1] == CLOSE_BRACKET
    decreases |s| - o
  {
    hide ItemAt;
    var v := ItemAt(s, o, depth);
    if s[v.offset] == COMMA { ItemsEnd(s, v.offset + 1, depth); }
  }

  lemma {:induction false} MembersEnd(s: Text, o: nat, depth: nat)
    requires o <= |s| && MembersAt(s, o, depth).Done?
    ensures s[MembersAt(s, o, depth).offset - 1] == CLOSE_BRACE
    decreases |s| - o
  {
    hide MemberAt;
    var m := MemberAt(s, o, depth);
    if s[m.offset] == COMMA { MembersEnd(s, m.offset + 1, depth); }
  }

  /** `cJSON_Parse`: the buffer is the C string with its terminator. */
  function Parse(text: Text): Outcome<Value> {
    Document(CString(text) + [NUL])
  }

  /** `parse_buffer` and the routines that move it. */
  class Parser {
    const content: Text
    var offset: nat
    var depth: nat

    constructor (content: Text)
      ensures this.content == content && offset == 0 && depth == 0
    {
      this.content := content;
      offset, depth := 0, 0;
    }

    ghost predicate Valid()
      reads this
    {
      offset <= |content|
    }

    method SkipWhitespace()
      requires Valid()
      modifies this`offset
      ensures Valid() && offset == SkipBlank(content, old(offset))
    {
      if offset >= |content| { return; }
      while offset < |content| && content[offset] <= SPACE
        invariant old(offset) <= offset <= |content|
        invariant BlankEnd(content, offset) == BlankEnd(content, old(offset))
      {
        offset := offset + 1;
      }
      if offset == |content| { offset := offset - 1; }
    }

    method ParseNumber() returns (r: Option<Value>)
      requires Valid()
      modifies this`offset
      ensures Valid()
      ensures r == Found(NumberAt(content, old(offset)))
      ensures r.Some? ==> offset == NumberAt(content, old(offset)).offset
    {
      var length := 0;
      while offset + length < |content| && IsNumberByte(content[offset + length])
        invariant offset + length <= |content|
        invariant RunEnd(content, offset + length) == RunEnd(content, offset)
      {
        length := length + 1;
      }
      var (number, used) := StrToD(content[offset..offset + length]);
      if used == 0 { return None; }
      offset := offset + used;
      return Some(Number(number));
    }

    method ParseValue() returns (r: Option<Value>)
      requires Valid()
      modifies this
      ensures Valid()
      ensures r == Found(ValueAt(content, old(offset), old(depth)))
      ensures r.Some? ==> offset == ValueAt(content, old(offset), old(depth)).offset && depth == old(depth)
      decreases |content| - offset, 4
    {
      if CanRead(content, offset, NULL_WORD) {
        offset := offset + 4;
        return Some(Null);
      }
      if CanRead(content, offset, FALSE_WORD) {
        offset := offset + 5;
        return Some(False);
      }
      if CanRead(content, offset, TRUE_WORD) {
        offset := offset + 4;
        return Some(True);
      }
      if offset < |content| && content[offset] == QUOTE {
        var literal := JsonString.ParseString(content, offset);
        if literal.None? { return None; }
        offset := literal.value.1;
        return Some(Str(literal.value.0));
      }
      if offset < |content| && (content[offset] == MINUS || IsDigit(content[offset])) {
        r := ParseNumber();
        return;
      }
      if offset < |content| && content[offset] == OPEN_BRACKET {
        r := ParseArray();
        return;
      }
      if offset < |content| && content[offset] == OPEN_BRACE {
        r := ParseObject();
        return;
      }
      return None;
    }

    method ParseArray() returns (r: Option<Value>)
      requires Valid() && offset < |content|
      modifies this
      ensures Valid()
      ensures r == Found(ArrayAt(content, old(offset), old(depth)))
      ensures r.Some? ==> offset == ArrayAt(content, old(offset), old(depth)).offset && depth == old(depth)
      decreases |content| - offset, 3
    {
      hide ItemsAt, SkipBlank;
      if depth >= NESTING_LIMIT { return None; }
      depth := depth + 1;
      offset := offset + 1;
      SkipWhitespace();
      if offset < |content| && content[offset] == CLOSE_BRACKET {
        depth, offset := depth - 1, offset + 1;
        return Some(Array([]));
      }
      if offset >= |content| { return None; }
      offset := offset - 1;
      var items := ParseItems();
      if items.None? { return None; }
      depth, offset := depth - 1, offset + 1;
      return Some(Array(items.value));
    }

    /** A value and the blanks around it, from the byte before them on. */
    method ParseItem() returns (r: Option<Value>)
      requires offset < |content|
      modifies this
      ensures Valid()
      ensures r == Found(ItemAt(content, old(offset) + 1, old(depth)))
      ensures r.Some? ==> offset == ItemAt(content, old(offset) + 1, old(depth)).offset && depth == old(depth)
      decreases |content| - offset, 0
    {
      offset := offset + 1;
      SkipWhitespace();
      r := ParseValue();
      if r.None? { return None; }
      SkipWhitespace();
      if offset == |content| { return None; }
    }

    /** The do-while loop of `parse_array`: it starts on the byte before an element and ends on
        the closing bracket. */
    method ParseItems() returns (r: Option<seq<Value>>)
      requires offset < |content|
      modifies this
      ensures Valid()
      ensures r == Found(ItemsAt(content, old(offset) + 1, old(depth)))
      ensures r.Some? ==> offset + 1 == ItemsAt(content, old(offset) + 1, old(depth)).offset && depth == old(depth)
      decreases |content| - offset, 1
    {
      hide ItemsAt, ItemAt, Onto;
      var items: seq<Value> := [];
      var more := true;
      ghost var goal := ItemsAt(content, offset + 1, depth);
      OntoNothing(goal);
      while more
        invariant old(offset) <= offset < |content|
        invariant depth == old(depth)
        invariant more ==> goal == Onto(items, ItemsAt(content, offset + 1, depth))
        invariant !more ==> content[offset] != COMMA
        invariant !more ==> goal == if content[offset] == CLOSE_BRACKET then Done(items, offset + 1) else Fail
        decreases |content| - offset, more
      {
        ItemsUnfold(content, offset + 1, depth, items);
        var v := ParseItem();
        if v.None? { return None; }
        items := items + [v.value];
        more := content[offset] == COMMA;
      }
      if content[offset] != CLOSE_BRACKET { return None; }
      return Some(items);
    }

    method ParseObject() returns (r: Option<Value>)
      requires Valid() && offset < |content|
      modifies this
      ensures Valid()
      ensures r == Found(ObjectAt(content, old(offset), old(depth)))
      ensures r.Some? ==> offset == ObjectAt(content, old(offset), old(depth)).offset && depth == old(depth)
      decreases |content| - offset, 3
    {
      hide MembersAt, SkipBlank;
      if depth >= NESTING_LIMIT { return None; }
      depth := depth + 1;
      offset := offset + 1;
      SkipWhitespace();
      if offset < |content| && content[offset] == CLOSE_BRACE {
        depth, offset := depth - 1, offset + 1;
        return Some(Object([]));
      }
      if offset >= |content| { return None; }
      offset := offset - 1;
      var members := ParseMembers();
      if members.None? { return None; }
      depth, offset := depth - 1, offset + 1;
      return Some(Object(members.value));
    }

    /** `"key" :` from the byte before it on. */
    method ParseKey() returns (r: Option<Text>)
      requires offset < |content|
      modifies this`offset
      ensures Valid()
      ensures r == Found(KeyAt(content, old(offset) + 1))
      ensures r.Some? ==> offset == KeyAt(content, old(offset) + 1).offset
    {
      if offset + 1 >= |content| { return None; }
      offset := offset + 1;
      SkipWhitespace();
      var key := JsonString.ParseString(content, offset);
      if key.None? { return None; }
      offset := key.value.1;
      SkipWhitespace();
      if offset >= |content| || content[offset] != COLON { return None; }
      return Some(key.value.0);
    }

    method ParseMember() returns (r: Option<Member>)
      requires offset < |content|
      modifies this
      ensures Valid()
      ensures r == Found(MemberAt(content, old(offset) + 1, old(depth)))
      ensures r.Some? ==> offset == MemberAt(content, old(offset) + 1, old(depth)).offset && depth == old(depth)
      decreases |content| - offset, 1
    {
      var key := ParseKey();
      if key.None? { return None; }
      var v := ParseItem();
      if v.None? { return None; }
      return Some(Member(key.value, v.value));
    }

    method ParseMembers() returns (r: Option<seq<Member>>)
      requires offset < |content|
      modifies this
      ensures Valid()
      ensures r == Found(MembersAt(content, old(offset) + 1, old(depth)))
      ensures r.Some? ==> offset + 1 == MembersAt(content, old(offset) + 1, old(depth)).offset && depth == old(depth)
      decreases |content| - offset, 2
    {
      hide MembersAt, MemberAt, Onto;
      var members: seq<Member> := [];
      var more := true;
      ghost var goal := MembersAt(content, offset + 1, depth);
      OntoNothing(goal);
      while more
        invariant old(offset) <= offset < |content|
        invariant depth == old(depth)
        invariant more ==> goal == Onto(members, MembersAt(content, offset + 1, depth))
        invariant !more ==> content[offset] != COMMA
        invariant !more ==> goal == if content[offset] == CLOSE_BRACE then Done(members, offset + 1) else Fail
        decreases |content| - offset, more
      {
        MembersUnfold(content, offset + 1, depth, members);
        var m := ParseMember();
        if m.None? { return None; }
        members := members + [m.value];
        more := content[offset] == COMMA;
      }
      if content[offset] != CLOSE_BRACE { return None; }
      return Some(members);
    }

    /** `cJSON_ParseWithLengthOpts`: the value, or nothing, and where parsing stopped. */
    method ParseDocument(strict: bool) returns (r: Option<Value>)
      requires offset == 0 && depth == 0
      modifies this
      ensures Valid()
      ensures r == Found(if strict then StrictDocument(content) else Document(content))
      ensures r.Some? ==> offset == (if strict then StrictDocument(content) else Document(content)).offset
    {
      offset := SkipBom(content);
      SkipWhitespace();
      r := ParseValue();
      if r.None? || !strict { return; }
      SkipWhitespace();
      if offset >= |content| || content[offset] != NUL { return None; }
    }
  }

  function Found<T>(r: Outcome<T>): Option<T> {
    if r.Fail? then None else Some(r.value)
  }

  ghost function Onto<T>(before: seq<T>, r: Outcome<seq<T>>): Outcome<seq<T>> {
    if r.Fail? then Fail else Done(before + r.value, r.offset)
  }

  lemma OntoNothing<T>(r: Outcome<seq<T>>)
    ensures Onto([], r) == r
  {
    if r.Done? { assert [] + r.value == r.value; }
  }

  lemma OntoTwice<T>(before: seq<T>, v: T, r: Outcome<seq<T>>)
    ensures r.Done? ==> Onto(before, Done([v] + r.value, r.offset)) == Onto(before + [v], r)
  {
    if r.Done? { assert before + ([v] + r.value) == before + [v] + r.value; }
  }

  /** One round of the loops over elements and members. */
  lemma ItemsUnfold(s: Text, o: nat, depth: nat, before: seq<Value>)
    requires o <= |s|
    ensures Onto(before, ItemsAt(s, o, depth)) ==
            match ItemAt(s, o, depth)
            case Fail => Fail
            case Done(v, e) =>
              if s[e] == COMMA then Onto(before + [v], ItemsAt(s, e + 1, depth))
              else if s[e] == CLOSE_BRACKET then Done(before + [v], e + 1) else Fail
  {
    hide ItemAt;
    var v := ItemAt(s, o, depth);
    if v.Done? && s[v.offset] == COMMA { OntoTwice(before, v.value, ItemsAt(s, v.offset + 1, depth)); }
  }

  lemma ItemsLast(s: Text, o: nat, depth: nat, v: Value, e: nat)
    requires o <= |s| && ItemAt(s, o, depth) == Done(v, e) && s[e] == CLOSE_BRACKET
    ensures ItemsAt(s, o, depth) == Done([v], e + 1)
  {
    hide ItemAt;
  }

  lemma ItemsMore(s: Text, o: nat, depth: nat, v: Value, e: nat, rest: seq<Value>, end: nat)
    requires o <= |s| && ItemAt(s, o, depth) == Done(v, e) && s[e] == COMMA
    requires ItemsAt(s, e + 1, depth) == Done(rest, end)
    ensures ItemsAt(s, o, depth) == Done([v] + rest, end)
  {
    hide ItemAt;
  }

  lemma MembersLast(s: Text, o: nat, depth: nat, m: Member, e: nat)
    requires o <= |s| && MemberAt(s, o, depth) == Done(m, e) && s[e] == CLOSE_BRACE
    ensures MembersAt(s, o, depth) == Done([m], e + 1)
  {
    hide MemberAt;
  }

  lemma MembersMore(s: Text, o: nat, depth: nat, m: Member, e: nat, rest: seq<Member>, end: nat)
    requires o <= |s| && MemberAt(s, o, depth) == Done(m, e) && s[e] == COMMA
    requires MembersAt(s, e + 1, depth) == Done(rest, end)
    ensures MembersAt(s, o, depth) == Done([m] + rest, end)
  {
    hide MemberAt;
  }

  lemma MembersUnfold(s: Text, o: nat, depth: nat, before: seq<Member>)
    requires o <= |s|
    ensures Onto(before, MembersAt(s, o, depth)) ==
            match MemberAt(s, o, depth)
            case Fail => Fail
            case Done(m, e) =>
              if s[e] == COMMA then Onto(before + [m], MembersAt(s, e + 1, depth))
              else if s[e] == CLOSE_BRACE then Done(before + [m], e + 1) else Fail
  {
    hide MemberAt;
    var m := MemberAt(s, o, depth);
    if m.Done? && s[m.offset] == COMMA { OntoTwice(before, m.value, MembersAt(s, m.offset + 1, depth)); }
  }
}
