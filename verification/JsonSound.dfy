/**
 What the parser of src/core/cJSON.c takes beyond RFC 8259, and nothing else: whatever it accepts is
 the text of a lenient grammar, in which blanks are any bytes up to the space, numbers need
 digits on one side of the point only, and string literals whatever the two passes of `parse_string` take.
 */
module JsonSound {
  import opened Bytes
  import opened Options
  import opened Utf
  import opened JsonValue
  import opened JsonString
  import opened JsonParse
  import opened JsonSyntax
  import opened JsonNumber
  import opened JsonAccepts

  datatype Form =
    | WordForm(value: Value)
    | NumberForm(number: Loose)
    | StringForm(text: Text)
    | ListForm(pad: Text, elements: seq<Padded>)
    | RecordForm(pad: Text, entries: seq<Entry>)

  /** A form with the blanks around it. */
  datatype Padded = Padded(before: Text, form: Form, after: Text)

  /** A key, which is a string literal, with the blanks around it, and what follows the colon. */
  datatype Entry = Entry(before: Text, key: Text, after: Text, padded: Padded)

  /** A literal that the two passes take whole. */
  predicate LiteralOk(t: Text) { t != [] && StringAt(t, 0).Some? && StringAt(t, 0).value.1 == |t| }

  function WordText(v: Value): Text {
    match v
    case Null => NULL_WORD
    case False => FALSE_WORD
    case True => TRUE_WORD
    case _ => []
  }

  predicate FormOk(f: Form) {
    match f
    case WordForm(v) => v.Null? || v.False? || v.True?
    case NumberForm(l) => LooseOk(l)
    case StringForm(t) => LiteralOk(t)
    case ListForm(pad, elements) => Blank(pad) && ElementsOk(elements)
    case RecordForm(pad, entries) => Blank(pad) && EntriesOk(entries)
  }

  predicate PaddedOk(p: Padded) { Blank(p.before) && FormOk(p.form) && Blank(p.after) }
  predicate ElementsOk(es: seq<Padded>) { es != [] ==> PaddedOk(es[0]) && ElementsOk(es[1..]) }
  predicate EntryOk(e: Entry) { Blank(e.before) && LiteralOk(e.key) && Blank(e.after) && PaddedOk(e.padded) }
  predicate EntriesOk(es: seq<Entry>) { es != [] ==> EntryOk(es[0]) && EntriesOk(es[1..]) }

  function FormText(f: Form): Text {
    match f
    case WordForm(v) => WordText(v)
    case NumberForm(l) => LooseText(l)
    case StringForm(t) => t
    case ListForm(pad, elements) =>
      [OPEN_BRACKET] + (pad + if elements == [] then [CLOSE_BRACKET] else ElementsText(elements))
    case RecordForm(pad, entries) => [OPEN_BRACE] + (pad + if entries == [] then [CLOSE_BRACE]
        else EntriesText(entries))
  }

  function PaddedText(p: Padded): Text { p.before + (FormText(p.form) + p.after) }

  /** Elements with commas between them, and the closing bracket. */
  function ElementsText(es: seq<Padded>): Text
    requires es != []
  {
    PaddedText(es[0]) + if |es| == 1 then [CLOSE_BRACKET] else [COMMA] + ElementsText(es[1..])
  }

  function EntryText(e: Entry): Text { e.before + (e.key + (e.after + ([COLON] + PaddedText(e.padded)))) }

  function EntriesText(es: seq<Entry>): Text
    requires es != []
  {
    EntryText(es[0]) + if |es| == 1 then [CLOSE_BRACE] else [COMMA] + EntriesText(es[1..])
  }

  function FormValue(f: Form): Value
    requires FormOk(f)
  {
    match f
    case WordForm(v) => v
    case NumberForm(l) => Number(LooseValue(l))
    case StringForm(t) => Str(StringAt(t, 0).value.0)
    case ListForm(_, elements) => Array(ElementsValue(elements))
    case RecordForm(_, entries) => Object(EntriesValue(entries))
  }

  function ElementsValue(es: seq<Padded>): seq<Value>
    requires ElementsOk(es)
  {
    if es == [] then []
    else
      assert PaddedOk(es[0]);
      [FormValue(es[0].form)] + ElementsValue(es[1..])
  }

  function EntriesValue(es: seq<Entry>): seq<Member>
    requires EntriesOk(es)
  {
    if es == [] then []
    else
      assert EntryOk(es[0]) && PaddedOk(es[0].padded);
      [Member(StringAt(es[0].key, 0).value.0, FormValue(es[0].padded.form))] + EntriesValue(es[1..])
  }

  // ---- Blanks and words ------------------------------------------------------------------

  lemma SkippedBlank(s: Text, o: nat)
    requires o <= |s|
    ensures Blank(s[o..SkipBlank(s, o)])
  {
    BlankEndIsEnd(s, o);
  }

  // ---- Numbers ---------------------------------------------------------------------------

  lemma {:induction false} DigitsEndCut(s: Text, i: nat, n: nat)
    requires i <= |s| && DigitsEnd(s, i) <= n <= |s|
    ensures i <= n && DigitsEnd(s[..n], i) == DigitsEnd(s, i)
    decreases |s| - i
  {
    if i < |s| && IsDigit(s[i]) { DigitsEndCut(s, i + 1, n); }
  }

  lemma ExponentCut(s: Text, f: nat)
    requires f <= |s|
    ensures var (x, end) := ExponentAt(s, f); f <= end <= |s| && ExponentAt(s[..end], f) == (x, end)
  {
    hide DigitsValue;
    var end := ExponentAt(s, f).1;
    if end > f {
      var g := if f + 1 < |s| && (s[f + 1] == PLUS || s[f + 1] == MINUS) then f + 2 else f + 1;
      DigitsEndCut(s, g, end);
      assert s[..end][g..end] == s[g..end];
    }
  }

  /** What `strtod` takes of a text it takes of that part alone. */
  lemma StrToDCut(s: Text)
    requires StrToD(s).1 > 0
    ensures StrToD(s[..StrToD(s).1]) == StrToD(s)
  {
    hide Assemble, ExponentAt, Digits;
    var used := StrToD(s).1;
    var t := s[..used];
    var i := if s != [] && s[0] == MINUS then 1 else 0;
    var d := DigitsEnd(s, i);
    var f := if d < |s| && s[d] == DOT then DigitsEnd(s, d + 1) else d;
    ExponentCut(s, f);
    assert used == ExponentAt(s, f).1 && f <= used;
    assert t[0] == s[0];
    DigitsEndCut(s, i, used);
    if d < f { DigitsEndCut(s, d + 1, used); }
    assert t[i..d] == s[i..d];
    if f != d { assert t[d + 1..f] == s[d + 1..f]; }
  }

  lemma ExponentTaken(t: Text, f: nat) returns (e: Exponent)
    requires f <= |t| && ExponentAt(t, f).1 == |t|
    ensures ExponentOk(e) && ExponentText(e) == t[f..] && ExponentValue(e) == ExponentAt(t, f).0
  {
    if f == |t| {
      e := NoExponent;
    } else {
      var g := if f + 1 < |t| && (t[f + 1] == PLUS || t[f + 1] == MINUS) then f + 2 else f + 1;
      ExponentSplit(t, f, g);
      hide ExponentAt;
      e := Exponent(t[f], t[f + 1..g], t[g..]);
      DigitsArePlaces(t[g..]);
      hide DigitsValue, WholeValue, Digits;
      assert g == f + 2 ==> t[f + 1..g] == [t[f + 1]];
      assert t[f..] == [t[f]] + t[f + 1..g] + t[g..];
    }
  }

  lemma ExponentSplit(t: Text, f: nat, g: nat)
    requires f < |t| && ExponentAt(t, f).1 == |t|
    requires g == if f + 1 < |t| && (t[f + 1] == PLUS || t[f + 1] == MINUS) then f + 2 else f + 1
    ensures g < |t| && (t[f] == LOWER_E || t[f] == UPPER_E) && Digits(t[g..])
    ensures ExponentAt(t, f).0 == Negate(t[f + 1] == MINUS, DigitsValue(t[g..]))
  {
    assert t[g..|t|] == t[g..];
    hide DigitsValue, Digits;
  }

  /** The parts that `strtod` finds in a text. */
  lemma StrToDParts(t: Text) returns (i: nat, d: nat, f: nat)
    requires t != [] && StrToD(t).1 == |t|
    ensures i == (if t[0] == MINUS then 1 else 0) && i <= d <= f <= |t| && Digits(t[i..d])
    ensures f == d || (t[d] == DOT && d < f && Digits(t[d + 1..f]))
    ensures ExponentAt(t, f).1 == |t|
    ensures var fraction := if f == d then [] else t[d + 1..f];
            && (d == i ==> fraction != []) && Digits(fraction)
            && StrToD(t).0 == Assemble(t[0] == MINUS, t[i..d], fraction, ExponentAt(t, f).0)
  {
    hide Assemble, ExponentAt, Digits;
    i := if t[0] == MINUS then 1 else 0;
    d := DigitsEnd(t, i);
    f := if d < |t| && t[d] == DOT then DigitsEnd(t, d + 1) else d;
    NoDigits();
  }

  /** Text that `strtod` takes whole is a number by this grammar, and the number is its value. */
  lemma NumberTaken(t: Text) returns (l: Loose)
    requires t != [] && (t[0] == MINUS || IsDigit(t[0])) && StrToD(t).1 == |t|
    ensures LooseOk(l) && LooseText(l) == t && LooseValue(l) == StrToD(t).0
  {
    var i, d, f := StrToDParts(t);
    var e := ExponentTaken(t, f);
    hide Assemble, ExponentAt, Digits, DecimalValue, ExponentValue, ExponentText, ExponentOk, StrToD;
    var fraction := if f == d then [] else t[d + 1..f];
    l := Loose(t[0] == MINUS, t[i..d], f != d, fraction, e);
    AssembledRight(l.neg, l.whole, l.fraction, ExponentValue(e));
    NumberJoined(t, i, d, f);
    assert LooseOk(l);
  }

  lemma NumberJoined(t: Text, i: nat, d: nat, f: nat)
    requires t != [] && i == (if t[0] == MINUS then 1 else 0) && i <= d <= f <= |t| && (f == d || t[d] == DOT)
    ensures SignText(t[0] == MINUS) + t[i..d] + PointText(f != d, if f == d then [] else t[d + 1..f]) + t[f..] == t
  {
    assert t[..i] == SignText(t[0] == MINUS);
    if f > d { assert t[d..f] == [DOT] + t[d + 1..f]; }
    assert t == t[..i] + t[i..d] + t[d..f] + t[f..];
  }

  lemma NoDigits()
    ensures Digits([])
  {
  }

  /** The numbers of this grammar are exactly the texts that `strtod` takes whole. */
  lemma LooseExactly(t: Text)
    requires t != [] && (t[0] == MINUS || IsDigit(t[0]))
    ensures StrToD(t).1 == |t| <==> exists l :: LooseOk(l) && LooseText(l) == t
  {
    if StrToD(t).1 == |t| {
      var l := NumberTaken(t);
    } else {
      forall l | LooseOk(l) ensures LooseText(l) != t { LooseRead(l); }
    }
  }

  /** What is read as a number, wherever it stands, is a number of this grammar. */
  lemma NumberIsForm(s: Text, o: nat) returns (l: Loose)
    requires o < |s| && (s[o] == MINUS || IsDigit(s[o])) && NumberAt(s, o).Done?
    ensures var r := NumberAt(s, o);
            r.offset <= |s| && LooseOk(l) && LooseText(l) == s[o..r.offset] && r.value == Number(LooseValue(l))
  {
    hide StrToD, RunEnd, IsNumberByte, IsDigit, LooseOk, LooseText, LooseValue;
    var run := s[o..RunEnd(s, o)];
    var used := StrToD(run).1;
    StrToDCut(run);
    RunCut(s, o, used);
    l := NumberTaken(s[o..o + used]);
  }

  lemma RunCut(s: Text, o: nat, used: nat)
    requires o < |s| && 0 < used <= RunEnd(s, o) - o
    ensures var t := s[o..o + used]; t == s[o..RunEnd(s, o)][..used] && t[0] == s[o]
  {
  }

  // ---- String literals -------------------------------------------------------------------

  /** `t` is `s` from `o` up to behind the quote at `end`. */
  predicate Part(s: Text, o: nat, end: nat, t: Text) { o <= end < |s| && t == s[o..end + 1] }

  lemma {:induction false} ScanEndCut(s: Text, o: nat, end: nat, t: Text, i: nat)
    requires Part(s, o, end, t) && o <= i && ScanEnd(s, i) == Some(end)
    ensures ScanEnd(t, i - o) == Some(end - o)
    decreases |s| - i
  {
    if s[i] != QUOTE {
      if s[i] == BACKSLASH { ScanEndCut(s, o, end, t, i + 2); } else { ScanEndCut(s, o, end, t, i + 1); }
    }
  }

  lemma Hex4Cut(s: Text, o: nat, end: nat, t: Text, i: nat)
    requires Part(s, o, end, t) && o <= i && i + 4 <= end + 1
    ensures Hex4(t, i - o) == Hex4(s, i)
  {
  }

  lemma TokenCut(s: Text, o: nat, end: nat, t: Text, i: nat)
    requires Part(s, o, end, t) && o <= i < end
    ensures TokenAt(t, i - o, end - o) == TokenAt(s, i, end)
  {
    hide LiteralToken, Hex4;
    assert t[i - o] == s[i] && t[i + 1 - o] == s[i + 1];
    if end - i >= 6 { Hex4Cut(s, o, end, t, i + 2); }
    if end - i >= 12 {
      Hex4Cut(s, o, end, t, i + 8);
      assert t[i + 6 - o] == s[i + 6] && t[i + 7 - o] == s[i + 7];
    }
  }

  lemma {:induction false} DecodeCut(s: Text, o: nat, end: nat, t: Text, i: nat)
    requires Part(s, o, end, t) && o <= i
    ensures end - o < |t| && Decode(t, i - o, end - o) == Decode(s, i, end)
    decreases if i < end then end - i else 0
  {
    hide TokenAt, Prepend;
    assert |t| == end + 1 - o && end < |s|;
    if i < end {
      TokenCut(s, o, end, t, i);
      var token := TokenAt(s, i, end);
      if token.Token? { DecodeCut(s, o, end, t, i + token.length); }
      hide Part;
    }
  }

  /** The two passes look at nothing but the literal. */
  lemma LiteralIsForm(s: Text, o: nat)
    requires o < |s| && StringAt(s, o).Some?
    ensures var r := StringAt(s, o).value;
            && o + 2 <= r.1 <= |s| && LiteralOk(s[o..r.1]) && StringAt(s[o..r.1], 0).value.0 == r.0
  {
    hide Decode, ScanEnd, CString;
    var end := ScanEnd(s, o + 1).value;
    var t := s[o..end + 1];
    ScanEndCut(s, o, end, t, o + 1);
    DecodeCut(s, o, end, t, o + 1);
    assert t[0] == QUOTE;
  }

  // ---- Values ----------------------------------------------------------------------------

  lemma WordIsForm(s: Text, o: nat, depth: nat) returns (f: Form)
    requires o <= |s| && ValueAt(s, o, depth).Done?
    requires CanRead(s, o, NULL_WORD) || CanRead(s, o, FALSE_WORD) || CanRead(s, o, TRUE_WORD)
    ensures FormOk(f) && FormText(f) == s[o..ValueAt(s, o, depth).offset] && FormValue(f) == ValueAt(s, o, depth).value
  {
    f := WordForm(ValueAt(s, o, depth).value);
  }

  /** The cases of `parse_value`. */
  lemma ValueCases(s: Text, o: nat, depth: nat)
    requires o <= |s| && ValueAt(s, o, depth).Done?
    requires !CanRead(s, o, NULL_WORD) && !CanRead(s, o, FALSE_WORD) && !CanRead(s, o, TRUE_WORD)
    ensures o < |s| && (s[o] == QUOTE || s[o] == MINUS || IsDigit(s[o]) || s[o] == OPEN_BRACKET || s[o] == OPEN_BRACE)
    ensures ValueAt(s, o, depth) ==
            if s[o] == QUOTE then Done(Str(StringAt(s, o).value.0), StringAt(s, o).value.1)
            else if s[o] == MINUS || IsDigit(s[o]) then NumberAt(s, o)
            else if s[o] == OPEN_BRACKET then ArrayAt(s, o, depth) else ObjectAt(s, o, depth)
    ensures s[o] == QUOTE ==> StringAt(s, o).Some?
  {
    hide CanRead, StringAt, NumberAt, ArrayAt, ObjectAt;
  }

  /** Whatever the parser accepts is the text of a lenient form that stands for the same value. */
  lemma {:induction false} ValueIsForm(s: Text, o: nat, depth: nat) returns (f: Form)
    requires o <= |s| && ValueAt(s, o, depth).Done?
    ensures var r := ValueAt(s, o, depth);
            r.offset <= |s| && FormOk(f) && FormText(f) == s[o..r.offset] && FormValue(f) == r.value
    decreases |s| - o, 1
  {
    if CanRead(s, o, NULL_WORD) || CanRead(s, o, FALSE_WORD) || CanRead(s, o, TRUE_WORD) {
      f := WordIsForm(s, o, depth);
    } else {
      ValueCases(s, o, depth);
      hide ValueAt, CanRead, StringAt, NumberAt, ArrayAt, ObjectAt, LiteralOk, LooseOk, LooseText, LooseValue;
      if s[o] == QUOTE {
        LiteralIsForm(s, o);
        f := StringForm(s[o..StringAt(s, o).value.1]);
      } else if s[o] == MINUS || IsDigit(s[o]) {
        var l := NumberIsForm(s, o);
        f := NumberForm(l);
      } else if s[o] == OPEN_BRACKET {
        f := ArrayIsForm(s, o, depth);
      } else {
        f := ObjectIsForm(s, o, depth);
      }
    }
  }

  /** Three and more stretches of the same text. */
  lemma Joined(s: Text, a: nat, b: nat, c: nat)
    requires a <= b <= c <= |s|
    ensures s[a..b] + s[b..c] == s[a..c]
  {
  }

  lemma ByteJoined(s: Text, a: nat, b: byte, c: nat)
    requires a < c <= |s| && s[a] == b
    ensures [b] + s[a + 1..c] == s[a..c]
  {
  }

  lemma {:induction false} ArrayIsForm(s: Text, o: nat, depth: nat) returns (f: Form)
    requires o < |s| && s[o] == OPEN_BRACKET && ArrayAt(s, o, depth).Done?
    ensures var r := ArrayAt(s, o, depth);
            r.offset <= |s| && FormOk(f) && FormText(f) == s[o..r.offset] && FormValue(f) == r.value
    decreases |s| - o, 0
  {
    hide SkipBlank, Blank, ItemsAt;
    var r, first := ArrayAt(s, o, depth), SkipBlank(s, o + 1);
    SkippedBlank(s, o + 1);
    var pad := s[o + 1..first];
    Joined(s, o + 1, first, r.offset);
    ByteJoined(s, o, OPEN_BRACKET, r.offset);
    if s[first] == CLOSE_BRACKET {
      assert s[first..first + 1] == [CLOSE_BRACKET];
      f := ListForm(pad, []);
    } else {
      var es := ItemsAreForms(s, first, depth + 1);
      hide ElementsText, ElementsOk, ElementsValue;
      f := ListForm(pad, es);
    }
  }

  /** One element with the blanks around it. */
  lemma {:induction false} ItemIsForm(s: Text, o: nat, depth: nat) returns (p: Padded)
    requires o <= |s| && ItemAt(s, o, depth).Done?
    ensures var r := ItemAt(s, o, depth);
            o <= r.offset < |s| && PaddedOk(p) && FormOk(p.form) && PaddedText(p) == s[o..r.offset]
                && FormValue(p.form) == r.value
    decreases |s| - o, 2
  {
    ItemParts(s, o, depth);
    var a := SkipBlank(s, o);
    var v := ValueAt(s, a, depth);
    var e := ItemAt(s, o, depth).offset;
    assert e == SkipBlank(s, v.offset);
    hide SkipBlank, ValueAt, Blank, FormOk, FormText, FormValue, ItemAt;
    SkippedBlank(s, o);
    SkippedBlank(s, v.offset);
    var f := ValueIsForm(s, a, depth);
    p := Padded(s[o..a], f, s[v.offset..e]);
    Joined(s, a, v.offset, e);
    Joined(s, o, a, e);
  }

  lemma {:induction false} ItemsAreForms(s: Text, o: nat, depth: nat) returns (es: seq<Padded>)
    requires o <= |s| && ItemsAt(s, o, depth).Done?
    ensures var r := ItemsAt(s, o, depth);
            && o <= r.offset <= |s| && es != [] && ElementsOk(es)
            && ElementsText(es) == s[o..r.offset] && ElementsValue(es) == r.value
    decreases |s| - o, 3
  {
    hide ItemAt, FormOk, FormText, FormValue, PaddedText, PaddedOk;
    var r, v := ItemsAt(s, o, depth), ItemAt(s, o, depth);
    var p := ItemIsForm(s, o, depth);
    Joined(s, o, v.offset, r.offset);
    if s[v.offset] == COMMA {
      var more := ItemsAreForms(s, v.offset + 1, depth);
      ByteJoined(s, v.offset, COMMA, r.offset);
      es := [p] + more;
      ConsElements(p, more);
    } else {
      assert s[v.offset..v.offset + 1] == [CLOSE_BRACKET];
      es := [p];
      assert es[1..] == [];
    }
  }

  lemma ConsElements(p: Padded, more: seq<Padded>)
    requires PaddedOk(p) && FormOk(p.form) && more != [] && ElementsOk(more)
    ensures ElementsOk([p] + more) && ElementsText([p] + more) == PaddedText(p) + ([COMMA] + ElementsText(more))
    ensures ElementsValue([p] + more) == [FormValue(p.form)] + ElementsValue(more)
  {
    hide FormOk, FormText, FormValue, PaddedText, PaddedOk;
    assert ([p] + more)[0] == p && ([p] + more)[1..] == more;
  }

  lemma {:induction false} ObjectIsForm(s: Text, o: nat, depth: nat) returns (f: Form)
    requires o < |s| && s[o] == OPEN_BRACE && ObjectAt(s, o, depth).Done?
    ensures var r := ObjectAt(s, o, depth);
            r.offset <= |s| && FormOk(f) && FormText(f) == s[o..r.offset] && FormValue(f) == r.value
    decreases |s| - o, 0
  {
    hide SkipBlank, Blank, MembersAt;
    var r, first := ObjectAt(s, o, depth), SkipBlank(s, o + 1);
    SkippedBlank(s, o + 1);
    var pad := s[o + 1..first];
    Joined(s, o + 1, first, r.offset);
    ByteJoined(s, o, OPEN_BRACE, r.offset);
    if s[first] == CLOSE_BRACE {
      assert s[first..first + 1] == [CLOSE_BRACE];
      f := RecordForm(pad, []);
    } else {
      var es := MembersAreForms(s, first, depth + 1);
      hide EntriesText, EntriesOk, EntriesValue;
      f := RecordForm(pad, es);
    }
  }

  /** Where the key and the colon of a member stand. */
  lemma KeyParts(s: Text, o: nat)
    requires o <= |s| && KeyAt(s, o).Done?
    ensures var k := SkipBlank(s, o);
            && o <= k < |s| && StringAt(s, k).Some? && KeyAt(s, o).value == StringAt(s, k).value.0
            && StringAt(s, k).value.1 <= |s| && KeyAt(s, o).offset == SkipBlank(s, StringAt(s, k).value.1)
            && KeyAt(s, o).offset < |s| && s[KeyAt(s, o).offset] == COLON
  {
    hide StringAt;
  }

  lemma {:induction false} MemberIsForm(s: Text, o: nat, depth: nat) returns (e: Entry)
    requires o <= |s| && MemberAt(s, o, depth).Done?
    ensures var r := MemberAt(s, o, depth);
            && o <= r.offset < |s| && EntryOk(e) && LiteralOk(e.key) && PaddedOk(e.padded) && FormOk(e.padded.form)
            && EntryText(e) == s[o..r.offset]
            && r.value == Member(StringAt(e.key, 0).value.0, FormValue(e.padded.form))
    decreases |s| - o, 3
  {
    var r, key := MemberAt(s, o, depth), KeyAt(s, o);
    KeyParts(s, o);
    var k, c := SkipBlank(s, o), key.offset;
    var q := StringAt(s, k).value.1;
    assert ItemAt(s, c + 1, depth).Done? && r.offset == ItemAt(s, c + 1, depth).offset;
    assert r.value == Member(key.value, ItemAt(s, c + 1, depth).value);
    SkippedBlank(s, o);
    SkippedBlank(s, q);
    LiteralIsForm(s, k);
    hide SkipBlank, Blank, StringAt, LiteralOk, KeyAt, MemberAt, ItemAt, FormOk, FormText, FormValue, PaddedText,
        PaddedOk;
    var p := ItemIsForm(s, c + 1, depth);
    e := Entry(s[o..k], s[k..q], s[q..c], p);
    ByteJoined(s, c, COLON, r.offset);
    Joined(s, q, c, r.offset);
    Joined(s, k, q, r.offset);
    Joined(s, o, k, r.offset);
  }

  lemma {:induction false} MembersAreForms(s: Text, o: nat, depth: nat) returns (es: seq<Entry>)
    requires o <= |s| && MembersAt(s, o, depth).Done?
    ensures var r := MembersAt(s, o, depth);
            && o <= r.offset <= |s| && es != [] && EntriesOk(es)
            && EntriesText(es) == s[o..r.offset] && EntriesValue(es) == r.value
    decreases |s| - o, 4
  {
    hide MemberAt, FormOk, FormText, FormValue, EntryText, PaddedOk, EntryOk, LiteralOk, StringAt;
    var r, m := MembersAt(s, o, depth), MemberAt(s, o, depth);
    var e := MemberIsForm(s, o, depth);
    Joined(s, o, m.offset, r.offset);
    if s[m.offset] == COMMA {
      var more := MembersAreForms(s, m.offset + 1, depth);
      ByteJoined(s, m.offset, COMMA, r.offset);
      es := [e] + more;
      ConsEntries(e, more);
    } else {
      assert s[m.offset..m.offset + 1] == [CLOSE_BRACE];
      es := [e];
      OneEntry(e);
    }
  }

  lemma OneEntry(e: Entry)
    requires EntryOk(e) && LiteralOk(e.key) && PaddedOk(e.padded) && FormOk(e.padded.form)
    ensures EntriesOk([e]) && EntriesText([e]) == EntryText(e) + [CLOSE_BRACE]
    ensures EntriesValue([e]) == [Member(StringAt(e.key, 0).value.0, FormValue(e.padded.form))]
  {
    hide FormOk, FormText, FormValue, EntryText, PaddedOk, EntryOk, LiteralOk, StringAt;
    assert [e][1..] == [];
  }

  lemma ConsEntries(e: Entry, more: seq<Entry>)
    requires EntryOk(e) && LiteralOk(e.key) && PaddedOk(e.padded) && FormOk(e.padded.form) && more != []
          && EntriesOk(more)
    ensures EntriesOk([e] + more) && EntriesText([e] + more) == EntryText(e) + ([COMMA] + EntriesText(more))
    ensures EntriesValue([e] + more)
         == [Member(StringAt(e.key, 0).value.0, FormValue(e.padded.form))] + EntriesValue(more)
  {
    hide FormOk, FormText, FormValue, EntryText, PaddedOk, EntryOk, LiteralOk, StringAt;
    assert ([e] + more)[0] == e && ([e] + more)[1..] == more;
  }

  /** Every text that `cJSON_Parse` accepts is an optional byte order mark, blanks, a lenient form and
      anything behind it, and the value is that of the form. */
  lemma DocumentIsForm(text: Text)
    requires Parse(text).Done?
    ensures exists mark: Text, before: Text, f: Form, rest: Text ::
              && (mark == [] || mark == BOM) && Blank(before) && FormOk(f) && FormValue(f) == Parse(text).value
              && CString(text) + [NUL] == mark + (before + (FormText(f) + rest))
              && |mark + before + FormText(f)| == Parse(text).offset
  {
    hide ValueAt, SkipBlank, Blank, FormOk, FormText, FormValue, CString;
    var s := CString(text) + [NUL];
    var m := SkipBom(s);
    var o := SkipBlank(s, m);
    var r := ValueAt(s, o, 0);
    SkippedBlank(s, m);
    var f := ValueIsForm(s, o, 0);
    var mark, before, rest := s[..m], s[m..o], s[r.offset..];
    assert s == s[..m] + (s[m..o] + (s[o..r.offset] + s[r.offset..]));
    assert mark == [] || mark == BOM;
  }
}
