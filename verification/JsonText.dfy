/**
 The text that the printer of src/core/cJSON.c renders, compact or formatted, and the round
 trip: parsing that text gives back the value.
 */
module JsonText {
  import opened Bytes
  import opened Options
  import opened Utf
  import opened JsonValue
  import opened JsonParse
  import opened JsonSyntax
  import opened JsonNumber
  import opened JsonAccepts

  // ---- What is printed -------------------------------------------------------------------

  /** "u%04x" of a control character, without the letter. */
  function ControlHex(b: byte): Text
    requires b < 32
  {
    [ZERO, ZERO, HexDigit(b / 16), HexDigit(b % 16)]
  }

  /** The letter that follows the backslash of a one-letter escape. */
  function ShortLetter(b: byte): Option<byte> {
    if b == QUOTE || b == BACKSLASH then Some(b)
    else if b == BACKSPACE then Some(LOWER_B)
    else if b == FORM_FEED then Some(LOWER_F)
    else if b == NEWLINE then Some(LOWER_N)
    else if b == RETURN then Some(LOWER_R)
    else if b == TAB then Some(LOWER_T)
    else None
  }

  function PrintByte(b: byte): (t: Text)
    ensures t != []
  {
    if ShortLetter(b).Some? then [BACKSLASH, ShortLetter(b).value]
    else if b < 32 then [BACKSLASH, LOWER_U] + ControlHex(b)
    else [b]
  }

  function PrintBytes(s: Text): Text {
    if s == [] then [] else PrintByte(s[0]) + PrintBytes(s[1..])
  }

  function PrintString(s: Text): Text { [QUOTE] + PrintBytes(s) + [QUOTE] }

  function Tabs(n: nat): Text { seq(n, _ => TAB) }

  function IfFormat(format: bool, t: Text): Text { if format then t else [] }

  /** `print_value` with the buffer at nesting depth `d`. */
  function PrintValue(v: Value, format: bool, d: nat): Text
    requires Printable(v)
  {
    match v
    case Null => NULL_WORD
    case False => FALSE_WORD
    case True => TRUE_WORD
    case Number(x) => IntText(x.Floor)
    case Str(s) => PrintString(s)
    case Array(items) => [OPEN_BRACKET] + PrintItems(items, format, d + 1)
    case Object(members) =>
      [OPEN_BRACE] + IfFormat(format, [NEWLINE]) + PrintMembers(members, format, d + 1)
  }

  function ItemSeparator(format: bool): Text { [COMMA] + IfFormat(format, [SPACE]) }

  /** The elements still to come, and the closing bracket. */
  function PrintItems(items: seq<Value>, format: bool, d: nat): Text
    requires ItemsPrintable(items)
  {
    if items == [] then [CLOSE_BRACKET]
    else
      PrintValue(items[0], format, d)
      + ((if |items| == 1 then [] else ItemSeparator(format)) + PrintItems(items[1..], format, d))
  }

  function MemberHead(key: Text, format: bool, d: nat): Text {
    IfFormat(format, Tabs(d)) + (PrintString(key) + ([COLON] + IfFormat(format, [TAB])))
  }

  function MemberTail(last: bool, format: bool): Text {
    (if last then [] else [COMMA]) + IfFormat(format, [NEWLINE])
  }

  /** The members still to come, and the closing brace. */
  function PrintMembers(members: seq<Member>, format: bool, d: nat): Text
    requires MembersPrintable(members) && d > 0
  {
    if members == [] then IfFormat(format, Tabs(d - 1)) + [CLOSE_BRACE]
    else
      MemberHead(members[0].key, format, d)
      + (PrintValue(members[0].value, format, d)
         + (MemberTail(|members| == 1, format) + PrintMembers(members[1..], format, d)))
  }

  // ---- Its grammar -----------------------------------------------------------------------

  function CharOf(b: byte): Char {
    if ShortLetter(b).Some? then Short(ShortLetter(b).value)
    else if b < 32 then Escape(b, LOWER_CASE)
    else Plain(b)
  }

  function CharsOf(s: Text): seq<Char> {
    if s == [] then [] else [CharOf(s[0])] + CharsOf(s[1..])
  }

  lemma CharOfRight(b: byte)
    ensures CharOk(CharOf(b)) && CharText(CharOf(b)) == PrintByte(b) && CharBytes(CharOf(b)) == [b]
  {
    if ShortLetter(b).None? && b < 32 {
      assert LOWER_CASE[..4] == [false, false, false, false];
      assert ControlHex(b) == UnitText(b, LOWER_CASE[..4]);
    }
  }

  lemma {:induction false} CharsOfRight(s: Text)
    ensures CharsOk(CharsOf(s)) && CharsText(CharsOf(s)) == PrintBytes(s) && CharsBytes(CharsOf(s)) == s
  {
    hide CharOk, CharText, CharBytes, CharOf, PrintByte, CharsOk, CharsText, CharsBytes;
    if s == [] {
      NoChars();
    } else {
      var c, cs := CharOf(s[0]), CharsOf(s[1..]);
      assert CharsOf(s) == [c] + cs && PrintBytes(s) == PrintByte(s[0]) + PrintBytes(s[1..]);
      hide CharsOf, PrintBytes;
      CharOfRight(s[0]);
      CharsOfRight(s[1..]);
      CharsJoin(c, cs);
      assert [s[0]] + s[1..] == s;
    }
  }

  lemma NoChars()
    ensures CharsOk([]) && CharsText([]) == CharsBytes([]) == []
  {
  }

  lemma CharsJoin(c: Char, cs: seq<Char>)
    requires CharOk(c) && CharsOk(cs)
    ensures CharsOk([c] + cs)
    ensures CharsText([c] + cs) == CharText(c) + CharsText(cs) && CharsBytes([c] + cs) == CharBytes(c) + CharsBytes(cs)
  {
    hide CharOk, CharText, CharBytes;
    assert ([c] + cs)[0] == c && ([c] + cs)[1..] == cs;
  }

  function NumeralOf(n: int): Numeral {
    Numeral(n < 0, NatText(if n < 0 then -n else n), [], NoExponent)
  }

  lemma NumeralOfRight(n: int)
    ensures NumeralOk(NumeralOf(n)) && NumeralText(NumeralOf(n)) == IntText(n)
    ensures NumeralValue(NumeralOf(n)) == n as real
  {
    var m := NumeralOf(n);
    NatTextValue(if n < 0 then -n else n);
    WholeNumber(m.neg, m.whole, n);
    hide DecimalValue, NatText, DigitsValue;
  }

  /** The printed layout of a value, as a tree of the grammar. */
  function Layout(v: Value, format: bool, d: nat): Tree
    requires Printable(v)
  {
    match v
    case Null => TreeNull
    case False => TreeFalse
    case True => TreeTrue
    case Number(x) => TreeNumber(NumeralOf(x.Floor))
    case Str(s) => TreeString(CharsOf(s))
    case Array(items) => TreeArray([], CellsOf(items, [], format, d + 1))
    case Object(members) =>
      TreeObject(IfFormat(format, [NEWLINE] + Tabs(d)), FieldsOf(members, format, d + 1))
  }

  function CellsOf(items: seq<Value>, before: Text, format: bool, d: nat): (r: seq<Cell>)
    requires ItemsPrintable(items)
    ensures |r| == |items|
  {
    if items == [] then []
    else [Cell(before, Layout(items[0], format, d), [])] + CellsOf(items[1..], IfFormat(format, [SPACE]), format, d)
  }

  /** The tree of one member, with the blanks after it when it is the last. */
  function FieldOf(m: Member, last: bool, format: bool, d: nat): Field
    requires Printable(m.value) && d > 0
  {
    var after := if last then IfFormat(format, [NEWLINE]) + IfFormat(format, Tabs(d - 1)) else [];
    Field(IfFormat(format, [NEWLINE]) + IfFormat(format, Tabs(d)), CharsOf(m.key), [],
          Cell(IfFormat(format, [TAB]), Layout(m.value, format, d), after))
  }

  function FieldsOf(members: seq<Member>, format: bool, d: nat): (r: seq<Field>)
    requires MembersPrintable(members) && d > 0
    ensures |r| == |members|
  {
    if members == [] then []
    else [FieldOf(members[0], |members| == 1, format, d)] + FieldsOf(members[1..], format, d)
  }

  /** The layout is well formed, spells exactly what is printed, and stands for the value. */
  lemma {:induction false} LayoutRight(v: Value, format: bool, d: nat)
    requires Printable(v)
    ensures TreeOk(Layout(v, format, d)) && TreeValue(Layout(v, format, d)) == v
    ensures TreeText(Layout(v, format, d)) == PrintValue(v, format, d)
    decreases v, 0
  {
    hide CharsOf, CharsOk, CharsText, CharsBytes, PrintBytes, CString, NulFree, NumeralOk, NumeralText, NumeralValue,
        IntText,
         CellsOf, CellsOk, CellsValue, FieldsOf, FieldsOk, FieldsValue;
    match v
    case Number(x) => NumeralOfRight(x.Floor);
    case Str(s) =>
      CharsOfRight(s);
      CStringOfNulFree(s);
    case Array(items) =>
      CellsRight(items, [], format, d + 1);
      assert items == [] ==> CellsOf(items, [], format, d + 1) == [];
      assert [] + PrintItems(items, format, d + 1) == PrintItems(items, format, d + 1);
    case Object(members) => ObjectRight(members, format, d);
    case _ =>
  }

  /** How the bytes of one element and of those after it fall together. */
  lemma CellsRegroup(before: Text, text: Text, space: Text, rest: Text)
    ensures before + (text + []) + ([COMMA] + (space + rest)) == before + (text + ([COMMA] + space + rest))
    ensures before + (text + []) + [CLOSE_BRACKET] == before + (text + ([] + [CLOSE_BRACKET]))
  {
    assert before + (text + []) + ([COMMA] + (space + rest)) == before + text + [COMMA] + space + rest;
    assert before + (text + []) + [CLOSE_BRACKET] == before + text + [CLOSE_BRACKET];
  }

  lemma {:induction false} CellsRight(items: seq<Value>, before: Text, format: bool, d: nat)
    requires ItemsPrintable(items) && Blank(before)
    ensures var cells := CellsOf(items, before, format, d);
            && CellsOk(cells) && CellsValue(cells) == items
            && (items != [] ==> CellsText(cells) == before + PrintItems(items, format, d))
    decreases items, 0
  {
    if items != [] {
      hide Printable, TreeOk, TreeText, TreeValue, Layout, PrintValue;
      var cells := CellsOf(items, before, format, d);
      var space := IfFormat(format, [SPACE]);
      LayoutRight(items[0], format, d);
      CellsRight(items[1..], space, format, d);
      var rest := CellsOf(items[1..], space, format, d);
      assert cells[0] == Cell(before, Layout(items[0], format, d), []) && cells[1..] == rest;
      assert CellOk(cells[0]);
      assert CellsValue(cells) == [items[0]] + items[1..];
      CellsRegroup(before, PrintValue(items[0], format, d), space, PrintItems(items[1..], format, d));
      assert |items| == 1 ==> items[1..] == [];
    }
  }

  lemma {:induction false} ObjectRight(members: seq<Member>, format: bool, d: nat)
    requires MembersPrintable(members)
    ensures var v := Object(members);
            && TreeOk(Layout(v, format, d)) && TreeValue(Layout(v, format, d)) == v
            && TreeText(Layout(v, format, d)) == PrintValue(v, format, d)
    decreases members, 1
  {
    hide FieldsOf, FieldsOk, FieldsValue, FieldsText;
    FieldsRight(members, format, d + 1);
    TabsBlank(d);
    var newline, rest := IfFormat(format, [NEWLINE]), PrintMembers(members, format, d + 1);
    assert [OPEN_BRACE] + newline + rest == [OPEN_BRACE] + (newline + rest);
    if members == [] {
      var tabs := IfFormat(format, Tabs(d));
      assert IfFormat(format, [NEWLINE] + Tabs(d)) == newline + tabs;
      assert newline + tabs + [CLOSE_BRACE] == newline + (tabs + [CLOSE_BRACE]);
      assert FieldsOf(members, format, d + 1) == [];
      assert FieldsValue([]) == [];
    }
  }

  lemma TabsBlank(d: nat)
    ensures Blank(Tabs(d)) && Blank([NEWLINE] + Tabs(d))
  {
  }

  /** How the bytes of one member and of those after it fall together. */
  lemma FieldRegroup(newline: Text, tabs: Text, key: Text, tab: Text, text: Text, outer: Text, rest: Text)
    ensures var head := tabs + (key + ([COLON] + tab));
            && newline + tabs + (key + ([] + ([COLON] + (tab + (text + []))))) + ([COMMA] + (newline + rest))
               == newline + (head + (text + ([COMMA] + newline + rest)))
            && newline + tabs + (key + ([] + ([COLON] + (tab + (text + (newline + outer)))))) + [CLOSE_BRACE]
               == newline + (head + (text + ([] + newline + (outer + [CLOSE_BRACE]))))
  {
    assert newline + tabs + (key + ([] + ([COLON] + (tab + (text + []))))) + ([COMMA] + (newline + rest))
        == newline + tabs + key + [COLON] + tab + text + [COMMA] + newline + rest;
    assert newline + tabs + (key + ([] + ([COLON] + (tab + (text + (newline + outer)))))) + [CLOSE_BRACE]
        == newline + tabs + key + [COLON] + tab + text + newline + outer + [CLOSE_BRACE];
  }

  lemma {:induction false} FieldRight(m: Member, last: bool, format: bool, d: nat)
    requires NulFree(m.key) && Printable(m.value) && d > 0
    ensures var f := FieldOf(m, last, format, d);
            && FieldOk(f) && CellOk(f.cell)
            && CharsText(f.key) == PrintBytes(m.key) && CString(CharsBytes(f.key)) == m.key
            && TreeValue(f.cell.tree) == m.value && TreeText(f.cell.tree) == PrintValue(m.value, format, d)
    decreases m
  {
    LayoutRight(m.value, format, d);
    CharsOfRight(m.key);
    CStringOfNulFree(m.key);
    TabsBlank(d);
    TabsBlank(d - 1);
  }

  lemma {:induction false} FieldsRight(members: seq<Member>, format: bool, d: nat)
    requires MembersPrintable(members) && d > 0
    ensures var fields := FieldsOf(members, format, d);
            && FieldsOk(fields) && FieldsValue(fields) == members
            && (members != [] ==> FieldsText(fields) == IfFormat(format, [NEWLINE]) + PrintMembers(members, format, d))
    decreases members, 0
  {
    if members != [] {
      var m, last := members[0], |members| == 1;
      FieldRight(m, last, format, d);
      FieldsRight(members[1..], format, d);
      FieldsJoin(members, format, d);
      hide FieldsValue, FieldsOk, PrintMembers, FieldsText, FieldsOf, FieldOf, Printable, TreeText, PrintValue,
          CharsText, PrintBytes, FieldOk;
      FieldsTextRight(members, format, d);
    }
  }

  lemma FieldsJoin(members: seq<Member>, format: bool, d: nat)
    requires members != [] && MembersPrintable(members) && d > 0
    requires var f := FieldOf(members[0], |members| == 1, format, d);
             FieldOk(f) && FieldsValue([f]) == [members[0]]
    requires var rest := FieldsOf(members[1..], format, d); FieldsOk(rest) && FieldsValue(rest) == members[1..]
    ensures var fields := FieldsOf(members, format, d); FieldsOk(fields) && FieldsValue(fields) == members
  {
    hide Printable, TreeOk, TreeText, TreeValue, Layout, CharsOf, CharsOk, CharsText, CharsBytes, CString, FieldOk,
        FieldOf, NulFree;
    var fields := FieldsOf(members, format, d);
    var f := FieldOf(members[0], |members| == 1, format, d);
    assert fields[0] == f && fields[1..] == FieldsOf(members[1..], format, d);
    assert [f][1..] == [] && FieldsValue([f])[0] == members[0];
    assert FieldsValue(fields) == [members[0]] + members[1..];
  }

  lemma FieldsTextRight(members: seq<Member>, format: bool, d: nat)
    requires members != [] && MembersPrintable(members) && d > 0
    requires var m := members[0];
             var f := FieldOf(m, |members| == 1, format, d);
             && CharsText(f.key) == PrintBytes(m.key) && TreeText(f.cell.tree) == PrintValue(m.value, format, d)
    requires var rest := members[1..];
             rest != [] ==>
               FieldsText(FieldsOf(rest, format, d)) == IfFormat(format, [NEWLINE]) + PrintMembers(rest, format, d)
    ensures FieldsText(FieldsOf(members, format, d)) == IfFormat(format, [NEWLINE]) + PrintMembers(members, format, d)
  {
    hide Printable, TreeText, Layout, PrintValue, PrintBytes, CharsOf, CharsText, Tabs, IfFormat;
    var fields := FieldsOf(members, format, d);
    var m, last := members[0], |members| == 1;
    assert fields[0] == FieldOf(m, last, format, d) && fields[1..] == FieldsOf(members[1..], format, d);
    FieldRegroup(IfFormat(format, [NEWLINE]), IfFormat(format, Tabs(d)), PrintString(m.key), IfFormat(format, [TAB]),
                 PrintValue(m.value, format, d), IfFormat(format, Tabs(d - 1)), PrintMembers(members[1..], format, d));
    if last {
      assert members[1..] == [];
      assert PrintMembers(members[1..], format, d) == IfFormat(format, Tabs(d - 1)) + [CLOSE_BRACE];
      assert FieldsText(fields) == FieldText(fields[0]) + [CLOSE_BRACE];
    } else {
      var newline := IfFormat(format, [NEWLINE]);
      assert StringText(fields[0].key) == PrintString(m.key);
      assert fields[0].cell.after == [];
      assert CellText(fields[0].cell) == IfFormat(format, [TAB]) + (PrintValue(m.value, format, d) + []);
      assert FieldText(fields[0]) == newline + IfFormat(format, Tabs(d))
          + (PrintString(m.key) + ([] + ([COLON] + CellText(fields[0].cell))));
      var rest := PrintMembers(members[1..], format, d);
      assert |members[1..]| > 0;
      assert FieldsText(fields[1..]) == newline + rest;
      assert MemberTail(last, format) == [COMMA] + newline;
      assert PrintMembers(members, format, d)
          == MemberHead(m.key, format, d) + (PrintValue(m.value, format, d) + ([COMMA] + newline + rest));
      assert FieldsText(fields) == FieldText(fields[0]) + ([COMMA] + FieldsText(fields[1..]));
    }
  }

  // ---- The round trip --------------------------------------------------------------------

  lemma {:induction false} PrintedBytes(s: Text)
    requires NulFree(s)
    ensures NulFree(PrintBytes(s))
  {
    if s != [] { PrintedBytes(s[1..]); }
  }

  lemma PrintedInt(n: int)
    ensures NulFree(IntText(n)) && IntText(n) != []
  {
  }

  /** Printed text holds no NUL, so it is a C string. */
  lemma {:induction false} PrintedNulFree(v: Value, format: bool, d: nat)
    requires Printable(v)
    ensures NulFree(PrintValue(v, format, d))
    decreases v
  {
    match v
    case Number(x) => PrintedInt(x.Floor);
    case Str(s) => PrintedBytes(s);
    case Array(items) => PrintedItems(items, format, d + 1);
    case Object(members) => PrintedMembers(members, format, d + 1);
    case _ =>
  }

  lemma {:induction false} PrintedItems(items: seq<Value>, format: bool, d: nat)
    requires ItemsPrintable(items)
    ensures NulFree(PrintItems(items, format, d))
    decreases items
  {
    if items != [] {
      PrintedNulFree(items[0], format, d);
      PrintedItems(items[1..], format, d);
    }
  }

  lemma {:induction false} PrintedMembers(members: seq<Member>, format: bool, d: nat)
    requires MembersPrintable(members) && d > 0
    ensures NulFree(PrintMembers(members, format, d))
    decreases members
  {
    if members != [] {
      hide Printable, PrintValue, MemberHead, MemberTail, NulFree;
      var head, text := MemberHead(members[0].key, format, d), PrintValue(members[0].value, format, d);
      var tail, rest := MemberTail(|members| == 1, format), PrintMembers(members[1..], format, d);
      HeadNulFree(members[0].key, format, d);
      TailNulFree(|members| == 1, format);
      PrintedNulFree(members[0].value, format, d);
      PrintedMembers(members[1..], format, d);
      NulFreeJoin(head, text, tail, rest);
    }
  }

  lemma HeadNulFree(key: Text, format: bool, d: nat)
    requires NulFree(key)
    ensures NulFree(MemberHead(key, format, d))
  {
    hide PrintBytes;
    PrintedBytes(key);
    assert NulFree(PrintString(key));
  }

  lemma TailNulFree(last: bool, format: bool)
    ensures NulFree(MemberTail(last, format))
  {
  }

  lemma NulFreeJoin(a: Text, b: Text, c: Text, d: Text)
    requires NulFree(a) && NulFree(b) && NulFree(c) && NulFree(d)
    ensures NulFree(a + (b + (c + d)))
  {
  }

  /** `cJSON_Print` and `cJSON_PrintUnformatted`. */
  function Print(v: Value, format: bool): Text
    requires Printable(v)
  {
    PrintValue(v, format, 0)
  }

  /** Parsing a printed value, compact or formatted, gives back the value and stops exactly at
      the end of the text. */
  lemma RoundTrip(v: Value, format: bool)
    requires Printable(v) && Depth(v) <= NESTING_LIMIT
    ensures Parse(Print(v, format)) == Done(v, |Print(v, format)|)
  {
    hide Printable, PrintValue, TreeOk, TreeValue, TreeText, ValueAt, Layout;
    var text, t := Print(v, format), Layout(v, format, 0);
    PrintedNulFree(v, format, 0);
    CStringOfNulFree(text);
    LayoutRight(v, format, 0);
    TreeStart(t);
    var s := text + [NUL];
    assert s[0..|text|] == text;
    assert s[0] == text[0] > SPACE;
    assert SkipBom(s) == 0 by { PrintedStart(v, format); if 4 < |s| { assert s[..3][0] == s[0]; } }
    assert SkipBlank(s, 0) == 0;
    TreeAccepted(s, 0, t, 0);
  }

  lemma PrintedStart(v: Value, format: bool)
    requires Printable(v)
    ensures Print(v, format) != [] && Print(v, format)[0] < 0x80
  {
    if v.Number? {
      assert IntText(v.number.Floor) != [];
    }
  }

  /** So printing loses nothing: two values that print alike are the same value. */
  lemma PrintInjective(v: Value, w: Value, format: bool)
    requires Printable(v) && Printable(w) && Depth(v) <= NESTING_LIMIT && Depth(w) <= NESTING_LIMIT
    requires Print(v, format) == Print(w, format)
    ensures v == w
  {
    RoundTrip(v, format);
    RoundTrip(w, format);
  }
}
