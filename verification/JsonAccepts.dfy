/**
 The parser accepts every JSON text that nests at most 1000 levels, and reads it as the value
 that the text stands for.
 */
module JsonAccepts {
  import opened Bytes
  import opened Options
  import opened Utf
  import opened JsonValue
  import opened JsonString
  import opened JsonParse
  import opened JsonSyntax
  import opened JsonNumber

  // ---- Strings ---------------------------------------------------------------------------

  /** The first pass steps over an escape without seeing a quote. */
  lemma ScanEscape(s: Text, i: nat)
    requires i + 6 <= |s| && s[i] == BACKSLASH && s[i + 1] == LOWER_U && FourHex(s, i + 2)
    ensures ScanEnd(s, i) == ScanEnd(s, i + 6)
  {
    assert ScanEnd(s, i) == ScanEnd(s, i + 2);
    assert ScanEnd(s, i + 2) == ScanEnd(s, i + 3);
    assert ScanEnd(s, i + 3) == ScanEnd(s, i + 4);
    assert ScanEnd(s, i + 4) == ScanEnd(s, i + 5);
  }

  lemma ScanChar(s: Text, i: nat, c: Char)
    requires CharOk(c) && At(s, i, CharText(c))
    ensures ScanEnd(s, i) == ScanEnd(s, i + |CharText(c)|)
  {
    hide FourHex, Hex4, ScanEnd, At, EscapeText;
    match c
    case Plain(b) =>
      ScanPlain(s, i, b);
    case Short(letter) =>
      ScanShort(s, i, letter);
    case Escape(codepoint, caps) =>
      EscapeUnits(s, i, codepoint, caps);
      assert i + |EscapeText(codepoint, caps)| <= |s| by { AtFits(s, i, EscapeText(codepoint, caps)); }
      ScanEscape(s, i);
      if codepoint >= 0x10000 { ScanEscape(s, i + 6); }
  }

  lemma AtFits(s: Text, i: nat, t: Text)
    requires At(s, i, t)
    ensures i + |t| <= |s|
  {
  }

  lemma ScanPlain(s: Text, i: nat, b: byte)
    requires CharOk(Plain(b)) && At(s, i, [b])
    ensures ScanEnd(s, i) == ScanEnd(s, i + 1)
  {
    assert s[i..i + 1][0] == b;
  }

  lemma ScanShort(s: Text, i: nat, letter: byte)
    requires At(s, i, [BACKSLASH, letter])
    ensures ScanEnd(s, i) == ScanEnd(s, i + 2)
  {
    assert s[i..i + 2][0] == BACKSLASH;
  }

  lemma TokenChar(s: Text, i: nat, c: Char, end: nat)
    requires CharOk(c) && At(s, i, CharText(c)) && i + |CharText(c)| <= end < |s|
    ensures TokenAt(s, i, end) == Token(CharBytes(c), |CharText(c)|)
  {
    hide LiteralAt, EscapeText, Utf8Encode;
    match c
    case Plain(b) =>
      AtByte(s, i, b, []);
    case Short(letter) =>
      AtByte(s, i, BACKSLASH, [letter]);
      AtByte(s, i + 1, letter, []);
    case Escape(codepoint, caps) =>
      EscapeUnits(s, i, codepoint, caps);
      EscapeIsRead(s, i, end, codepoint, caps);
  }

  lemma {:induction false} CharsAt(s: Text, i: nat, cs: seq<Char>)
    requires CharsOk(cs) && At(s, i, CharsText(cs))
    requires i + |CharsText(cs)| < |s| && s[i + |CharsText(cs)|] == QUOTE
    ensures ScanEnd(s, i) == Some(i + |CharsText(cs)|)
    ensures Decode(s, i, i + |CharsText(cs)|) == Some(CharsBytes(cs))
    decreases |cs|
  {
    hide TokenAt, CharOk, CharText, CharBytes, At;
    if cs != [] {
      AtSplit(s, i, CharText(cs[0]), CharsText(cs[1..]));
      ScanChar(s, i, cs[0]);
      TokenChar(s, i, cs[0], i + |CharsText(cs)|);
      CharsAt(s, i + |CharText(cs[0])|, cs[1..]);
    }
  }

  /** Every string literal of the grammar is read as its characters. */
  lemma StringAccepted(s: Text, o: nat, cs: seq<Char>)
    requires CharsOk(cs) && At(s, o, StringText(cs))
    ensures o < |s| && s[o] == QUOTE
    ensures StringAt(s, o) == Some((CString(CharsBytes(cs)), o + |StringText(cs)|))
  {
    hide CharsOk, CharsText, CharsBytes, Decode, ScanEnd, CString, At;
    assert StringText(cs) == [QUOTE] + (CharsText(cs) + [QUOTE]);
    AtByte(s, o, QUOTE, CharsText(cs) + [QUOTE]);
    AtSplit(s, o + 1, CharsText(cs), [QUOTE]);
    AtByte(s, o + 1 + |CharsText(cs)|, QUOTE, []);
    CharsAt(s, o + 1, cs);
  }

  /** Characters in front of what comes next in a body, whatever that is. */
  lemma {:induction false} CharsBefore(s: Text, i: nat, cs: seq<Char>, end: nat)
    requires CharsOk(cs) && At(s, i, CharsText(cs))
    ensures ScanEnd(s, i) == ScanEnd(s, i + |CharsText(cs)|)
    ensures i + |CharsText(cs)| <= end < |s| ==>
              Decode(s, i, end) == Prepend(CharsBytes(cs), Decode(s, i + |CharsText(cs)|, end))
    decreases |cs|
  {
    hide TokenAt, CharOk, CharText, CharBytes, At;
    if cs == [] {
      if end < |s| { PrependTwice([], [], Decode(s, i, end)); }
    } else {
      var first, more := CharText(cs[0]), CharsText(cs[1..]);
      AtSplit(s, i, first, more);
      ScanChar(s, i, cs[0]);
      CharsBefore(s, i + |first|, cs[1..], end);
      if i + |CharsText(cs)| <= end < |s| {
        TokenChar(s, i, cs[0], end);
        PrependTwice(CharBytes(cs[0]), CharsBytes(cs[1..]), Decode(s, i + |CharsText(cs)|, end));
      }
    }
  }

  /** An escape of a surrogate that stands alone or in the wrong order. */
  predicate LoneSurrogate(s: Text, i: nat) {
    && i + 6 <= |s| && s[i] == BACKSLASH && s[i + 1] == LOWER_U && FourHex(s, i + 2)
    && (IsLowSurrogate(Hex4(s, i + 2)) ||
        (IsHighSurrogate(Hex4(s, i + 2))
         && !(i + 12 <= |s| && s[i + 6] == BACKSLASH && s[i + 7] == LOWER_U && IsLowSurrogate(Hex4(s, i + 8)))))
  }

  /** A literal in which, after any characters, such an escape stands is refused as a whole. */
  lemma LoneSurrogateRefused(s: Text, o: nat, cs: seq<Char>)
    requires o < |s| && CharsOk(cs) && At(s, o + 1, CharsText(cs)) && LoneSurrogate(s, o + 1 + |CharsText(cs)|)
    ensures StringAt(s, o).None?
  {
    hide CharsOk, CharsText, CharsBytes, ScanEnd, At, Decode;
    var i, found := o + 1 + |CharsText(cs)|, ScanEnd(s, o + 1);
    if s[o] == QUOTE && found.Some? {
      var end := found.value;
      CharsBefore(s, o + 1, cs, end);
      ScanEscape(s, i);
      DecodeRefused(s, i, end);
    }
  }

  lemma DecodeRefused(s: Text, i: nat, end: nat)
    requires LoneSurrogate(s, i) && i + 6 <= end < |s|
    ensures Decode(s, i, end).None?
  {
    RefusedExactly(s, i, end);
    hide Hex4, FourHex, LiteralAt;
  }

  // ---- Numbers ---------------------------------------------------------------------------

  lemma {:induction false} DigitsEndIs(s: Text, i: nat, j: nat)
    requires i <= j <= |s| && Digits(s[i..j])
    requires j < |s| ==> !IsDigit(s[j])
    ensures DigitsEnd(s, i) == j
    decreases j - i
  {
    if i < j {
      assert s[i..j][0] == s[i];
      assert s[i + 1..j] == s[i..j][1..];
      DigitsEndIs(s, i + 1, j);
    }
  }

  lemma ExponentRead(s: Text, f: nat, e: Exponent)
    requires ExponentOk(e) && f <= |s| && s[f..] == ExponentText(e)
    ensures ExponentAt(s, f) == (ExponentValue(e), |s|)
  {
    if e.Exponent? {
      DigitsArePlaces(e.digits);
      hide DigitsValue, WholeValue, Digits, DigitsEnd;
      var g := f + 1 + |e.sign|;
      ExponentParts(s, f, e);
      DigitsEndIs(s, g, |s|);
      hide ExponentText;
      assert Digits(s[g..|s|]);
      if e.sign == [] { assert IsDigit(e.digits[0]) by { DigitsFirst(e.digits); } }
    }
  }

  lemma DigitsFirst(t: Text)
    requires Digits(t) && t != []
    ensures IsDigit(t[0])
  {
  }

  lemma ExponentParts(s: Text, f: nat, e: Exponent)
    requires e.Exponent? && e.digits != [] && f <= |s| && s[f..] == ExponentText(e)
    ensures var g := f + 1 + |e.sign|;
            && g < |s| && s[f] == e.letter && s[g..|s|] == e.digits
            && s[f + 1] == (if e.sign != [] then e.sign[0] else e.digits[0])
  {
    var t := [e.letter] + e.sign + e.digits;
    assert s[f..] == t && |s| == f + |t|;
    assert t[0] == e.letter && t[1] == (if e.sign != [] then e.sign[0] else e.digits[0]);
    assert t[1 + |e.sign|..] == e.digits;
    assert s[f] == s[f..][0] && s[f + 1] == s[f..][1];
    assert s[f + 1 + |e.sign|..|s|] == s[f..][1 + |e.sign|..];
  }

  /** Where the parts of a number stand in its text, and that no digit follows its runs. */
  lemma LooseParts(l: Loose)
    requires LooseOk(l)
    ensures var s, i := LooseText(l), |SignText(l.neg)|;
            var d := i + |l.whole|;
            var f := d + |PointText(l.point, l.fraction)|;
            && f <= |s| && s != [] && (s[0] == MINUS <==> l.neg)
            && s[i..d] == l.whole && s[d..f] == PointText(l.point, l.fraction) && s[f..] == ExponentText(l.exponent)
            && (d < |s| ==> !IsDigit(s[d]) && (s[d] == DOT <==> l.point)) && (f < |s| ==> !IsDigit(s[f]))
  {
    var a, b, c, e := SignText(l.neg), l.whole, PointText(l.point, l.fraction), ExponentText(l.exponent);
    FourParts(a, b, c, e);
    assert l.point ==> c[0] == DOT;
    assert e != [] ==> !IsDigit(e[0]) && e[0] != DOT;
    assert (b != [] ==> IsDigit(b[0])) && (l.neg ==> a[0] == MINUS);
    hide SignText, PointText, ExponentText;
  }

  lemma FourParts(a: Text, b: Text, c: Text, e: Text)
    requires a != [] || b != []
    ensures var s := a + b + c + e; var d := |a| + |b|; var f := d + |c|;
            && f <= |s| && s != [] && s[0] == (if a == [] then b[0] else a[0])
            && s[|a|..d] == b && s[d..f] == c && s[f..] == e
            && (d < |s| ==> s[d] == if c != [] then c[0] else e[0]) && (f < |s| ==> s[f] == e[0])
  {
  }

  /** `strtod` takes a number whole, and as the number that it stands for. */
  lemma LooseRead(l: Loose)
    requires LooseOk(l)
    ensures StrToD(LooseText(l)) == (LooseValue(l), |LooseText(l)|)
  {
    LooseParts(l);
    PartsRead(LooseText(l), l);
  }

  lemma PartsRead(s: Text, l: Loose)
    requires LooseOk(l) && s != [] && (s[0] == MINUS <==> l.neg)
    requires var i := if l.neg then 1 else 0;
             var d := i + |l.whole|;
             var f := d + |PointText(l.point, l.fraction)|;
             && f <= |s|
             && s[i..d] == l.whole && s[d..f] == PointText(l.point, l.fraction) && s[f..] == ExponentText(l.exponent)
             && (d < |s| ==> !IsDigit(s[d]) && (s[d] == DOT <==> l.point)) && (f < |s| ==> !IsDigit(s[f]))
    ensures StrToD(s) == (LooseValue(l), |s|)
  {
    hide Assemble, DecimalValue, ExponentAt, ExponentText, ExponentValue, DigitsEnd, IsDigit, Digits;
    AssembledRight(l.neg, l.whole, l.fraction, ExponentValue(l.exponent));
    var i := if l.neg then 1 else 0;
    var d := i + |l.whole|;
    var f := d + |PointText(l.point, l.fraction)|;
    DigitsEndIs(s, i, d);
    if l.point {
      assert s[d..f][0] == s[d] && s[d + 1..f] == s[d..f][1..] == l.fraction;
      DigitsEndIs(s, d + 1, f);
    }
    ExponentRead(s, f, l.exponent);
  }

  lemma {:induction false} RunEndIs(s: Text, o: nat, e: nat)
    requires o <= e <= |s| && forall i :: o <= i < e ==> IsNumberByte(s[i])
    requires e < |s| ==> !IsNumberByte(s[e])
    ensures RunEnd(s, o) == e
    decreases e - o
  {
    if o < e { RunEndIs(s, o + 1, e); }
  }

  lemma LooseBytes(l: Loose)
    requires LooseOk(l)
    ensures var t := LooseText(l);
            && t != [] && (t[0] == MINUS || IsDigit(t[0]))
            && forall i :: 0 <= i < |t| ==> IsNumberByte(t[i])
  {
    var t := LooseText(l);
    assert t[0] == if l.neg then MINUS else l.whole[0];
  }

  /** Where a number ends: at a byte that cannot continue it. */
  predicate Ended(s: Text, o: nat) { o < |s| ==> !IsNumberByte(s[o]) }

  /** A number, with or without digits on both sides of the point, is read whole and as its value. */
  lemma LooseAccepted(s: Text, o: nat, l: Loose)
    requires LooseOk(l) && At(s, o, LooseText(l)) && Ended(s, o + |LooseText(l)|)
    ensures o < |s| && (s[o] == MINUS || IsDigit(s[o]))
    ensures NumberAt(s, o) == Done(Number(LooseValue(l)), o + |LooseText(l)|)
  {
    hide StrToD, LooseText, LooseValue, LooseOk;
    var t := LooseText(l);
    LooseBytes(l);
    LooseRead(l);
    forall i | o <= i < o + |t| ensures s[i] == t[i - o] {
      assert s[o..o + |t|][i - o] == s[i];
    }
    RunEndIs(s, o, o + |t|);
  }

  function LooseOf(n: Numeral): Loose { Loose(n.neg, n.whole, n.fraction != [], n.fraction, n.exponent) }

  lemma NumberAccepted(s: Text, o: nat, n: Numeral)
    requires NumeralOk(n) && At(s, o, NumeralText(n)) && Ended(s, o + |NumeralText(n)|)
    ensures o < |s| && (s[o] == MINUS || IsDigit(s[o]))
    ensures NumberAt(s, o) == Done(Number(NumeralValue(n)), o + |NumeralText(n)|)
  {
    LooseAccepted(s, o, LooseOf(n));
  }

  // ---- Blanks ----------------------------------------------------------------------------

  lemma {:induction false} BlankEndIs(s: Text, o: nat, e: nat)
    requires o <= e < |s| && s[e] > SPACE
    requires forall i :: o <= i < e ==> s[i] <= SPACE
    ensures BlankEnd(s, o) == e
    decreases e - o
  {
    if o < e { BlankEndIs(s, o + 1, e); }
  }

  lemma BlankSkipped(s: Text, o: nat, pad: Text)
    requires Blank(pad) && At(s, o, pad) && o + |pad| < |s| && s[o + |pad|] > SPACE
    ensures SkipBlank(s, o) == o + |pad|
  {
    forall i | o <= i < o + |pad| ensures s[i] <= SPACE {
      assert s[o..o + |pad|][i - o] == s[i];
    }
    BlankEndIs(s, o, o + |pad|);
  }

  /** It does not matter whether the blanks before a list were skipped already. */
  lemma SkipTwice(s: Text, o: nat, depth: nat)
    requires o < |s|
    ensures ItemsAt(s, SkipBlank(s, o), depth) == ItemsAt(s, o, depth)
    ensures MembersAt(s, SkipBlank(s, o), depth) == MembersAt(s, o, depth)
  {
    hide ValueAt, StringAt;
    BlankEndIsEnd(s, o);
    var e := SkipBlank(s, o);
    assert SkipBlank(s, e) == e;
    assert KeyAt(s, e) == KeyAt(s, o);
    assert ItemAt(s, e, depth) == ItemAt(s, o, depth);
    assert MemberAt(s, e, depth) == MemberAt(s, o, depth);
  }

  // ---- Values ----------------------------------------------------------------------------

  lemma TreeStart(t: Tree)
    requires TreeOk(t)
    ensures TreeText(t) != [] && SPACE < TreeText(t)[0] < 0x80 && TreeText(t)[0] != CLOSE_BRACKET
  {
    if t.TreeNumber? { LooseBytes(LooseOf(t.numeral)); }
  }

  lemma AfterCell(s: Text, o: nat, pad: Text)
    requires Blank(pad) && At(s, o, pad) && o + |pad| < |s| && s[o + |pad|] in {COMMA, CLOSE_BRACKET, CLOSE_BRACE}
    ensures Ended(s, o) && SkipBlank(s, o) == o + |pad|
  {
    BlankSkipped(s, o, pad);
    if pad != [] { assert s[o..o + |pad|][0] == s[o]; }
  }

  /** The parser's completeness: wherever the text of a tree stands, it is read whole and as the
      value of that tree. */
  lemma {:induction false} TreeAccepted(s: Text, o: nat, t: Tree, depth: nat)
    requires TreeOk(t) && At(s, o, TreeText(t)) && Ended(s, o + |TreeText(t)|)
    requires depth + Depth(TreeValue(t)) <= NESTING_LIMIT
    ensures ValueAt(s, o, depth) == Done(TreeValue(t), o + |TreeText(t)|)
    decreases t, 1
  {
    hide ArrayAt, ObjectAt, StringAt, NumberAt, Depth, Ended, NumeralOk, CharsOk, CellsOk, FieldsOk, CellsText,
        FieldsText;
    TreeStart(t);
    assert s[o..o + |TreeText(t)|][0] == s[o];
    WordsStartWithLetters(s, o);
    match t
    case TreeNull =>
    case TreeFalse =>
    case TreeTrue =>
    case TreeNumber(n) => NumberAccepted(s, o, n);
    case TreeString(cs) => StringAccepted(s, o, cs);
    case TreeArray(pad, cells) => ArrayAccepted(s, o, t, depth);
    case TreeObject(pad, fields) => ObjectAccepted(s, o, t, depth);
  }

  lemma WordsStartWithLetters(s: Text, o: nat)
    ensures CanRead(s, o, NULL_WORD) ==> s[o] == LOWER_N
    ensures CanRead(s, o, FALSE_WORD) ==> s[o] == LOWER_F
    ensures CanRead(s, o, TRUE_WORD) ==> s[o] == LOWER_T
  {
    if CanRead(s, o, NULL_WORD) { assert s[o..o + 4][0] == s[o]; }
    if CanRead(s, o, FALSE_WORD) { assert s[o..o + 5][0] == s[o]; }
    if CanRead(s, o, TRUE_WORD) { assert s[o..o + 4][0] == s[o]; }
  }

  lemma {:induction false} ArrayAccepted(s: Text, o: nat, t: Tree, depth: nat)
    requires t.TreeArray? && TreeOk(t) && At(s, o, TreeText(t))
    requires depth + Depth(TreeValue(t)) <= NESTING_LIMIT
    ensures o < |s| && ArrayAt(s, o, depth) == Done(TreeValue(t), o + |TreeText(t)|)
    decreases t, 0
  {
    hide Depth, ItemsDepth, ArrayAt, ItemsAt, CellsText, CellsValue, CellsOk, At, SkipBlank, Blank, TreeText,
        TreeValue, TreeOk;
    ArrayParts(t);
    if t.cells == [] {
      EmptyArrayAccepted(s, o, t, depth);
    } else {
      AtByte(s, o, OPEN_BRACKET, CellsText(t.cells));
      CellsAccepted(s, o + 1, t.cells, depth + 1);
      ArrayWraps(s, o, depth, CellsValue(t.cells), o + |TreeText(t)|);
    }
  }

  lemma ArrayParts(t: Tree)
    requires t.TreeArray? && TreeOk(t)
    ensures CellsOk(t.cells) && (t.cells != [] ==> TreeText(t) == [OPEN_BRACKET] + CellsText(t.cells))
    ensures TreeValue(t) == Array(CellsValue(t.cells)) && Depth(TreeValue(t)) == 1 + ItemsDepth(CellsValue(t.cells))
  {
  }

  lemma ObjectParts(t: Tree)
    requires t.TreeObject? && TreeOk(t)
    ensures FieldsOk(t.fields) && (t.fields != [] ==> TreeText(t) == [OPEN_BRACE] + FieldsText(t.fields))
    ensures TreeValue(t) == Object(FieldsValue(t.fields))
          && Depth(TreeValue(t)) == 1 + MembersDepth(FieldsValue(t.fields))
  {
  }

  /** The brackets around elements, and the braces around members. */
  lemma ArrayWraps(s: Text, o: nat, depth: nat, items: seq<Value>, end: nat)
    requires o + 1 < |s| && depth < NESTING_LIMIT && s[SkipBlank(s, o + 1)] != CLOSE_BRACKET
    requires ItemsAt(s, o + 1, depth + 1) == Done(items, end)
    ensures ArrayAt(s, o, depth) == Done(Array(items), end)
  {
    hide ItemsAt, SkipBlank;
    SkipTwice(s, o + 1, depth + 1);
  }

  lemma ObjectWraps(s: Text, o: nat, depth: nat, members: seq<Member>, end: nat)
    requires o + 1 < |s| && depth < NESTING_LIMIT && s[SkipBlank(s, o + 1)] != CLOSE_BRACE
    requires MembersAt(s, o + 1, depth + 1) == Done(members, end)
    ensures ObjectAt(s, o, depth) == Done(Object(members), end)
  {
    hide MembersAt, SkipBlank;
    SkipTwice(s, o + 1, depth + 1);
  }

  lemma EmptyArrayAccepted(s: Text, o: nat, t: Tree, depth: nat)
    requires t.TreeArray? && t.cells == [] && TreeOk(t) && At(s, o, TreeText(t)) && depth < NESTING_LIMIT
    ensures o < |s| && ArrayAt(s, o, depth) == Done(TreeValue(t), o + |TreeText(t)|)
  {
    hide ItemsAt, At, SkipBlank, Blank;
    AtByte(s, o, OPEN_BRACKET, t.pad + [CLOSE_BRACKET]);
    AtSplit(s, o + 1, t.pad, [CLOSE_BRACKET]);
    AtByte(s, o + 1 + |t.pad|, CLOSE_BRACKET, []);
    BlankSkipped(s, o + 1, t.pad);
  }

  /** One element: `o` stands before its blanks. */
  lemma {:induction false} CellAccepted(s: Text, o: nat, c: Cell, depth: nat)
    requires CellOk(c) && At(s, o, CellText(c))
    requires o + |CellText(c)| < |s| && s[o + |CellText(c)|] in {COMMA, CLOSE_BRACKET, CLOSE_BRACE}
    requires depth + Depth(TreeValue(c.tree)) <= NESTING_LIMIT
    ensures SkipBlank(s, o) == o + |c.before| && s[o + |c.before|] == TreeText(c.tree)[0]
    ensures ItemAt(s, o, depth) == Done(TreeValue(c.tree), o + |CellText(c)|)
    decreases c
  {
    hide ValueAt, TreeOk, TreeText, TreeValue, Depth, At, SkipBlank, Blank;
    var text := TreeText(c.tree);
    TreeStart(c.tree);
    AtSplit(s, o, c.before, text + c.after);
    AtSplit(s, o + |c.before|, text, c.after);
    assert s[o + |c.before|..o + |c.before| + |text|][0] == s[o + |c.before|];
    BlankSkipped(s, o, c.before);
    AfterCell(s, o + |c.before| + |text|, c.after);
    TreeAccepted(s, o + |c.before|, c.tree, depth);
  }

  /** `o` stands before the blanks of the first element; the parser may have skipped them. */
  lemma CellsParts(cells: seq<Cell>)
    requires cells != [] && CellsOk(cells)
    ensures CellOk(cells[0]) && TreeOk(cells[0].tree) && CellsOk(cells[1..])
    ensures var value, rest := TreeValue(cells[0].tree), CellsValue(cells[1..]);
            && CellsValue(cells) == [value] + rest
                && ItemsDepth(CellsValue(cells)) == Max(Depth(value), ItemsDepth(rest))
            && (|cells| == 1 ==> CellsValue(cells) == [value])
    ensures |cells| == 1 ==> CellsText(cells) == CellText(cells[0]) + [CLOSE_BRACKET]
    ensures |cells| > 1 ==> CellsText(cells) == CellText(cells[0]) + ([COMMA] + CellsText(cells[1..]))
  {
    hide TreeOk, TreeText, TreeValue, CellText, Depth;
    var value, rest := TreeValue(cells[0].tree), CellsValue(cells[1..]);
    assert CellsValue(cells) == [value] + rest;
    assert ([value] + rest)[1..] == rest;
    if |cells| == 1 { assert rest == []; }
  }

  lemma FieldsParts(fields: seq<Field>)
    requires fields != [] && FieldsOk(fields)
    ensures FieldOk(fields[0]) && CharsOk(fields[0].key) && CellOk(fields[0].cell) && TreeOk(fields[0].cell.tree)
          && FieldsOk(fields[1..])
    ensures var value, rest := Member(CString(CharsBytes(fields[0].key)), TreeValue(fields[0].cell.tree)),
          FieldsValue(fields[1..]);
            && FieldsValue(fields) == [value] + rest
                && MembersDepth(FieldsValue(fields)) == Max(Depth(value.value), MembersDepth(rest))
            && (|fields| == 1 ==> FieldsValue(fields) == [value])
    ensures |fields| == 1 ==> FieldsText(fields) == FieldText(fields[0]) + [CLOSE_BRACE]
    ensures |fields| > 1 ==> FieldsText(fields) == FieldText(fields[0]) + ([COMMA] + FieldsText(fields[1..]))
  {
    hide TreeOk, TreeText, TreeValue, FieldText, Depth, CharsBytes, CharsOk, CString;
    assert FieldOk(fields[0]) && CellOk(fields[0].cell);
    var value := Member(CString(CharsBytes(fields[0].key)), TreeValue(fields[0].cell.tree));
    var rest := FieldsValue(fields[1..]);
    assert FieldsValue(fields) == [value] + rest;
    assert ([value] + rest)[1..] == rest;
    if |fields| == 1 { assert rest == []; }
  }

  lemma {:induction false} CellsAccepted(s: Text, o: nat, cells: seq<Cell>, depth: nat)
    requires cells != [] && CellsOk(cells) && At(s, o, CellsText(cells))
    requires depth + ItemsDepth(CellsValue(cells)) <= NESTING_LIMIT
    ensures o < |s| && s[SkipBlank(s, o)] != CLOSE_BRACKET
    ensures ItemsAt(s, o, depth) == Done(CellsValue(cells), o + |CellsText(cells)|)
    decreases cells
  {
    hide ItemsAt, ItemAt, TreeOk, TreeText, TreeValue, CellText, Depth, At, SkipBlank, CellsText, CellsOk, CellsValue,
        CellOk,
         ItemsDepth;
    CellsParts(cells);
    var text := CellText(cells[0]);
    var next := o + |text|;
    var value, more := TreeValue(cells[0].tree), cells[1..];
    TreeStart(cells[0].tree);
    if |cells| == 1 {
      AtEnd(s, o, text, CLOSE_BRACKET, []);
      CellAccepted(s, o, cells[0], depth);
      ItemsLast(s, o, depth, value, next);
    } else {
      AtEnd(s, o, text, COMMA, CellsText(more));
      CellAccepted(s, o, cells[0], depth);
      CellsAccepted(s, next + 1, more, depth);
      ItemsMore(s, o, depth, value, next, CellsValue(more), next + 1 + |CellsText(more)|);
    }
  }

  /** Text, a byte behind it, and what follows. */
  lemma AtEnd(s: Text, o: nat, text: Text, b: byte, rest: Text)
    requires At(s, o, text + ([b] + rest)) || (rest == [] && At(s, o, text + [b]))
    ensures At(s, o, text) && o + |text| < |s| && s[o + |text|] == b && At(s, o + |text| + 1, rest)
  {
    assert rest == [] ==> [b] + rest == [b];
    AtSplit(s, o, text, [b] + rest);
    AtByte(s, o + |text|, b, rest);
  }

  lemma {:induction false} ObjectAccepted(s: Text, o: nat, t: Tree, depth: nat)
    requires t.TreeObject? && TreeOk(t) && At(s, o, TreeText(t))
    requires depth + Depth(TreeValue(t)) <= NESTING_LIMIT
    ensures o < |s| && ObjectAt(s, o, depth) == Done(TreeValue(t), o + |TreeText(t)|)
    decreases t, 0
  {
    hide Depth, MembersDepth, ObjectAt, MembersAt, FieldsText, FieldsValue, FieldsOk, At, SkipBlank, Blank, TreeText,
        TreeValue, TreeOk;
    ObjectParts(t);
    if t.fields == [] {
      EmptyObjectAccepted(s, o, t, depth);
    } else {
      AtByte(s, o, OPEN_BRACE, FieldsText(t.fields));
      FieldsAccepted(s, o + 1, t.fields, depth + 1);
      ObjectWraps(s, o, depth, FieldsValue(t.fields), o + |TreeText(t)|);
    }
  }

  lemma EmptyObjectAccepted(s: Text, o: nat, t: Tree, depth: nat)
    requires t.TreeObject? && t.fields == [] && TreeOk(t) && At(s, o, TreeText(t)) && depth < NESTING_LIMIT
    ensures o < |s| && ObjectAt(s, o, depth) == Done(TreeValue(t), o + |TreeText(t)|)
  {
    hide MembersAt, At, SkipBlank, Blank;
    AtByte(s, o, OPEN_BRACE, t.pad + [CLOSE_BRACE]);
    AtSplit(s, o + 1, t.pad, [CLOSE_BRACE]);
    AtByte(s, o + 1 + |t.pad|, CLOSE_BRACE, []);
    BlankSkipped(s, o + 1, t.pad);
  }

  /** A key, its blanks and its colon. */
  lemma KeyAccepted(s: Text, o: nat, f: Field)
    requires FieldOk(f) && At(s, o, FieldText(f))
    ensures var c := o + |f.before| + |StringText(f.key)| + |f.after|;
            && SkipBlank(s, o) == o + |f.before| && o + |f.before| < |s| && s[o + |f.before|] == QUOTE
            && At(s, c + 1, CellText(f.cell))
            && KeyAt(s, o) == Done(CString(CharsBytes(f.key)), c)
  {
    hide StringAt, StringText, CharsBytes, CharsOk, CellText, CellOk, CString, At, SkipBlank, Blank;
    var rest := f.after + ([COLON] + CellText(f.cell));
    AtSplit(s, o, f.before, StringText(f.key) + rest);
    var k := o + |f.before|;
    AtSplit(s, k, StringText(f.key), rest);
    StringAccepted(s, k, f.key);
    BlankSkipped(s, o, f.before);
    var a := k + |StringText(f.key)|;
    AtSplit(s, a, f.after, [COLON] + CellText(f.cell));
    AtByte(s, a + |f.after|, COLON, CellText(f.cell));
    BlankSkipped(s, a, f.after);
  }

  lemma {:induction false} FieldAccepted(s: Text, o: nat, f: Field, depth: nat)
    requires FieldOk(f) && CellOk(f.cell) && At(s, o, FieldText(f))
    requires o + |FieldText(f)| < |s| && s[o + |FieldText(f)|] in {COMMA, CLOSE_BRACKET, CLOSE_BRACE}
    requires depth + Depth(TreeValue(f.cell.tree)) <= NESTING_LIMIT
    ensures SkipBlank(s, o) < |s| && s[SkipBlank(s, o)] == QUOTE
    ensures MemberAt(s, o, depth)
         == Done(Member(CString(CharsBytes(f.key)), TreeValue(f.cell.tree)), o + |FieldText(f)|)
    decreases f
  {
    hide KeyAt, ItemAt, StringText, CharsBytes, CharsOk, CellText, TreeText, TreeOk, TreeValue, Depth, CString, At,
        SkipBlank, Blank;
    KeyAccepted(s, o, f);
    CellAccepted(s, KeyAt(s, o).offset + 1, f.cell, depth);
  }

  lemma {:induction false} FieldsAccepted(s: Text, o: nat, fields: seq<Field>, depth: nat)
    requires fields != [] && FieldsOk(fields) && At(s, o, FieldsText(fields))
    requires depth + MembersDepth(FieldsValue(fields)) <= NESTING_LIMIT
    ensures o < |s| && s[SkipBlank(s, o)] != CLOSE_BRACE
    ensures MembersAt(s, o, depth) == Done(FieldsValue(fields), o + |FieldsText(fields)|)
    decreases fields
  {
    hide MembersAt, MemberAt, FieldText, TreeOk, TreeText, TreeValue, Depth, CharsBytes, CharsOk, CString, At,
        SkipBlank, FieldsText, FieldsOk, FieldsValue,
         FieldOk, CellOk, MembersDepth;
    FieldsParts(fields);
    var text := FieldText(fields[0]);
    var next := o + |text|;
    var value := Member(CString(CharsBytes(fields[0].key)), TreeValue(fields[0].cell.tree));
    var more := fields[1..];
    if |fields| == 1 {
      AtEnd(s, o, text, CLOSE_BRACE, []);
      FieldAccepted(s, o, fields[0], depth);
      MembersLast(s, o, depth, value, next);
    } else {
      AtEnd(s, o, text, COMMA, FieldsText(more));
      FieldAccepted(s, o, fields[0], depth);
      FieldsAccepted(s, next + 1, more, depth);
      MembersMore(s, o, depth, value, next, FieldsValue(more), next + 1 + |FieldsText(more)|);
    }
  }

  /** `cJSON_Parse` reads every document of the grammar, with or without a byte order mark and
      with any blanks around it, as its value; it stops after the value. */
  lemma DocumentAccepted(bom: bool, before: Text, t: Tree, after: Text)
    requires TreeOk(t) && Blank(before) && Blank(after) && Depth(TreeValue(t)) <= NESTING_LIMIT
    requires NulFree(before + TreeText(t) + after)
    ensures var mark := if bom then BOM else [];
            Parse(mark + before + TreeText(t) + after)
            == Done(TreeValue(t), |mark| + |before| + |TreeText(t)|)
  {
    hide TreeOk, TreeValue, TreeText, ValueAt, Depth, SkipBlank, CString;
    var mark := if bom then BOM else [];
    var tree := TreeText(t);
    var text := mark + before + tree + after;
    var s := text + [NUL];
    TreeStart(t);
    assert NulFree(text) by {
      assert forall i :: |mark| <= i < |text| ==> text[i] == (before + tree + after)[i - |mark|];
    }
    CStringOfNulFree(text);
    assert s == mark + (before + (tree + (after + [NUL])));
    DocumentParts(s, mark, before, tree, after);
    var o := |mark| + |before|;
    BlankSkipped(s, |mark|, before);
    TreeAccepted(s, o, t, 0);
  }

  lemma DocumentParts(s: Text, mark: Text, before: Text, tree: Text, after: Text)
    requires s == mark + (before + (tree + (after + [NUL]))) && (mark == BOM || mark == [])
    requires Blank(before) && Blank(after) && tree != [] && SPACE < tree[0] < 0x80
    ensures var o := |mark| + |before|;
            && SkipBom(s) == |mark| && At(s, |mark|, before) && At(s, o, tree)
            && s[o] == tree[0] && Ended(s, o + |tree|)
  {
    var o := |mark| + |before|;
    var rest := tree + (after + [NUL]);
    AtSplit(s, 0, mark, before + rest);
    AtSplit(s, |mark|, before, rest);
    AtSplit(s, o, tree, after + [NUL]);
    hide At;
    assert s[o] == tree[0] && s[o + |tree|] == (after + [NUL])[0];
    if 4 < |s| { assert s[..3][0] == s[0]; }
    assert mark == [] ==> s[0] == (before + tree)[0];
    assert mark == BOM ==> s[..3] == BOM;
  }
}
