/**
 JSON texts by the grammar of RFC 8259, independently of the parser: a `Tree` spells out one
 way to write a value, with its blanks, its escapes and its numerals. Every text of the grammar
 is the text of some tree.
 */
module JsonSyntax {
  import opened Bytes
  import opened Utf
  import opened JsonValue
  import opened Options

  // ---- Strings (section 7) ---------------------------------------------------------------

  datatype Char =
    | Plain(b: byte)
    | Short(letter: byte)
    | Escape(codepoint: Scalar, caps: Caps)

  /** The two-character escapes: the letter and the byte that it stands for. */
  function ShortByte(letter: byte): Option<byte> {
    match letter
    case 34 => Some(34)
    case 92 => Some(92)
    case 47 => Some(47)
    case 98 => Some(8)
    case 102 => Some(12)
    case 110 => Some(10)
    case 114 => Some(13)
    case 116 => Some(9)
    case _ => None
  }

  predicate CharOk(c: Char) {
    match c
    case Plain(b) => b != QUOTE && b != BACKSLASH
    case Short(letter) => ShortByte(letter).Some?
    case Escape(_, _) => true
  }

  function CharText(c: Char): (t: Text)
    ensures t != []
  {
    match c
    case Plain(b) => [b]
    case Short(letter) => [BACKSLASH, letter]
    case Escape(codepoint, caps) => EscapeText(codepoint, caps)
  }

  /** The UTF-8 bytes that a character of a literal stands for. */
  function CharBytes(c: Char): Text
    requires CharOk(c)
  {
    match c
    case Plain(b) => [b]
    case Short(letter) => [ShortByte(letter).value]
    case Escape(codepoint, _) => Utf8Encode(codepoint)
  }

  predicate CharsOk(cs: seq<Char>) { cs != [] ==> CharOk(cs[0]) && CharsOk(cs[1..]) }

  function CharsText(cs: seq<Char>): Text {
    if cs == [] then [] else CharText(cs[0]) + CharsText(cs[1..])
  }

  function CharsBytes(cs: seq<Char>): Text
    requires CharsOk(cs)
  {
    if cs == [] then [] else CharBytes(cs[0]) + CharsBytes(cs[1..])
  }

  function StringText(cs: seq<Char>): Text { [QUOTE] + CharsText(cs) + [QUOTE] }

  // ---- Numbers (section 6) ---------------------------------------------------------------

  datatype Exponent = NoExponent | Exponent(letter: byte, sign: Text, digits: Text)

  datatype Numeral = Numeral(neg: bool, whole: Text, fraction: Text, exponent: Exponent)

  predicate ExponentOk(e: Exponent) {
    e.Exponent? ==> (e.letter == LOWER_E || e.letter == UPPER_E)
                    && (e.sign == [] || e.sign == [PLUS] || e.sign == [MINUS])
                    && e.digits != [] && Digits(e.digits)
  }

  predicate NumeralOk(n: Numeral) {
    n.whole != [] && Digits(n.whole) && Digits(n.fraction) && ExponentOk(n.exponent)
  }

  function SignText(neg: bool): Text { if neg then [MINUS] else [] }

  function FractionText(fraction: Text): Text { if fraction == [] then [] else [DOT] + fraction }

  function ExponentText(e: Exponent): Text {
    if e.NoExponent? then [] else [e.letter] + e.sign + e.digits
  }

  function NumeralText(n: Numeral): Text {
    SignText(n.neg) + n.whole + FractionText(n.fraction) + ExponentText(n.exponent)
  }

  /** Decimal digits before the point: each has ten times the weight of the one that follows. */
  function WholeValue(t: Text): nat
    requires Digits(t)
  {
    if t == [] then 0 else (t[0] - ZERO) * Pow10(|t| - 1) + WholeValue(t[1..])
  }

  /** Digits behind the point: tenths of the first one and of whatever the others are. */
  function FractionValue(t: Text): real
    requires Digits(t)
  {
    if t == [] then 0.0 else ((t[0] - ZERO) as real + FractionValue(t[1..])) / 10.0
  }

  function TenTo(e: int): real
    decreases if e < 0 then -e else e
  {
    if e == 0 then 1.0 else if e > 0 then 10.0 * TenTo(e - 1) else TenTo(e + 1) / 10.0
  }

  function ExponentValue(e: Exponent): int
    requires ExponentOk(e)
  {
    if e.NoExponent? then 0
    else if e.sign == [MINUS] then 0 - WholeValue(e.digits)
    else WholeValue(e.digits)
  }

  /** The number that its sign, its digits before and behind the point and its exponent stand for. */
  function DecimalValue(neg: bool, whole: Text, fraction: Text, exponent: int): real
    requires Digits(whole) && Digits(fraction)
  {
    (if neg then -1.0 else 1.0) * ((WholeValue(whole) as real + FractionValue(fraction)) * TenTo(exponent))
  }

  function NumeralValue(n: Numeral): real
    requires NumeralOk(n)
  {
    DecimalValue(n.neg, n.whole, n.fraction, ExponentValue(n.exponent))
  }

  /** Numbers as `strtod` takes them: a point needs digits on one side only. */
  datatype Loose = Loose(neg: bool, whole: Text, point: bool, fraction: Text, exponent: Exponent)

  predicate LooseOk(l: Loose) {
    && Digits(l.whole) && Digits(l.fraction) && ExponentOk(l.exponent)
    && (l.whole != [] || (l.neg && l.fraction != [])) && (l.fraction != [] ==> l.point)
  }

  function PointText(point: bool, fraction: Text): Text { if point then [DOT] + fraction else [] }

  function LooseText(l: Loose): Text {
    SignText(l.neg) + l.whole + PointText(l.point, l.fraction) + ExponentText(l.exponent)
  }

  function LooseValue(l: Loose): real
    requires LooseOk(l)
  {
    DecimalValue(l.neg, l.whole, l.fraction, ExponentValue(l.exponent))
  }

  // ---- Values (sections 2 to 5) ----------------------------------------------------------

  datatype Tree =
    | TreeNull
    | TreeFalse
    | TreeTrue
    | TreeNumber(numeral: Numeral)
    | TreeString(chars: seq<Char>)
    | TreeArray(pad: Text, cells: seq<Cell>)
    | TreeObject(pad: Text, fields: seq<Field>)

  /** A value with the blanks before and after it. */
  datatype Cell = Cell(before: Text, tree: Tree, after: Text)

  /** A key with the blanks before and after it, and the cell after the colon. */
  datatype Field = Field(before: Text, key: seq<Char>, after: Text, cell: Cell)

  predicate Blank(t: Text) { forall i :: 0 <= i < |t| ==> t[i] <= SPACE }

  predicate TreeOk(t: Tree) {
    match t
    case TreeNumber(n) => NumeralOk(n)
    case TreeString(cs) => CharsOk(cs)
    case TreeArray(pad, cells) => Blank(pad) && CellsOk(cells)
    case TreeObject(pad, fields) => Blank(pad) && FieldsOk(fields)
    case _ => true
  }

  predicate CellOk(c: Cell) { Blank(c.before) && Blank(c.after) && TreeOk(c.tree) }

  predicate CellsOk(cells: seq<Cell>) { cells != [] ==> CellOk(cells[0]) && CellsOk(cells[1..]) }

  predicate FieldOk(f: Field) { Blank(f.before) && CharsOk(f.key) && Blank(f.after) && CellOk(f.cell) }

  predicate FieldsOk(fields: seq<Field>) { fields != [] ==> FieldOk(fields[0]) && FieldsOk(fields[1..]) }

  function TreeText(t: Tree): Text {
    match t
    case TreeNull => NULL_WORD
    case TreeFalse => FALSE_WORD
    case TreeTrue => TRUE_WORD
    case TreeNumber(n) => NumeralText(n)
    case TreeString(cs) => StringText(cs)
    case TreeArray(pad, cells) =>
      if cells == [] then [OPEN_BRACKET] + (pad + [CLOSE_BRACKET]) else [OPEN_BRACKET] + CellsText(cells)
    case TreeObject(pad, fields) =>
      if fields == [] then [OPEN_BRACE] + (pad + [CLOSE_BRACE]) else [OPEN_BRACE] + FieldsText(fields)
  }

  function CellText(c: Cell): Text { c.before + (TreeText(c.tree) + c.after) }

  /** The elements of an array, with the closing bracket. */
  function CellsText(cells: seq<Cell>): Text
    requires cells != []
  {
    CellText(cells[0]) + (if |cells| == 1 then [CLOSE_BRACKET] else [COMMA] + CellsText(cells[1..]))
  }

  function FieldText(f: Field): Text {
    f.before + (StringText(f.key) + (f.after + ([COLON] + CellText(f.cell))))
  }

  function FieldsText(fields: seq<Field>): Text
    requires fields != []
  {
    FieldText(fields[0]) + (if |fields| == 1 then [CLOSE_BRACE] else [COMMA] + FieldsText(fields[1..]))
  }

  /** The value that a text stands for. */
  function TreeValue(t: Tree): Value
    requires TreeOk(t)
  {
    match t
    case TreeNull => Null
    case TreeFalse => False
    case TreeTrue => True
    case TreeNumber(n) => Number(NumeralValue(n))
    case TreeString(cs) => Str(CString(CharsBytes(cs)))
    case TreeArray(_, cells) => Array(CellsValue(cells))
    case TreeObject(_, fields) => Object(FieldsValue(fields))
  }

  function CellsValue(cells: seq<Cell>): (r: seq<Value>)
    requires CellsOk(cells)
    ensures |r| == |cells|
  {
    if cells == [] then []
    else
      assert CellOk(cells[0]);
      [TreeValue(cells[0].tree)] + CellsValue(cells[1..])
  }

  function FieldsValue(fields: seq<Field>): (r: seq<Member>)
    requires FieldsOk(fields)
    ensures |r| == |fields|
  {
    if fields == [] then []
    else
      assert FieldOk(fields[0]) && CellOk(fields[0].cell);
      [Member(CString(CharsBytes(fields[0].key)), TreeValue(fields[0].cell.tree))] + FieldsValue(fields[1..])
  }
}
