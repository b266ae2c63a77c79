/** Bytes, C strings and the character constants that the JSON code switches on. */
module Bytes {
  type byte = x: int | 0 <= x < 256
  type Text = seq<byte>

  const NUL: byte := 0
  const BACKSPACE: byte := 8
  const TAB: byte := 9
  const NEWLINE: byte := 10
  const FORM_FEED: byte := 12
  const RETURN: byte := 13
  const SPACE: byte := 32
  const QUOTE: byte := 34
  const PLUS: byte := 43
  const COMMA: byte := 44
  const MINUS: byte := 45
  const DOT: byte := 46
  const SLASH: byte := 47
  const ZERO: byte := 48
  const COLON: byte := 58
  const UPPER_E: byte := 69
  const OPEN_BRACKET: byte := 91
  const BACKSLASH: byte := 92
  const CLOSE_BRACKET: byte := 93
  const LOWER_B: byte := 98
  const LOWER_E: byte := 101
  const LOWER_F: byte := 102
  const LOWER_N: byte := 110
  const LOWER_R: byte := 114
  const LOWER_T: byte := 116
  const LOWER_U: byte := 117
  const OPEN_BRACE: byte := 123
  const CLOSE_BRACE: byte := 125

  const NULL_WORD: Text := [110, 117, 108, 108]
  const FALSE_WORD: Text := [102, 97, 108, 115, 101]
  const TRUE_WORD: Text := [116, 114, 117, 101]

  const INT_MAX: int := 0x7FFF_FFFF
  const INT_MIN: int := -0x8000_0000

  predicate IsDigit(b: byte) { 48 <= b <= 57 }

  /** `isspace` of the C locale. */
  predicate IsSpace(b: byte) { b == 32 || 9 <= b <= 13 }

  predicate IsHex(b: byte) { 48 <= b <= 57 || 65 <= b <= 70 || 97 <= b <= 102 }

  function HexValue(b: byte): (v: nat)
    requires IsHex(b)
    ensures v < 16
  {
    if b <= 57 then b - 48 else if b <= 70 then b - 55 else b - 87
  }

  /** A digit of "%x", or of "%X". */
  function HexDigit(n: nat, upper: bool := false): (b: byte)
    requires n < 16
    ensures IsHex(b) && HexValue(b) == n
  {
    if n < 10 then ZERO + n else if upper then 55 + n else 87 + n
  }

  predicate NulFree(s: Text) { forall i :: 0 <= i < |s| ==> s[i] != NUL }

  /** What `strlen`, `strcmp` and friends see of a buffer: the bytes before the first NUL. */
  function CString(s: Text): (r: Text)
    ensures NulFree(r)
    ensures r <= s
    ensures |r| < |s| ==> s[|r|] == NUL
  {
    if s == [] || s[0] == NUL then [] else [s[0]] + CString(s[1..])
  }

  lemma {:induction false} CStringOfNulFree(s: Text)
    requires NulFree(s)
    ensures CString(s) == s
  {
    assert |CString(s)| == |s|;
  }

  /** The bytes of `t` stand in `buf` from index `at` on. */
  predicate At(buf: Text, at: nat, t: Text) {
    at + |t| <= |buf| && buf[at..at + |t|] == t
  }

  lemma AtSplit(buf: Text, at: nat, a: Text, b: Text)
    requires At(buf, at, a + b)
    ensures At(buf, at, a) && At(buf, at + |a|, b)
  {
    var whole := buf[at..at + |a + b|];
    assert whole[..|a|] == a && whole[|a|..] == b;
    assert buf[at..at + |a|] == whole[..|a|];
    assert buf[at + |a|..at + |a| + |b|] == whole[|a|..];
  }

  lemma AtByte(buf: Text, at: nat, b: byte, rest: Text)
    requires At(buf, at, [b] + rest)
    ensures at < |buf| && buf[at] == b && At(buf, at + 1, rest)
  {
    AtSplit(buf, at, [b], rest);
    assert buf[at..at + 1][0] == b;
  }
}
