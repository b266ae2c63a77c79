/**
 Escapes of the form \uXXXX: the UTF-16 to UTF-8 transcoder of src/core/cJSON.c, and the
 reference it is measured against, section 3 of RFC 3629 and section 2.2 of RFC 2781.
 */
module Utf {
  import opened Bytes

  predicate IsHighSurrogate(c: int) { 0xD800 <= c <= 0xDBFF }

  predicate IsLowSurrogate(c: int) { 0xDC00 <= c <= 0xDFFF }

  /** The Unicode scalar values: the code points that UTF-8 can encode. */
  predicate IsScalar(c: int) { 0 <= c <= 0x10FFFF && !IsHighSurrogate(c) && !IsLowSurrogate(c) }

  type Scalar = c: nat | IsScalar(c)

  // ---- UTF-8 -----------------------------------------------------------------------------

  /** The bytes the transcoder emits; `c / 64` and `c % 64` are its shifts and masks. */
  function Utf8Encode(c: nat): (r: Text)
    requires c <= 0x10FFFF
    ensures 1 <= |r| <= 4
    ensures c < 0x10000 ==> |r| <= 3
    ensures (c == 0 <==> r[0] == 0) && forall i :: 0 < i < |r| ==> r[i] != 0
  {
    if c < 0x80 then [c]
    else if c < 0x800 then [0xC0 + c / 64, 0x80 + c % 64]
    else if c < 0x10000 then [0xE0 + c / 64 / 64, 0x80 + c / 64 % 64, 0x80 + c % 64]
    else [0xF0 + c / 64 / 64 / 64, 0x80 + c / 64 / 64 % 64, 0x80 + c / 64 % 64, 0x80 + c % 64]
  }

  predicate IsTail(b: byte) { 0x80 <= b < 0xC0 }

  /** Six more bits below the bits already read. */
  function Then(high: int, tail: byte): int { high * 64 + (tail - 0x80) }

  /** Strict UTF-8 by the syntax table of RFC 3629, section 4: the code point that a byte
      sequence encodes, or -1. Overlong forms, surrogates and values above 10FFFF are refused. */
  function Utf8Decode(s: Text): int {
    if |s| == 1 && s[0] < 0x80 then s[0]
    else if |s| == 2 && 0xC2 <= s[0] <= 0xDF && IsTail(s[1]) then
      Then(s[0] - 0xC0, s[1])
    else if |s| == 3 && 0xE0 <= s[0] <= 0xEF && IsTail(s[1]) && IsTail(s[2])
            && (s[0] == 0xE0 ==> 0xA0 <= s[1]) && (s[0] == 0xED ==> s[1] < 0xA0) then
      Then(Then(s[0] - 0xE0, s[1]), s[2])
    else if |s| == 4 && 0xF0 <= s[0] <= 0xF4 && IsTail(s[1]) && IsTail(s[2]) && IsTail(s[3])
            && (s[0] == 0xF0 ==> 0x90 <= s[1]) && (s[0] == 0xF4 ==> s[1] < 0x90) then
      Then(Then(Then(s[0] - 0xF0, s[1]), s[2]), s[3])
    else -1
  }

  /** What the transcoder emits for a scalar value decodes to that value... */
  lemma EncodeThenDecode(c: nat)
    requires IsScalar(c)
    ensures Utf8Decode(Utf8Encode(c)) == c
  {
    var d := c / 64;
    var e := d / 64;
    assert c == d * 64 + c % 64 && d == e * 64 + d % 64 && e == e / 64 * 64 + e % 64;
  }

  lemma ThenUnique(high: nat, tail: byte)
    requires IsTail(tail)
    ensures Then(high, tail) / 64 == high && Then(high, tail) % 64 == tail - 0x80
  {
  }

  /** ...and no other byte sequence does: the emitted form is the only, hence the shortest, one. */
  lemma DecodeThenEncode(s: Text)
    requires Utf8Decode(s) >= 0
    ensures IsScalar(Utf8Decode(s))
    ensures Utf8Encode(Utf8Decode(s)) == s
  {
    match |s|
    case 1 =>
    case 2 => ThenUnique(s[0] - 0xC0, s[1]);
    case 3 =>
      ThenUnique(s[0] - 0xE0, s[1]);
      ThenUnique(Then(s[0] - 0xE0, s[1]), s[2]);
    case 4 => DecodeThenEncode4(s);
    case _ =>
  }

  lemma DecodeThenEncode4(s: Text)
    requires |s| == 4 && Utf8Decode(s) >= 0
    ensures 0x10000 <= Utf8Decode(s) <= 0x10FFFF
    ensures Utf8Encode(Utf8Decode(s)) == s
  {
    var top := Then(s[0] - 0xF0, s[1]);
    var high := Then(top, s[2]);
    ThenUnique(s[0] - 0xF0, s[1]);
    ThenUnique(top, s[2]);
    ThenUnique(high, s[3]);
  }

  // ---- \uXXXX ----------------------------------------------------------------------------

  predicate FourHex(s: Text, i: nat) {
    i + 4 <= |s| && IsHex(s[i]) && IsHex(s[i + 1]) && IsHex(s[i + 2]) && IsHex(s[i + 3])
  }

  /** Four hexadecimal digits, or 0 when one of the four bytes is not a digit. */
  function Hex4(s: Text, i: nat): (h: nat)
    requires i + 4 <= |s|
    ensures h < 0x10000
  {
    if FourHex(s, i) then
      HexValue(s[i]) * 4096 + HexValue(s[i + 1]) * 256 + HexValue(s[i + 2]) * 16 + HexValue(s[i + 3])
    else 0
  }

  /** "%04x" of a 16-bit unit, each digit in lower or upper case. */
  function UnitText(c: nat, caps: seq<bool>): (t: Text)
    requires c < 0x10000 && |caps| == 4
    ensures |t| == 4
  {
    [HexDigit(c / 16 / 16 / 16, caps[0]), HexDigit(c / 16 / 16 % 16, caps[1]), HexDigit(c / 16 % 16, caps[2]),
     HexDigit(c % 16, caps[3])]
  }

  /** The text of a unit reads as that unit... */
  lemma UnitRead(s: Text, i: nat, c: nat, caps: seq<bool>)
    requires c < 0x10000 && |caps| == 4 && At(s, i, UnitText(c, caps))
    ensures FourHex(s, i) && Hex4(s, i) == c
  {
    var t := UnitText(c, caps);
    UnitSum(c);
    hide HexDigit, HexValue, IsHex;
    var r := s[i..i + 4];
    assert r == t && s[i] == r[0] && s[i + 1] == r[1] && s[i + 2] == r[2] && s[i + 3] == r[3];
    assert s[i] == t[0] && s[i + 1] == t[1] && s[i + 2] == t[2] && s[i + 3] == t[3];
  }

  lemma UnitSum(c: nat)
    requires c < 0x10000
    ensures c == c / 16 / 16 / 16 * 4096 + c / 16 / 16 % 16 * 256 + c / 16 % 16 * 16 + c % 16
  {
    var d := c / 16;
    var e := d / 16;
    assert c == d * 16 + c % 16 && d == e * 16 + d % 16 && e == e / 16 * 16 + e % 16;
  }

  /** ...and four digits, however they are spelt, are the text of what they read as. */
  lemma UnitSpelt(s: Text, i: nat) returns (caps: seq<bool>)
    requires FourHex(s, i)
    ensures |caps| == 4 && At(s, i, UnitText(Hex4(s, i), caps))
  {
    caps := [s[i] < 97, s[i + 1] < 97, s[i + 2] < 97, s[i + 3] < 97];
    var a, b, c, d := HexValue(s[i]), HexValue(s[i + 1]), HexValue(s[i + 2]), HexValue(s[i + 3]);
    UnitDigits(a, b, c, d);
    assert forall x: byte :: IsHex(x) ==> HexDigit(HexValue(x), x < 97) == x;
    hide HexDigit, HexValue, IsHex;
    assert s[i..i + 4] == [s[i], s[i + 1], s[i + 2], s[i + 3]];
  }

  lemma UnitDigits(a: nat, b: nat, c: nat, d: nat)
    requires a < 16 && b < 16 && c < 16 && d < 16
    ensures var h := a * 4096 + b * 256 + c * 16 + d;
            h < 0x10000 && h / 16 / 16 / 16 == a && h / 16 / 16 % 16 == b && h / 16 % 16 == c && h % 16 == d
  {
    Nibble(a * 256 + b * 16 + c, d);
    Nibble(a * 16 + b, c);
    Nibble(a, b);
  }

  lemma Nibble(q: nat, d: nat)
    requires d < 16
    ensures (q * 16 + d) / 16 == q && (q * 16 + d) % 16 == d
  {
  }

  method ParseHex4(input: Text, at: nat) returns (h: nat)
    requires at + 4 <= |input|
    ensures h == Hex4(input, at)
  {
    h := 0;
    var i := 0;
    while i < 4
      invariant 0 <= i <= 4
      invariant forall j :: at <= j < at + i ==> IsHex(input[j])
      invariant i == 0 ==> h == 0
      invariant i == 1 ==> h == HexValue(input[at]) * 16
      invariant i == 2 ==> h == HexValue(input[at]) * 256 + HexValue(input[at + 1]) * 16
      invariant i == 3 ==>
                  h == HexValue(input[at]) * 4096 + HexValue(input[at + 1]) * 256 + HexValue(input[at + 2]) * 16
      invariant i == 4 ==> h == Hex4(input, at)
    {
      var b := input[at + i];
      if 48 <= b <= 57 {
        h := h + (b - 48);
      } else if 65 <= b <= 70 {
        h := h + (10 + b - 65);
      } else if 97 <= b <= 102 {
        h := h + (10 + b - 97);
      } else {
        return 0;
      }
      if i < 3 { h := h * 16; }
      i := i + 1;
    }
  }

  datatype Literal = Refused | Taken(length: nat, codepoint: nat)

  function Combine(high: nat, low: nat): (c: nat)
    requires IsHighSurrogate(high) && IsLowSurrogate(low)
    ensures 0x10000 <= c <= 0x10FFFF
  {
    0x10000 + (high - 0xD800) * 1024 + (low - 0xDC00)
  }

  /** The escape that starts at `i`, in a string body that ends at `end`. */
  function LiteralAt(s: Text, i: nat, end: nat): (l: Literal)
    requires i <= end <= |s|
    ensures l.Taken? ==> (l.length == 6 || l.length == 12) && i + l.length <= end && IsScalar(l.codepoint)
    ensures l.Taken? && l.length == 6 ==> l.codepoint < 0x10000
  {
    if end - i < 6 then Refused
    else
      var first := Hex4(s, i + 2);
      if IsLowSurrogate(first) then Refused
      else if !IsHighSurrogate(first) then Taken(6, first)
      else if end - i < 12 || s[i + 6] != BACKSLASH || s[i + 7] != LOWER_U then Refused
      else
        var second := Hex4(s, i + 8);
        if IsLowSurrogate(second) then Taken(12, Combine(first, second)) else Refused
  }

  /** The two halves of a scalar value above the basic plane. */
  function HighHalf(c: Scalar): (h: nat)
    requires c >= 0x10000
    ensures IsHighSurrogate(h)
  {
    assert IsScalar(c);
    0xD800 + (c - 0x10000) / 1024
  }

  function LowHalf(c: Scalar): (l: nat)
    requires c >= 0x10000
    ensures IsLowSurrogate(l)
  {
    0xDC00 + (c - 0x10000) % 1024
  }

  lemma HalvesJoin(c: Scalar)
    requires c >= 0x10000
    ensures Combine(HighHalf(c), LowHalf(c)) == c
  {
    var u := c - 0x10000;
    assert u == u / 1024 * 1024 + u % 1024;
  }

  /** Which of the digits of an escape are in upper case. */
  type Caps = s: seq<bool> | |s| == 8 witness LOWER_CASE

  const LOWER_CASE: seq<bool> := [false, false, false, false, false, false, false, false]

  /** A scalar value escaped as section 2.1 of RFC 2781 says: alone, or as a pair of surrogates. */
  function EscapeText(c: Scalar, caps: Caps): (t: Text)
    ensures |t| == if c < 0x10000 then 6 else 12
  {
    if c < 0x10000 then [BACKSLASH, LOWER_U] + UnitText(c, caps[..4])
    else
      [BACKSLASH, LOWER_U] + UnitText(HighHalf(c), caps[..4])
      + ([BACKSLASH, LOWER_U] + UnitText(LowHalf(c), caps[4..]))
  }

  /** The units of an escape where it stands. */
  lemma EscapeUnits(s: Text, i: nat, c: Scalar, caps: Caps)
    requires At(s, i, EscapeText(c, caps))
    ensures s[i] == BACKSLASH && s[i + 1] == LOWER_U && FourHex(s, i + 2)
    ensures Hex4(s, i + 2) == if c < 0x10000 then c else HighHalf(c)
    ensures c >= 0x10000 ==> s[i + 6] == BACKSLASH && s[i + 7] == LOWER_U && FourHex(s, i + 8)
                             && Hex4(s, i + 8) == LowHalf(c)
  {
    hide UnitText, Hex4, FourHex;
    if c < 0x10000 {
      OneUnit(s, i, c, caps[..4]);
    } else {
      var high, low := HighHalf(c), LowHalf(c);
      AtSplit(s, i, [BACKSLASH, LOWER_U] + UnitText(high, caps[..4]), [BACKSLASH, LOWER_U] + UnitText(low, caps[4..]));
      OneUnit(s, i, high, caps[..4]);
      OneUnit(s, i + 6, low, caps[4..]);
    }
  }

  lemma OneUnit(s: Text, i: nat, c: nat, caps: seq<bool>)
    requires c < 0x10000 && |caps| == 4 && At(s, i, [BACKSLASH, LOWER_U] + UnitText(c, caps))
    ensures s[i] == BACKSLASH && s[i + 1] == LOWER_U && FourHex(s, i + 2) && Hex4(s, i + 2) == c
  {
    hide UnitText, Hex4, FourHex;
    AtSplit(s, i, [BACKSLASH, LOWER_U], UnitText(c, caps));
    assert s[i..i + 2][0] == s[i] && s[i..i + 2][1] == s[i + 1];
    UnitRead(s, i + 2, c, caps);
  }

  /** Every scalar value, escaped with any spelling of its digits, is read back as that value and
      consumed whole. */
  lemma EscapeIsRead(s: Text, i: nat, end: nat, c: Scalar, caps: Caps)
    requires At(s, i, EscapeText(c, caps))
    requires i + |EscapeText(c, caps)| <= end <= |s|
    ensures LiteralAt(s, i, end) == Taken(|EscapeText(c, caps)|, c)
  {
    EscapeUnits(s, i, c, caps);
    assert IsScalar(c);
    hide EscapeText, Hex4, FourHex, HighHalf, LowHalf, Combine;
    if c >= 0x10000 { HalvesJoin(c); }
  }

  /** An escape with room for all its bytes is refused exactly when it is a lone or a
      misordered surrogate. */
  lemma RefusedExactly(s: Text, i: nat, end: nat)
    requires i + 6 <= end <= |s|
    ensures LiteralAt(s, i, end) == Refused <==>
              || IsLowSurrogate(Hex4(s, i + 2))
              || (IsHighSurrogate(Hex4(s, i + 2))
                  && !(i + 12 <= end && s[i + 6] == BACKSLASH && s[i + 7] == LOWER_U
                       && IsLowSurrogate(Hex4(s, i + 8))))
  {
  }

  /** Replaces `|t|` bytes of `s` from index `at` on. */
  function Overwrite(s: Text, at: nat, t: Text): (r: Text)
    requires at + |t| <= |s|
    ensures |r| == |s|
  {
    s[..at] + t + s[at + |t|..]
  }

  /** What is left of a code point after `n` shifts by six bits. */
  ghost function Shifted(c: nat, n: nat): nat {
    if n == 0 then c else Shifted(c, n - 1) / 64
  }

  lemma ShiftedIs(c: nat)
    ensures Shifted(c, 0) == c && Shifted(c, 1) == c / 64
    ensures Shifted(c, 2) == c / 64 / 64 && Shifted(c, 3) == c / 64 / 64 / 64
  {
    assert Shifted(c, 3) == Shifted(c, 2) / 64;
  }

  lemma ShiftedNext(c: nat, n: nat)
    ensures Shifted(c, n + 1) == Shifted(c, n) / 64
  {
  }

  /** The bytes of a code point in terms of those shifts. */
  lemma EncodedBytes(c: nat, mark: nat)
    requires c <= 0x10FFFF
    requires var length := |Utf8Encode(c)|;
             mark == (if length == 1 then 0 else if length == 2 then 0xC0 else if length == 3 then 0xE0 else 0xF0)
    ensures var e := Utf8Encode(c);
            && e[0] == (if |e| > 1 then mark + Shifted(c, |e| - 1) else Shifted(c, 0) % 128)
            && forall k :: 0 < k < |e| ==> e[k] == 0x80 + Shifted(c, |e| - 1 - k) % 64
  {
    ShiftedIs(c);
  }

  /** The encoding loop: the last byte first, six bits at a time. */
  method EmitUtf8(c: nat, length: nat, mark: nat, out: array<byte>, at: nat)
    requires c <= 0x10FFFF && length == |Utf8Encode(c)| && at + length <= out.Length
    requires mark == (if length == 1 then 0 else if length == 2 then 0xC0 else if length == 3 then 0xE0 else 0xF0)
    modifies out
    ensures out[..] == Overwrite(old(out[..]), at, Utf8Encode(c))
  {
    var codepoint := c;
    ghost var e, before := Utf8Encode(c), out[..];
    EncodedBytes(c, mark);
    ShiftedIs(c);
    hide Utf8Encode, Overwrite, Shifted, Filled;
    var position := length - 1;
    NothingFilled(before, at, e);
    while position > 0
      invariant 0 <= position < length
      invariant codepoint == Shifted(c, length - 1 - position)
      invariant Filled(before, at, e, position + 1, out[..])
    {
      ShiftedNext(c, length - 1 - position);
      ghost var r := out[..];
      out[at + position] := 0x80 + codepoint % 64;
      assert out[..] == r[at + position := e[position]];
      OneFilled(before, at, e, position, r);
      codepoint := codepoint / 64;
      position := position - 1;
    }
    ghost var r := out[..];
    if length > 1 {
      out[at] := mark + codepoint;
    } else {
      out[at] := codepoint % 128;
    }
    assert out[..] == r[at := e[0]];
    OneFilled(before, at, e, 0, r);
    AllFilled(before, at, e, out[..]);
  }

  /** The bytes of `t` from index `p` on stand in `r`, which is otherwise `s`. */
  ghost predicate Filled(s: Text, at: nat, t: Text, p: nat, r: Text) {
    && p <= |t| && at + |t| <= |s| == |r|
    && forall k :: 0 <= k < |r| ==> r[k] == if at + p <= k < at + |t| then t[k - at] else s[k]
  }

  lemma NothingFilled(s: Text, at: nat, t: Text)
    requires at + |t| <= |s|
    ensures Filled(s, at, t, |t|, s)
  {
  }

  lemma OneFilled(s: Text, at: nat, t: Text, p: nat, r: Text)
    requires p < |t| && Filled(s, at, t, p + 1, r)
    ensures Filled(s, at, t, p, r[at + p := t[p]])
  {
  }

  lemma AllFilled(s: Text, at: nat, t: Text, r: Text)
    requires Filled(s, at, t, 0, r)
    ensures r == Overwrite(s, at, t)
  {
  }

  /** The masks and shifts of the encoding loop, on the machine's words, are the remainders and
      quotients used here. */
  lemma EncodingMasks(c: bv32)
    ensures ((c | 0x80) & 0xBF) == 0x80 + c % 64 && (c >> 6) == c / 64 && (c & 0x7F) == c % 128
    ensures c < 32 ==> ((c | 0xC0) & 0xFF) == 0xC0 + c
    ensures c < 16 ==> ((c | 0xE0) & 0xFF) == 0xE0 + c
    ensures c < 8 ==> ((c | 0xF0) & 0xFF) == 0xF0 + c
  {
  }

  /** And so are those that join two surrogates. */
  lemma JoiningMasks(high: bv32, low: bv32)
    requires 0xD800 <= high <= 0xDBFF && 0xDC00 <= low <= 0xDFFF
    ensures (0x10000 + (((high & 0x3FF) << 10) | (low & 0x3FF))) as int
         == 0x10000 + (high as int - 0xD800) * 1024 + (low as int - 0xDC00)
  {
    assert 0x10000 + (((high & 0x3FF) << 10) | (low & 0x3FF)) == 0x10000 + (high - 0xD800) * 1024 + (low - 0xDC00);
  }

  /** The code masks both halves with 3FF before it joins them. */
  function Masked(high: nat, low: nat): (c: nat)
    requires IsHighSurrogate(high) && IsLowSurrogate(low)
    ensures c == Combine(high, low)
  {
    assert high == 54 * 1024 + (high - 0xD800) && low == 55 * 1024 + (low - 0xDC00);
    0x10000 + high % 1024 * 1024 + low % 1024
  }

  /** The reading half of `utf16_literal_to_utf8`. */
  method ReadLiteral(s: Text, i: nat, end: nat) returns (l: Literal)
    requires i <= end <= |s|
    ensures l == LiteralAt(s, i, end)
  {
    if end - i < 6 { return Refused; }
    var first := ParseHex4(s, i + 2);
    if 0xDC00 <= first <= 0xDFFF { return Refused; }
    if 0xD800 <= first <= 0xDBFF {
      if end - (i + 6) < 6 { return Refused; }
      if s[i + 6] != BACKSLASH || s[i + 7] != LOWER_U { return Refused; }
      var second := ParseHex4(s, i + 8);
      if second < 0xDC00 || second > 0xDFFF { return Refused; }
      return Taken(12, Masked(first, second));
    }
    return Taken(6, first);
  }

  /** `utf16_literal_to_utf8`: returns the number of input bytes consumed, 0 on refusal, and
      the output position after the emitted bytes. Nothing is written on refusal. */
  method TranscodeLiteral(s: Text, i: nat, end: nat, out: array<byte>, at: nat)
    returns (consumed: nat, next: nat)
    requires i <= end <= |s|
    requires LiteralAt(s, i, end).Taken? ==> at + |Utf8Encode(LiteralAt(s, i, end).codepoint)| <= out.Length
    modifies out
    ensures match LiteralAt(s, i, end)
            case Refused => consumed == 0 && next == at && out[..] == old(out[..])
            case Taken(length, c) =>
              consumed == length && next == at + |Utf8Encode(c)|
              && out[..] == Overwrite(old(out[..]), at, Utf8Encode(c))
  {
    var l := ReadLiteral(s, i, end);
    if l.Refused? { return 0, at; }
    var c := l.codepoint;
    var length, mark := 1, 0;
    if c >= 0x10000 {
      length, mark := 4, 0xF0;
    } else if c >= 0x800 {
      length, mark := 3, 0xE0;
    } else if c >= 0x80 {
      length, mark := 2, 0xC0;
    }
    EmitUtf8(c, length, mark, out, at);
    return l.length, at + length;
  }
}
