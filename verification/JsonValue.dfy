/** JSON values as `cJSON` items represent them, and the numbers they hold. */
module JsonValue {
  import opened Bytes

  datatype Member = Member(key: Text, value: Value)

  /** Numbers are exact: `strtod` and `valuedouble` without the rounding. */
  datatype Value =
    | Null
    | False
    | True
    | Number(number: real)
    | Str(text: Text)
    | Array(items: seq<Value>)
    | Object(members: seq<Member>)

  const NESTING_LIMIT: nat := 1000

  function Max(a: nat, b: nat): nat { if a < b then b else a }

  /** How deeply arrays and objects are nested in a value. */
  function Depth(v: Value): nat {
    match v
    case Array(items) => 1 + ItemsDepth(items)
    case Object(members) => 1 + MembersDepth(members)
    case _ => 0
  }

  function ItemsDepth(items: seq<Value>): nat {
    if items == [] then 0 else Max(Depth(items[0]), ItemsDepth(items[1..]))
  }

  function MembersDepth(members: seq<Member>): nat {
    if members == [] then 0 else Max(Depth(members[0].value), MembersDepth(members[1..]))
  }

  /** The values that the printer renders exactly: `valueint` numbers and C strings. */
  predicate Printable(v: Value) {
    match v
    case Number(x) => IsInt32(x)
    case Str(s) => NulFree(s)
    case Array(items) => ItemsPrintable(items)
    case Object(members) => MembersPrintable(members)
    case _ => true
  }

  predicate ItemsPrintable(items: seq<Value>) {
    items != [] ==> Printable(items[0]) && ItemsPrintable(items[1..])
  }

  predicate MembersPrintable(members: seq<Member>) {
    members != [] ==>
      NulFree(members[0].key) && Printable(members[0].value) && MembersPrintable(members[1..])
  }

  /** All numbers are 32-bit integers. */
  predicate IntNumbers(v: Value) {
    match v
    case Number(x) => IsInt32(x)
    case Array(items) => ItemsInt(items)
    case Object(members) => MembersInt(members)
    case _ => true
  }

  predicate ItemsInt(items: seq<Value>) { items != [] ==> IntNumbers(items[0]) && ItemsInt(items[1..]) }

  predicate MembersInt(members: seq<Member>) {
    members != [] ==> IntNumbers(members[0].value) && MembersInt(members[1..])
  }

  predicate IsInt32(x: real) {
    INT_MIN <= x.Floor <= INT_MAX && x == x.Floor as real
  }

  // ---- Decimal digits --------------------------------------------------------------------

  predicate Digits(s: Text) { forall i :: 0 <= i < |s| ==> IsDigit(s[i]) }

  function DigitsValue(s: Text): nat
    requires Digits(s)
  {
    if s == [] then 0 else DigitsValue(s[..|s| - 1]) * 10 + (s[|s| - 1] - ZERO)
  }

  /** "%d" for a non-negative number. */
  function NatText(n: nat): (s: Text)
    ensures s != [] && Digits(s)
  {
    if n < 10 then [ZERO + n] else NatText(n / 10) + [ZERO + n % 10]
  }

  lemma {:induction false} NatTextValue(n: nat)
    ensures DigitsValue(NatText(n)) == n
  {
    var s := NatText(n);
    if n < 10 {
      assert s[..0] == [] && DigitsValue(s[..0]) == 0;
    } else {
      NatTextValue(n / 10);
      assert s[..|s| - 1] == NatText(n / 10);
    }
  }

  /** "%d" */
  function IntText(n: int): Text {
    if n < 0 then [MINUS] + NatText(-n) else NatText(n)
  }

  function Pow10(n: nat): (p: nat)
    ensures p > 0
  {
    if n == 0 then 1 else 10 * Pow10(n - 1)
  }

  /** `m` times ten to the power `e`. */
  function Scaled(m: int, e: int): real {
    if e >= 0 then (m * Pow10(e)) as real else m as real / Pow10(-e) as real
  }

  // ---- strtod ----------------------------------------------------------------------------

  function DigitsEnd(s: Text, i: nat): (r: nat)
    requires i <= |s|
    ensures i <= r <= |s|
    ensures Digits(s[i..r])
    ensures r < |s| ==> !IsDigit(s[r])
    decreases |s| - i
  {
    if i == |s| || !IsDigit(s[i]) then i
    else
      var r := DigitsEnd(s, i + 1);
      assert s[i..r] == [s[i]] + s[i + 1..r];
      r
  }

  function Negate(neg: bool, n: int): int { if neg then -n else n }

  /** The exponent part that starts at `f`: its value and the index after it. A letter without
      digits after it is not an exponent. */
  function ExponentAt(s: Text, f: nat): (r: (int, nat))
    requires f <= |s|
    ensures f <= r.1 <= |s|
  {
    if f == |s| || (s[f] != LOWER_E && s[f] != UPPER_E) then (0, f)
    else
      var g := if f + 1 < |s| && (s[f + 1] == PLUS || s[f + 1] == MINUS) then f + 2 else f + 1;
      var h := DigitsEnd(s, g);
      if h == g then (0, f)
      else (Negate(s[f + 1] == MINUS, DigitsValue(s[g..h])), h)
  }

  /** `strtod` on text made of digits, signs, points and exponent letters: the number and how
      many bytes it took, 0 when there is no number. */
  function StrToD(s: Text): (r: (real, nat))
    ensures r.1 <= |s|
  {
    var neg := s != [] && s[0] == MINUS;
    var i := if neg then 1 else 0;
    var d := DigitsEnd(s, i);
    var f := if d < |s| && s[d] == DOT then DigitsEnd(s, d + 1) else d;
    var fraction := if f == d then [] else s[d + 1..f];
    if d == i && fraction == [] then (0.0, 0)
    else (Assemble(neg, s[i..d], fraction, ExponentAt(s, f).0), ExponentAt(s, f).1)
  }

  /** The number with the given digits before and after the point and the given exponent. */
  function Assemble(neg: bool, whole: Text, fraction: Text, exponent: int): real
    requires Digits(whole) && Digits(fraction)
  {
    Scaled(Negate(neg, DigitsValue(whole + fraction)), exponent - |fraction|)
  }

  predicate IsNumberByte(b: byte) {
    IsDigit(b) || b == PLUS || b == MINUS || b == LOWER_E || b == UPPER_E || b == DOT
  }

  /** Where the run of number bytes that `parse_number` copies ends. */
  function RunEnd(s: Text, o: nat): (e: nat)
    requires o <= |s|
    ensures o <= e <= |s|
    decreases |s| - o
  {
    if o == |s| || !IsNumberByte(s[o]) then o else RunEnd(s, o + 1)
  }
}
