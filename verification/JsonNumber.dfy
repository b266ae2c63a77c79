/**
 The arithmetic of `strtod` as src/core/cJSON.c uses it, digit by digit and scaled at the end, against
 the meaning of a decimal numeral place by place.
 */
module JsonNumber {
  import opened Bytes
  import opened JsonValue
  import opened JsonSyntax

  lemma {:induction false} DigitsJoin(a: Text, b: Text)
    requires Digits(a) && Digits(b)
    ensures DigitsValue(a + b) == DigitsValue(a) * Pow10(|b|) + DigitsValue(b)
    decreases |b|
  {
    if b == [] {
      assert a + b == a;
    } else {
      var n := |b| - 1;
      var c, v, p := b[..n], DigitsValue(a), Pow10(n);
      assert (a + b)[..|a + b| - 1] == a + c;
      DigitsJoin(a, c);
      assert Pow10(|b|) == 10 * p;
      TenTimes(v, p, DigitsValue(c));
    }
  }

  lemma TenTimes(v: int, p: int, c: int)
    ensures (v * p + c) * 10 == v * (10 * p) + c * 10
  {
  }

  /** Reading digits from the left, ten times what was there plus the next, gives their places. */
  lemma {:induction false} DigitsArePlaces(t: Text)
    requires Digits(t)
    ensures DigitsValue(t) == WholeValue(t)
  {
    if t != [] {
      DigitsArePlaces(t[1..]);
      assert t == [t[0]] + t[1..];
      DigitsJoin([t[0]], t[1..]);
      assert [t[0]][..0] == [] && DigitsValue([t[0]][..0]) == 0 && DigitsValue([t[0]]) == t[0] - ZERO;
    }
  }

  lemma Tenths(d: real, rest: real, p: real)
    ensures (d + rest) / 10.0 * (10.0 * p) == d * p + rest * p
  {
    assert (d + rest) / 10.0 * 10.0 == d + rest;
    assert (d + rest) / 10.0 * (10.0 * p) == (d + rest) / 10.0 * 10.0 * p;
  }

  lemma RealProduct(a: int, b: int)
    ensures (a * b) as real == a as real * b as real
  {
  }

  predicate Product(a: real, b: real, c: real) { a * b == c }

  lemma {:induction false} FractionDigits(t: Text)
    requires Digits(t)
    ensures Product(FractionValue(t), Pow10(|t|) as real, DigitsValue(t) as real)
  {
    DigitsArePlaces(t);
    if t != [] {
      hide Product;
      FractionDigits(t[1..]);
      DigitsArePlaces(t[1..]);
      FractionStep(t[0] - ZERO, FractionValue(t[1..]), Pow10(|t| - 1), WholeValue(t[1..]),
                   FractionValue(t), WholeValue(t));
    }
  }

  lemma FractionStep(d: int, f: real, p: int, v: int, g: real, w: int)
    requires Product(f, p as real, v as real) && g == (d as real + f) / 10.0 && w == d * p + v
    ensures Product(g, (10 * p) as real, w as real)
  {
    RealProduct(d, p);
    Tenths(d as real, f, p as real);
    assert (10 * p) as real == 10.0 * p as real;
  }

  lemma NextPower(e: int)
    ensures TenTo(e - 1) * 10.0 == TenTo(e)
  {
  }

  lemma {:induction false} PowerShifted(e: int, k: nat)
    ensures Product(Pow10(k) as real, TenTo(e - k), TenTo(e))
    decreases k
  {
    if k > 0 {
      PowerShifted(e, k - 1);
      NextPower(e - k + 1);
      var p, x := Pow10(k - 1) as real, TenTo(e - k);
      assert Pow10(k) as real == 10.0 * p;
      assert 10.0 * p * x == p * (x * 10.0);
    }
  }

  lemma Divided(y: real, p: real, x: real)
    requires p > 0.0 && p * x == 1.0
    ensures y / p == y * x
  {
    assert y * x * p == y * (p * x);
    assert y * x * p / p == y * x;
  }

  lemma ScaledIs(m: int, e: int)
    ensures Product(m as real, TenTo(e), Scaled(m, e))
  {
    if e >= 0 {
      PowerShifted(e, e);
      RealProduct(m, Pow10(e));
      assert TenTo(e - e) == 1.0 && Scaled(m, e) == (m * Pow10(e)) as real;
      hide *;
      assert Pow10(e) as real == TenTo(e);
    } else {
      PowerShifted(0, -e);
      assert TenTo(0) == 1.0 && 0 - -e == e && Scaled(m, e) == m as real / Pow10(-e) as real;
      hide *;
      Divided(m as real, Pow10(-e) as real, TenTo(e));
    }
  }

  /** What `strtod` computes is what the numeral stands for. */
  lemma AssembledRight(neg: bool, whole: Text, fraction: Text, exponent: int)
    requires Digits(whole) && Digits(fraction)
    ensures Assemble(neg, whole, fraction, exponent) == DecimalValue(neg, whole, fraction, exponent)
  {
    var n, v, e := DigitsValue(whole + fraction), DigitsValue(fraction), exponent - |fraction|;
    var m := Negate(neg, n);
    assert Assemble(neg, whole, fraction, exponent) == Scaled(m, e);
    hide Assemble, Scaled, DigitsValue, WholeValue, FractionValue, TenTo, Pow10, Product, Joined, DecimalValue;
    JoinedRight(whole, fraction);
    FractionDigits(fraction);
    PowerShifted(exponent, |fraction|);
    ScaledIs(m, e);
    AssembledStep(neg, whole, fraction, exponent, n, v, Pow10(|fraction|), TenTo(e), Scaled(m, e));
  }

  predicate Joined(n: int, w: int, p: int, v: int) { n == w * p + v }

  lemma JoinedRight(whole: Text, fraction: Text)
    requires Digits(whole) && Digits(fraction)
    ensures Joined(DigitsValue(whole + fraction), WholeValue(whole), Pow10(|fraction|), DigitsValue(fraction))
  {
    DigitsJoin(whole, fraction);
    DigitsArePlaces(whole);
  }

  lemma AssembledStep(neg: bool, whole: Text, fraction: Text, exponent: int, n: int, v: int, p: int, x: real, r: real)
    requires Digits(whole) && Digits(fraction) && Joined(n, WholeValue(whole), p, v)
    requires Product(FractionValue(fraction), p as real, v as real) && Product(p as real, x, TenTo(exponent))
    requires Product(Negate(neg, n) as real, x, r)
    ensures r == DecimalValue(neg, whole, fraction, exponent)
  {
    hide WholeValue, FractionValue, TenTo;
    var w, f := WholeValue(whole), FractionValue(fraction);
    RealProduct(w, p);
    ScaledOut(n as real, w as real, f, p as real, x, TenTo(exponent));
    Signed(neg, n as real, x);
    assert Negate(neg, n) as real == if neg then -(n as real) else n as real;
  }

  lemma ScaledOut(n: real, w: real, f: real, p: real, x: real, y: real)
    requires n == w * p + f * p && p * x == y
    ensures n * x == (w + f) * y
  {
    assert n == (w + f) * p;
    assert (w + f) * p * x == (w + f) * (p * x);
  }

  lemma Signed(neg: bool, n: real, x: real)
    ensures (if neg then -n else n) * x == (if neg then -1.0 else 1.0) * (n * x)
  {
    assert -n * x == -(n * x);
  }

  /** A numeral without fraction and exponent. */
  lemma WholeNumber(neg: bool, whole: Text, n: int)
    requires Digits(whole) && DigitsValue(whole) == (if neg then 0 - n else n)
    ensures DecimalValue(neg, whole, [], 0) == n as real
  {
    DigitsArePlaces(whole);
    hide WholeValue, DigitsValue;
    assert FractionValue([]) == 0.0 && TenTo(0) == 1.0;
    assert (WholeValue(whole) as real + 0.0) * 1.0 == WholeValue(whole) as real;
  }
}
