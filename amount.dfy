/** `parseFloat` on the decimal notations a quiz host types for an 'amount'
    answer, and JavaScript's `===` on the numbers it yields. A number is kept
    exactly, as `mantissa * 10^exponent`. */
module Amount {
  import opened Basics
  import opened Text

  datatype Decimal = Decimal(mantissa: int, exponent: int)

  function Pow10(n: nat): (r: nat)
    ensures r >= 1
  {
    if n == 0 then 1 else 10 * Pow10(n - 1)
  }

  /** The value of an exponent suffix `e[+-]digits` that starts `s`, or 0
      when `s` does not start with a complete one. */
  function ExponentPart(s: string): int
  {
    if |s| >= 2 && (s[0] == 'e' || s[0] == 'E') then
      var t := if s[1] == '+' || s[1] == '-' then s[2..] else s[1..];
      var d := LeadingDigits(t);
      var v: int := DigitsValue(t[..d]);
      if d == 0 then 0 else if s[1] == '-' then -v else v
    else 0
  }

  /** `parseFloat(s)`: leading white space, an optional sign, digits with an
      optional fraction, an optional exponent; the longest such prefix is
      read and the rest ignored. `None` is `NaN`. */
  function ParseAmount(s: string): Option<Decimal>
  {
    var t := TrimStart(s);
    if |t| > 0 && t[0] == '-' then
      match ParseUnsigned(t[1..])
      case None => None
      case Some(d) => Some(Decimal(-d.mantissa, d.exponent))
    else if |t| > 0 && t[0] == '+' then ParseUnsigned(t[1..])
    else ParseUnsigned(t)
  }

  function ParseUnsigned(body: string): Option<Decimal>
  {
    var n := LeadingDigits(body);
    ParseAfterDigits(body[..n], body[n..])
  }

  /** The number whose integer digits are `whole`, read on through the
      fraction and exponent that may start `rest`. */
  function ParseAfterDigits(whole: string, rest: string): Option<Decimal>
    requires AllDigits(whole)
  {
    if |rest| > 0 && rest[0] == '.' then
      var f := LeadingDigits(rest[1..]);
      if |whole| == 0 && f == 0 then None
      else
        var fraction := rest[1..][..f];
        AllDigitsConcat(whole, fraction);
        Some(Decimal(DigitsValue(whole + fraction), ExponentPart(rest[1 + f..]) - f))
    else if |whole| == 0 then None
    else Some(Decimal(DigitsValue(whole), ExponentPart(rest)))
  }

  /** Two decimals denote the same number. */
  predicate SameValue(a: Decimal, b: Decimal) {
    var e := Min(a.exponent, b.exponent);
    a.mantissa * Pow10(a.exponent - e) == b.mantissa * Pow10(b.exponent - e)
  }

  /** `parseFloat(x) === parseFloat(y)` with neither side `NaN`. */
  predicate SameAmount(x: string, y: string) {
    var px, py := ParseAmount(x), ParseAmount(y);
    px.Some? && py.Some? && SameValue(px.value, py.value)
  }

  lemma SameValueSymmetric(a: Decimal, b: Decimal)
    ensures SameValue(a, b) <==> SameValue(b, a)
  {
  }

  lemma SameAmountSymmetric(x: string, y: string)
    ensures SameAmount(x, y) <==> SameAmount(y, x)
  {
    if ParseAmount(x).Some? && ParseAmount(y).Some? {
      SameValueSymmetric(ParseAmount(x).value, ParseAmount(y).value);
    }
  }

  /** A trailing zero in the fraction does not change the number. */
  lemma TrailingZero(m: int, e: int)
    ensures SameValue(Decimal(m, e), Decimal(m * 10, e - 1))
  {
    assert Pow10(1) == 10;
  }

  /** A string that starts with a digit has no padding and no sign. */
  lemma ParseFromDigit(s: string)
    requires |s| > 0 && IsDigit(s[0])
    ensures ParseAmount(s) == ParseUnsigned(s)
  {
    assert TrimStart(s) == s;
  }

  /** An integer written out in decimal reads back as itself. */
  lemma ParseNatToString(n: nat)
    ensures ParseAmount(NatToString(n)) == Some(Decimal(n, 0))
  {
    var s := NatToString(n);
    ParseFromDigit(s);
    assert ParseUnsigned(s) == Some(Decimal(n, 0)) by {
      LeadingDigitsAll(s);
      assert s[..|s|] == s;
      NatToStringRoundTrip(n);
    }
  }

  /** A plain decimal `digits.digits` reads as the digit string without the
      point, scaled down by the number of fraction digits. */
  lemma ParsePlainDecimal(a: string, b: string)
    requires |a| > 0 && AllDigits(a) && AllDigits(b)
    ensures AllDigits(a + b)
    ensures ParseAmount(a + "." + b) == Some(Decimal(DigitsValue(a + b), -|b|))
  {
    assert (a + "." + b)[0] == a[0];
    ParseFromDigit(a + "." + b);
    ParseUnsignedPlain(a, b);
  }

  lemma ParseWholeThenPoint(a: string, b: string)
    requires |a| > 0 && AllDigits(a) && AllDigits(b)
    ensures ParseUnsigned(a + "." + b) == ParseAfterDigits(a, "." + b)
  {
    var s := a + "." + b;
    assert s == a + ("." + b);
    LeadingDigitsPrefix(a, "." + b);
    assert s[..|a|] == a;
    assert s[|a|..] == "." + b;
  }

  lemma ParseFraction(a: string, b: string)
    requires AllDigits(a) && AllDigits(b)
    ensures AllDigits(a + b)
    ensures ParseAfterDigits(a, "." + b)
            == if |a| == 0 && |b| == 0 then None else Some(Decimal(DigitsValue(a + b), -|b|))
  {
    AllDigitsConcat(a, b);
    var rest := "." + b;
    assert rest[1..] == b;
    LeadingDigitsAll(b);
    assert b[..|b|] == b;
    assert rest[1 + |b|..] == "";
  }

  lemma AppendZeroDigit(s: string)
    requires AllDigits(s)
    ensures AllDigits(s + "0") && DigitsValue(s + "0") == DigitsValue(s) * 10
  {
    assert (s + "0")[..|s|] == s;
  }

  lemma Reassociate(x: string, y: string, z: string)
    ensures x + (y + z) == (x + y) + z
  {
  }

  lemma DigitsWithZero(a: string, b: string)
    requires AllDigits(a) && AllDigits(b)
    ensures AllDigits(a + b) && AllDigits(a + (b + "0"))
    ensures DigitsValue(a + (b + "0")) == DigitsValue(a + b) * 10
  {
    AllDigitsConcat(a, b);
    AppendZeroDigit(a + b);
    Reassociate(a, b, "0");
  }

  lemma ParseUnsignedPlain(a: string, b: string)
    requires |a| > 0 && AllDigits(a) && AllDigits(b)
    ensures AllDigits(a + b)
    ensures ParseUnsigned(a + "." + b) == Some(Decimal(DigitsValue(a + b), -|b|))
  {
    ParseWholeThenPoint(a, b);
    ParseFraction(a, b);
  }

  /** Writing a plain decimal with one more trailing zero in its fraction
      gives the same amount: "34.50" matches "34.5". */
  lemma FractionTrailingZero(a: string, b: string)
    requires |a| > 0 && AllDigits(a) && AllDigits(b)
    ensures SameAmount(a + "." + b, a + "." + b + "0")
  {
    AppendZeroDigit(b);
    ParsePlainDecimal(a, b);
    ParsePlainDecimal(a, b + "0");
    Reassociate(a + ".", b, "0");
    DigitsWithZero(a, b);
    TrailingZero(DigitsValue(a + b), -|b|);
  }
}
