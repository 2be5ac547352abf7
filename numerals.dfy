/**
 * Numerals: the restricted numeric grammar `pandas.to_numeric` is modelled on
 * here (an optional sign, digits, an optional fraction), the decimal digits
 * of whole amounts, and whole amounts written with thousands separators, as
 * the sheet's text holds them ("1,250,000").
 */
module Numerals {
  import opened Wrappers
  import opened Text

  // ---------------------------------------------------------------------
  // Digits and the restricted numeric grammar
  // ---------------------------------------------------------------------

  predicate IsDigit(c: char) {
    '0' <= c <= '9'
  }

  predicate AllDigits(s: string) {
    forall k :: 0 <= k < |s| ==> IsDigit(s[k])
  }

  function DigitValue(c: char): (d: nat)
    requires IsDigit(c)
    ensures d < 10
  {
    (c as int) - ('0' as int)
  }

  function DigitChar(d: nat): (c: char)
    requires d < 10
    ensures IsDigit(c) && DigitValue(c) == d
  {
    (('0' as int) + d) as char
  }

  function Pow10(n: nat): (r: nat)
    ensures r >= 1
  {
    if n == 0 then 1 else 10 * Pow10(n - 1)
  }

  /** The natural number a string of decimal digits denotes. */
  function Value(s: string): nat
    requires AllDigits(s)
  {
    if s == [] then 0 else Value(s[..|s| - 1]) * 10 + DigitValue(s[|s| - 1])
  }

  /** The value of two digit strings side by side. */
  lemma {:induction false} ValueConcat(a: string, b: string)
    requires AllDigits(a) && AllDigits(b)
    ensures AllDigits(a + b)
    ensures Value(a + b) == Value(a) * Pow10(|b|) + Value(b)
  {
    if b == [] {
      assert a + b == a;
    } else {
      var b' := b[..|b| - 1];
      var d := DigitValue(b[|b| - 1]);
      assert AllDigits(a + b) by {
        forall k | 0 <= k < |a + b| ensures IsDigit((a + b)[k]) {
          if k >= |a| {
            assert (a + b)[k] == b[k - |a|];
          }
        }
      }
      assert (a + b)[..|a + b| - 1] == a + b';
      assert Value(a + b) == Value(a + b') * 10 + d;
      ValueConcat(a, b');
      ShiftDigit(Value(a), Pow10(|b'|), Value(b'), d);
    }
  }

  /** Appending a digit to both parts of a shifted sum. */
  lemma ShiftDigit(x: nat, p: nat, y: nat, d: nat)
    ensures (x * p + y) * 10 + d == x * (10 * p) + (y * 10 + d)
  {
  }

  /** The number whole digits, a point and fraction digits denote. */
  function DecimalValue(whole: string, fraction: string): real
    requires AllDigits(whole) && AllDigits(fraction)
  {
    Value(whole) as real + Value(fraction) as real / Pow10(|fraction|) as real
  }

  /**
   * An unsigned decimal, `D+ ('.' D*)?` or `'.' D+`, and the number it denotes;
   * None for anything else.
   */
  function ParseUnsigned(s: string): (r: Option<real>)
    ensures r.Some? ==> |s| > 0 && forall k :: 0 <= k < |s| ==> IsDigit(s[k]) || s[k] == '.'
  {
    var whole := Before(s, '.');
    var fraction := if '.' in s then After(s, '.') else [];
    if AllDigits(whole) && AllDigits(fraction) && |whole| + |fraction| > 0 then
      assert forall k :: |whole| < k < |s| ==> s[k] == fraction[k - |whole| - 1];
      Some(DecimalValue(whole, fraction))
    else
      None
  }

  /**
   * The numeric grammar of this model: an optional sign followed by an
   * unsigned decimal. Exponents, `inf`, `nan` and surrounding whitespace are
   * not part of it. A string that parses consists of digits, at most a
   * leading sign, and '.' only.
   */
  function ParseNumber(s: string): (r: Option<real>)
    ensures r.Some? ==> |s| > 0
    ensures r.Some? ==> forall k :: 0 <= k < |s| ==>
              IsDigit(s[k]) || s[k] == '.' || (k == 0 && (s[k] == '+' || s[k] == '-'))
  {
    if |s| > 0 && (s[0] == '+' || s[0] == '-') then
      var u := ParseUnsigned(s[1..]);
      assert u.Some? ==> forall k :: 1 <= k < |s| ==> s[k] == s[1..][k - 1];
      match u
      case None => None
      case Some(v) => Some(if s[0] == '-' then -v else v)
    else
      ParseUnsigned(s)
  }

  /** A string of digits has no '.' in it. */
  lemma DigitsHaveNoPoint(d: string)
    requires AllDigits(d)
    ensures '.' !in d && ',' !in d
  {
    forall k | 0 <= k < |d| ensures d[k] != '.' && d[k] != ',' {
      assert IsDigit(d[k]);
    }
  }

  /** A non-empty string of digits is an unsigned decimal without a fraction. */
  lemma ParseUnsignedDigits(d: string)
    requires |d| > 0 && AllDigits(d)
    ensures ParseUnsigned(d) == Some(Value(d) as real)
  {
    DigitsHaveNoPoint(d);
    BeforeAbsent(d, '.');
    assert DecimalValue(d, []) == Value(d) as real;
  }

  /** A non-empty string of digits parses to its value. */
  lemma ParseDigits(d: string)
    requires |d| > 0 && AllDigits(d)
    ensures ParseNumber(d) == Some(Value(d) as real)
  {
    ParseUnsignedDigits(d);
    assert IsDigit(d[0]);
  }

  lemma ParseUnsignedDecimal(d: string, f: string)
    requires |d| + |f| > 0 && AllDigits(d) && AllDigits(f)
    ensures ParseUnsigned(d + ['.'] + f) == Some(DecimalValue(d, f))
  {
    var s := d + ['.'] + f;
    DigitsHaveNoPoint(d);
    BeforeConcat(d, f, '.');
    assert s[|d|] == '.';
    var r := After(s, '.');
    assert r == s[|d| + 1..];
    assert s[|d| + 1..] == f;
  }

  /** Digits, a point and digits: the whole part plus the fraction, as a float's text "1250000.0" reads. */
  lemma ParseDecimal(d: string, f: string)
    requires |d| > 0 && AllDigits(d) && AllDigits(f)
    ensures ParseNumber(d + ['.'] + f) == Some(DecimalValue(d, f))
  {
    ParseUnsignedDecimal(d, f);
    assert IsDigit((d + ['.'] + f)[0]) by { assert (d + ['.'] + f)[0] == d[0]; }
  }

  /** A leading minus negates the unsigned decimal after it. */
  lemma ParseMinus(u: string, v: real)
    requires ParseUnsigned(u) == Some(v)
    ensures ParseNumber(['-'] + u) == Some(-v)
  {
    assert (['-'] + u)[1..] == u;
  }

  /** A leading plus keeps the unsigned decimal after it. */
  lemma ParsePlus(u: string, v: real)
    requires ParseUnsigned(u) == Some(v)
    ensures ParseNumber(['+'] + u) == Some(v)
  {
    assert (['+'] + u)[1..] == u;
  }

  /** A leading minus negates. */
  lemma ParseNegative(d: string)
    requires |d| > 0 && AllDigits(d)
    ensures ParseNumber(['-'] + d) == Some(-(Value(d) as real))
  {
    ParseUnsignedDigits(d);
    ParseMinus(d, Value(d) as real);
  }

  /** A leading plus changes nothing. */
  lemma ParsePositive(d: string)
    requires |d| > 0 && AllDigits(d)
    ensures ParseNumber(['+'] + d) == Some(Value(d) as real)
  {
    ParseUnsignedDigits(d);
    ParsePlus(d, Value(d) as real);
  }

  /** A leading minus negates a decimal: "-2.5" is minus two and a half. */
  lemma ParseNegativeDecimal(d: string, f: string, v: real)
    requires |d| > 0 && AllDigits(d) && AllDigits(f) && v == DecimalValue(d, f)
    ensures ParseNumber(['-'] + (d + ['.'] + f)) == Some(-v)
  {
    var u := d + ['.'] + f;
    ParseUnsignedDecimal(d, f);
    ParseMinus(u, v);
  }

  /** A point and digits with no whole part: ".5" is a half. */
  lemma ParseFraction(f: string)
    requires |f| > 0 && AllDigits(f)
    ensures ParseNumber(['.'] + f) == Some(Value(f) as real / Pow10(|f|) as real)
  {
    var s := ['.'] + f;
    ParseUnsignedDecimal([], f);
    assert [] + ['.'] + f == s;
    assert ParseNumber(s) == ParseUnsigned(s) by { assert s[0] == '.'; }
    assert DecimalValue([], f) == Value(f) as real / Pow10(|f|) as real by { assert Value([]) == 0; }
  }

  // ---------------------------------------------------------------------
  // Formatting of whole numbers
  // ---------------------------------------------------------------------

  /** `str(n)`: the decimal digits of n without leading zeros. */
  function Digits(n: nat): (r: string)
    ensures |r| > 0 && AllDigits(r)
  {
    if n < 10 then [DigitChar(n)] else Digits(n / 10) + [DigitChar(n % 10)]
  }

  /** Digits is inverted by Value. */
  lemma {:induction false} DigitsValue(n: nat)
    ensures Value(Digits(n)) == n
  {
    if n >= 10 {
      var d := Digits(n);
      assert d[..|d| - 1] == Digits(n / 10);
      DigitsValue(n / 10);
    }
  }

  /** Exactly three digits, with leading zeros: the groups after a separator. */
  function Pad3(m: nat): (r: string)
    requires m < 1000
    ensures |r| == 3 && AllDigits(r)
  {
    [DigitChar(m / 100), DigitChar(m / 10 % 10), DigitChar(m % 10)]
  }

  lemma Pad3Value(m: nat)
    requires m < 1000
    ensures Value(Pad3(m)) == m
  {
    var p := Pad3(m);
    var q := m / 10;
    assert p[..1] == [p[0]] && p[..2][..1] == p[..1] && p[..|p| - 1] == p[..2];
    assert Value(p[..1]) == q / 10 by {
      assert Value(p[..1][..0]) == 0;
    }
    assert Value(p[..2]) == q by {
      assert q == (q / 10) * 10 + q % 10;
    }
    assert m == q * 10 + m % 10;
  }

  /**
   * n with a comma between every group of three digits, as a whole amount
   * is written in the sheet's text ("1,250,000").
   */
  function Grouped(n: nat): (r: string)
    ensures |r| > 0
    ensures forall k :: 0 <= k < |r| ==> IsDigit(r[k]) || r[k] == ','
  {
    if n < 1000 then Digits(n) else Grouped(n / 1000) + [','] + Pad3(n % 1000)
  }

  /** A string of digits contains no separator. */
  lemma RemoveFromDigits(d: string)
    requires AllDigits(d)
    ensures RemoveAll(d, ',') == d
  {
    DigitsHaveNoPoint(d);
    RemoveAllAbsent(d, ',');
  }

  /** Deleting the separators from a grouped number deletes them group by group. */
  lemma UngroupedStep(n: nat)
    requires n >= 1000
    ensures RemoveAll(Grouped(n), ',') == RemoveAll(Grouped(n / 1000), ',') + Pad3(n % 1000)
  {
    var g := Grouped(n / 1000);
    var p := Pad3(n % 1000);
    assert Grouped(n) == g + [','] + p;
    RemoveSeparator(g, p);
  }

  /** Deleting the separators from g, a comma and a group of digits keeps the group whole. */
  lemma RemoveSeparator(g: string, p: string)
    requires AllDigits(p)
    ensures RemoveAll(g + [','] + p, ',') == RemoveAll(g, ',') + p
  {
    var gc := g + [','];
    RemoveAllConcat(gc, p, ',');
    RemoveAllConcat(g, [','], ',');
    assert RemoveAll([','], ',') == [];
    RemoveFromDigits(p);
    assert RemoveAll(gc, ',') == RemoveAll(g, ',');
  }

  /** Deleting the separators from a grouped number leaves a numeral with its value. */
  lemma {:induction false} UngroupedValue(n: nat)
    ensures AllDigits(RemoveAll(Grouped(n), ','))
    ensures |RemoveAll(Grouped(n), ',')| > 0
    ensures Value(RemoveAll(Grouped(n), ',')) == n
  {
    if n < 1000 {
      RemoveFromDigits(Digits(n));
      DigitsValue(n);
    } else {
      UngroupedValue(n / 1000);
      UngroupedStep(n);
      ValueConcat(RemoveAll(Grouped(n / 1000), ','), Pad3(n % 1000));
      Pad3Value(n % 1000);
    }
  }

}
