/** The integer part of JavaScript's global `parseInt`, called with one
    argument, as the configuration loader uses it. */
module JsNumber {
  import opened Strings

  /** A JavaScript number produced by `parseInt`: an integer or `NaN`. */
  datatype Number = Num(value: int) | NaN

  /** The value of `c` as a digit in base `radix`, or `radix` itself when
      `c` is not such a digit. */
  function DigitValue(c: char, radix: nat): (d: nat)
    requires 2 <= radix <= 36
    ensures d <= radix
  {
    var v :=
      if '0' <= c <= '9' then c as int - '0' as int
      else if 'a' <= c <= 'z' then c as int - 'a' as int + 10
      else if 'A' <= c <= 'Z' then c as int - 'A' as int + 10
      else radix;
    if v < radix then v else radix
  }

  predicate IsDigitIn(c: char, radix: nat)
    requires 2 <= radix <= 36
  {
    DigitValue(c, radix) < radix
  }

  /** Length of the longest prefix of `s` made of digits of base `radix`. */
  function DigitSpan(s: string, radix: nat): (n: nat)
    requires 2 <= radix <= 36
    ensures n <= |s|
    ensures forall k :: 0 <= k < n ==> IsDigitIn(s[k], radix)
    ensures n < |s| ==> !IsDigitIn(s[n], radix)
  {
    if |s| == 0 || !IsDigitIn(s[0], radix) then 0 else 1 + DigitSpan(s[1..], radix)
  }

  /** Positional value of a digit string, most significant digit first. */
  function DigitsValue(ds: string, radix: nat): nat
    requires 2 <= radix <= 36
  {
    if |ds| == 0 then 0
    else DigitsValue(ds[..|ds| - 1], radix) * radix + DigitValue(ds[|ds| - 1], radix) % radix
  }

  /** `parseInt(s)`: skip leading white space, read an optional sign, then
      the magnitude; a minus sign negates it, and `NaN` stays `NaN`. */
  function ParseInt(s: string): Number {
    var t := s[SpanLen(s, true)..];
    var m := Magnitude(AfterSign(t));
    if |t| > 0 && t[0] == '-' && m.Num? then Num(0 - m.value) else m
  }

  /** The text after a leading `+` or `-`, if there is one. */
  function AfterSign(t: string): (u: string)
    ensures |t| > 0 && (t[0] == '-' || t[0] == '+') ==> u == t[1..]
    ensures !(|t| > 0 && (t[0] == '-' || t[0] == '+')) ==> u == t
  {
    if |t| > 0 && (t[0] == '-' || t[0] == '+') then t[1..] else t
  }

  /** A `0x` or `0X` prefix selects base 16. */
  predicate HexPrefixed(u: string) {
    |u| >= 2 && u[0] == '0' && (u[1] == 'x' || u[1] == 'X')
  }

  /** The unsigned part: the longest run of digits in the chosen base, or
      `NaN` when there is none. */
  function Magnitude(u: string): (m: Number)
    ensures m.Num? ==> m.value >= 0
  {
    var radix := if HexPrefixed(u) then 16 else 10;
    var v := if HexPrefixed(u) then u[2..] else u;
    var k := DigitSpan(v, radix);
    if k == 0 then NaN else Num(DigitsValue(v[..k], radix))
  }

  /** The decimal numeral of `n`, without sign or leading zeros. */
  function Decimal(n: nat): (d: string)
    ensures |d| > 0
    ensures forall k :: 0 <= k < |d| ==> IsDigit(d[k])
  {
    if n < 10 then [('0' as int + n) as char]
    else Decimal(n / 10) + [('0' as int + n % 10) as char]
  }

  /** `parseInt` reads back every decimal numeral. */
  lemma ParseIntDecimal(n: nat)
    ensures ParseInt(Decimal(n)) == Num(n)
  {
    DecimalDigits(n);
    ParseIntDigits(Decimal(n));
  }

  /** A plain run of decimal digits is read in base 10 as a whole. */
  lemma ParseIntDigits(d: string)
    requires |d| > 0 && forall k :: 0 <= k < |d| ==> IsDigit(d[k])
    ensures ParseInt(d) == Num(DigitsValue(d, 10))
  {
    assert !IsSpace(d[0]) && d[0] != '-' && d[0] != '+';
    assert d[SpanLen(d, true)..] == d;
    assert AfterSign(d) == d;
    MagnitudeDigits(d);
  }

  lemma MagnitudeDigits(d: string)
    requires |d| > 0 && forall k :: 0 <= k < |d| ==> IsDigit(d[k])
    ensures Magnitude(d) == Num(DigitsValue(d, 10))
  {
    assert |d| >= 2 ==> IsDigit(d[1]);
    assert !HexPrefixed(d);
    AllDigitsSpan(d);
    assert d[..|d|] == d;
  }

  lemma {:induction false} DecimalDigits(n: nat)
    ensures DigitSpan(Decimal(n), 10) == |Decimal(n)|
    ensures DigitsValue(Decimal(n), 10) == n
  {
    AllDigitsSpan(Decimal(n));
    if n >= 10 {
      DecimalDigits(n / 10);
      var d := Decimal(n);
      assert d[..|d| - 1] == Decimal(n / 10);
    }
  }

  lemma {:induction false} AllDigitsSpan(s: string)
    requires forall k :: 0 <= k < |s| ==> IsDigit(s[k])
    ensures DigitSpan(s, 10) == |s|
  {
    if |s| > 0 {
      AllDigitsSpan(s[1..]);
    }
  }
}
