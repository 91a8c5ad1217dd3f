/** JavaScript's `parseInt(string)` (no radix argument) and `parseFloat(string)`
    as prefix parsers over exact numbers; NaN is None. Decimal rendering of
    naturals is here too, as the inverse the parsers are checked against. */
module JsNumbers {
  import opened Wrappers
  import opened Text

  /** Value of `c` as a digit of radix up to 36; 36 when `c` is no digit. */
  function DigitValue(c: char): (d: nat)
    ensures d <= 36
  {
    if '0' <= c <= '9' then c as int - '0' as int
    else if 'a' <= c <= 'z' then c as int - 'a' as int + 10
    else if 'A' <= c <= 'Z' then c as int - 'A' as int + 10
    else 36
  }

  /** The number of radix-`radix` digits `s` starts with. */
  function DigitCount(s: string, radix: nat): (n: nat)
    ensures n <= |s|
    ensures forall k :: 0 <= k < n ==> DigitValue(s[k]) < radix
    ensures n == |s| || DigitValue(s[n]) >= radix
    decreases |s|
  {
    if s != [] && DigitValue(s[0]) < radix then 1 + DigitCount(s[1..], radix) else 0
  }

  /** The longest prefix of `s` made of radix-`radix` digits. */
  function DigitPrefix(s: string, radix: nat): string {
    s[..DigitCount(s, radix)]
  }

  /** The number a digit string denotes in radix `radix`, most significant digit first. */
  function Value(z: string, radix: nat): nat {
    if z == [] then 0
    else Value(z[..|z| - 1], radix) * radix + DigitValue(z[|z| - 1]) % 36
  }

  /** `m` times 10 raised to `e`, exact. */
  function Shift(m: real, e: int): real
    decreases if e >= 0 then e else -e
  {
    if e == 0 then m
    else if e > 0 then Shift(m * 10.0, e - 1)
    else Shift(m / 10.0, e + 1)
  }

  /** The text after one leading sign character, if any. */
  function Unsigned(t: string): (u: string)
    ensures |u| <= |t|
  {
    if StartsWith(t, '-') || StartsWith(t, '+') then t[1..] else t
  }

  /** ECMAScript's parseInt without a radix: leading white space is skipped,
      one sign is taken, a `0x`/`0X` prefix switches to radix 16, then the
      longest digit prefix is read; no digit at all gives NaN. */
  function ParseInt(s: string): Option<int> {
    var t := TrimStart(s);
    var negative := StartsWith(t, '-');
    var u := Unsigned(t);
    var hex := |u| >= 2 && u[0] == '0' && (u[1] == 'x' || u[1] == 'X');
    var z := if hex then DigitPrefix(u[2..], 16) else DigitPrefix(u, 10);
    if z == [] then None
    else
      var v: int := if hex then Value(z, 16) else Value(z, 10);
      Some(if negative then -v else v)
  }

  /** The exponent written by a leading `e`/`E`, optional sign and at least one
      digit; 0 when `s` does not start with one. */
  function Exponent(s: string): int {
    if |s| >= 2 && (s[0] == 'e' || s[0] == 'E') then
      var signed := s[1] == '+' || s[1] == '-';
      var digits := DigitPrefix(if signed then s[2..] else s[1..], 10);
      var v: int := Value(digits, 10);
      if digits == [] then 0 else if s[1] == '-' then -v else v
    else 0
  }

  /** The value of the longest unsigned decimal literal at the start of `u`:
      digits, an optional fraction after `.`, an optional exponent; None when
      there is no digit before or after the point. */
  function UnsignedDecimal(u: string): Option<real> {
    var whole := DigitPrefix(u, 10);
    var afterWhole := u[|whole|..];
    var hasPoint := StartsWith(afterWhole, '.');
    var fraction := if hasPoint then DigitPrefix(afterWhole[1..], 10) else [];
    var afterMantissa := if hasPoint then afterWhole[1 + |fraction|..] else afterWhole;
    if whole == [] && fraction == [] then None
    else Some(Shift(Value(whole + fraction, 10) as real, Exponent(afterMantissa) - |fraction|))
  }

  /** ECMAScript's parseFloat: leading white space is skipped, one sign is
      taken, then the longest decimal literal is read; none gives NaN. */
  function ParseFloat(s: string): Option<real> {
    var t := TrimStart(s);
    match UnsignedDecimal(Unsigned(t))
    case None => None
    case Some(m) => Some(if StartsWith(t, '-') then -m else m)
  }

  function DigitChar(d: nat): (c: char)
    requires d < 10
    ensures DigitValue(c) == d
  {
    "0123456789"[d]
  }

  /** Decimal rendering of a natural number, without leading zeros. */
  function NatToString(n: nat): (s: string)
    ensures |s| >= 1
    ensures forall k :: 0 <= k < |s| ==> DigitValue(s[k]) < 10
    ensures s[0] == '0' ==> n == 0 && |s| == 1
  {
    if n < 10 then [DigitChar(n)] else NatToString(n / 10) + [DigitChar(n % 10)]
  }

  function IntToString(n: int): string {
    if n < 0 then "-" + NatToString(-n) else NatToString(n)
  }

  /** The value of a decimal rendering is the number rendered. */
  lemma {:induction false} ValueOfNatToString(n: nat)
    ensures Value(NatToString(n), 10) == n
  {
    if n < 10 {
      ValueSnoc([], DigitChar(n), 10);
      assert [] + [DigitChar(n)] == [DigitChar(n)];
    } else {
      ValueOfNatToString(n / 10);
      ValueStep(NatToString(n / 10), n / 10, n % 10);
    }
  }

  lemma ValueStep(z: string, q: nat, d: nat)
    requires d < 10 && Value(z, 10) == q
    ensures Value(z + [DigitChar(d)], 10) == q * 10 + d
  {
    var c := DigitChar(d);
    ValueSnoc(z, c, 10);
    assert DigitValue(c) == d;
    assert d % 36 == d;
  }

  lemma ValueSnoc(z: string, c: char, radix: nat)
    ensures Value(z + [c], radix) == Value(z, radix) * radix + DigitValue(c) % 36
  {
    assert (z + [c])[..|z|] == z;
  }

  lemma {:induction false} DigitCountAll(s: string, rest: string, radix: nat)
    requires forall k :: 0 <= k < |s| ==> DigitValue(s[k]) < radix
    requires rest == [] || DigitValue(rest[0]) >= radix
    ensures DigitCount(s + rest, radix) == |s|
    decreases |s|
  {
    if s == [] {
      assert s + rest == rest;
    } else {
      assert (s + rest)[1..] == s[1..] + rest;
      DigitCountAll(s[1..], rest, radix);
    }
  }

  /** The digit prefix of digits followed by a non-digit is those digits. */
  lemma DigitPrefixAll(s: string, rest: string, radix: nat)
    requires forall k :: 0 <= k < |s| ==> DigitValue(s[k]) < radix
    requires rest == [] || DigitValue(rest[0]) >= radix
    ensures DigitPrefix(s + rest, radix) == s
  {
    DigitCountAll(s, rest, radix);
    assert (s + rest)[..|s|] == s;
  }

  lemma DigitsAreNotSpace(s: string)
    requires s != [] && DigitValue(s[0]) < 10
    ensures LeadingSpace(s) == 0
  {
  }

  /** One unfolding of parseInt on text that starts with its number. */
  lemma ParseIntDecimal(t: string)
    requires LeadingSpace(t) == 0
    requires var u := Unsigned(t); !(|u| >= 2 && u[0] == '0' && (u[1] == 'x' || u[1] == 'X'))
    requires DigitPrefix(Unsigned(t), 10) != []
    ensures var v: int := Value(DigitPrefix(Unsigned(t), 10), 10);
            ParseInt(t) == Some(if StartsWith(t, '-') then -v else v)
  {
    assert TrimStart(t) == t;
  }

  /** An unsigned decimal literal with no fraction and no exponent denotes its digits. */
  lemma UnsignedDecimalWhole(u: string)
    requires DigitPrefix(u, 10) != []
    requires var rest := u[|DigitPrefix(u, 10)|..]; !StartsWith(rest, '.') && Exponent(rest) == 0
    ensures UnsignedDecimal(u) == Some(Value(DigitPrefix(u, 10), 10) as real)
  {
    var whole := DigitPrefix(u, 10);
    assert whole + [] == whole;
  }

  /** One unfolding of parseFloat on text that starts with an unsigned number. */
  lemma ParseFloatUnsigned(t: string, x: real)
    requires LeadingSpace(t) == 0 && Unsigned(t) == t && !StartsWith(t, '-')
    requires UnsignedDecimal(t) == Some(x)
    ensures ParseFloat(t) == Some(x)
  {
    assert TrimStart(t) == t;
  }

  /** parseInt reads back every rendered natural followed by text that does not
      continue the number: "3X10" gives 3. A leading "0x" switches to
      hexadecimal, so after a rendered 0 the text must not start with x or X. */
  lemma ParseIntPrefix(n: nat, rest: string)
    requires rest == [] || DigitValue(rest[0]) >= 10
    requires n == 0 && rest != [] ==> rest[0] != 'x' && rest[0] != 'X'
    ensures ParseInt(NatToString(n) + rest) == Some(n)
  {
    var s := NatToString(n);
    var t := s + rest;
    assert t[0] == s[0];
    DigitsAreNotSpace(t);
    assert Unsigned(t) == t;
    DigitPrefixAll(s, rest, 10);
    ValueOfNatToString(n);
    if |t| >= 2 && t[0] == '0' {
      assert |s| == 1 && t[1] == rest[0];
    }
    ParseIntDecimal(t);
  }

  lemma NegativeRendering(s: string, t: string)
    requires s != [] && (forall k :: 0 <= k < |s| ==> DigitValue(s[k]) < 10) && t == "-" + s
    ensures LeadingSpace(t) == 0 && Unsigned(t) == s && DigitPrefix(s, 10) == s
  {
    assert t[0] == '-' && t[1..] == s;
    DigitPrefixAll(s, [], 10);
    assert s + [] == s;
  }

  lemma ParseIntNatural(m: nat)
    ensures ParseInt(NatToString(m)) == Some(m)
  {
    ParseIntPrefix(m, []);
    assert NatToString(m) + [] == NatToString(m);
  }

  /** A minus sign before a decimal rendering without a leading zero parses
      to minus its value. */
  lemma ParseNegatedDigits(s: string, t: string)
    requires s != [] && (forall k :: 0 <= k < |s| ==> DigitValue(s[k]) < 10) && t == "-" + s
    requires s[0] == '0' ==> |s| == 1
    ensures ParseInt(t) == Some(-(Value(s, 10) as int))
  {
    NegativeRendering(s, t);
    ParseIntDecimal(t);
  }

  lemma ParseIntNegative(m: nat)
    ensures ParseInt("-" + NatToString(m)) == Some(-(m as int))
  {
    ParseNegatedDigits(NatToString(m), "-" + NatToString(m));
    ValueOfNatToString(m);
  }

  /** parseInt is a left inverse of decimal rendering of integers. */
  lemma ParseIntRoundTrip(n: int)
    ensures ParseInt(IntToString(n)) == Some(n)
  {
    if n < 0 {
      ParseIntNegative(-n);
      assert IntToString(n) == "-" + NatToString(-n);
    } else {
      ParseIntNatural(n);
      assert IntToString(n) == NatToString(n);
    }
  }

  /** parseFloat reads back a rendered natural followed by a unit or other text
      that does not continue a decimal literal: "50kg" gives 50. */
  lemma ParseFloatPrefix(n: nat, rest: string)
    requires rest == [] || (DigitValue(rest[0]) >= 10 && rest[0] != '.' && rest[0] != 'e' && rest[0] != 'E')
    ensures ParseFloat(NatToString(n) + rest) == Some(n as real)
  {
    var s := NatToString(n);
    var t := s + rest;
    assert t[0] == s[0];
    DigitsAreNotSpace(t);
    assert Unsigned(t) == t;
    DigitPrefixAll(s, rest, 10);
    ValueOfNatToString(n);
    assert t[|s|..] == rest;
    UnsignedDecimalWhole(t);
    ParseFloatUnsigned(t, n as real);
  }

  /** 10 raised to `n`. */
  function Pow10(n: nat): (p: nat)
    ensures p >= 1
  {
    if n == 0 then 1 else 10 * Pow10(n - 1)
  }

  predicate AllDigits(s: string) {
    forall k :: 0 <= k < |s| ==> DigitValue(s[k]) < 10
  }

  /** A decimal number as the log writes it: whole digits, then, when the
      fraction is not empty, a point and the fraction digits ("62.5"). */
  datatype Decimal = Decimal(whole: nat, fraction: string)

  predicate ValidDecimal(x: Decimal) {
    AllDigits(x.fraction)
  }

  function DecimalToString(x: Decimal): (s: string)
    ensures |s| >= 1 && DigitValue(s[0]) < 10
    ensures ValidDecimal(x) ==> DigitValue(s[|s| - 1]) < 10
  {
    if x.fraction == [] then NatToString(x.whole) else NatToString(x.whole) + "." + x.fraction
  }

  /** The number a decimal denotes: the whole part plus the fraction digits
      moved right of the point. */
  function DecimalValue(x: Decimal): real {
    x.whole as real + Shift(Value(x.fraction, 10) as real, -|x.fraction|)
  }

  /** Digits appended to a digit string shift its value left by their count. */
  lemma {:induction false} ValueAppend(z: string, f: string)
    requires AllDigits(f)
    ensures Value(z + f, 10) == Value(z, 10) * Pow10(|f|) + Value(f, 10)
    decreases |f|
  {
    if f == [] {
      assert z + f == z;
    } else {
      var g, c := f[..|f| - 1], f[|f| - 1];
      assert f == g + [c];
      assert z + f == (z + g) + [c];
      ValueAppend(z, g);
      ValueSnoc(z + g, c, 10);
      ValueSnoc(g, c, 10);
      ShiftLeftStep(Value(z, 10), Pow10(|g|), Value(g, 10), DigitValue(c) % 36);
    }
  }

  lemma ShiftLeftStep(a: nat, p: nat, g: nat, d: nat)
    ensures (a * p + g) * 10 + d == a * (10 * p) + (g * 10 + d)
  {
  }

  /** A negative shift divides by the matching power of ten. */
  lemma {:induction false} ShiftDown(m: real, n: nat)
    ensures Shift(m, -(n as int)) == m / Pow10(n) as real
    decreases n
  {
    if n > 0 {
      ShiftDown(m / 10.0, n - 1);
      assert Shift(m, -(n as int)) == Shift(m / 10.0, -((n - 1) as int));
      assert Pow10(n) as real == 10.0 * Pow10(n - 1) as real;
      assert (m / 10.0) / Pow10(n - 1) as real == m / (10.0 * Pow10(n - 1) as real);
    }
  }

  /** Shifting right distributes over a sum. */
  lemma {:induction false} ShiftAdd(a: real, b: real, n: nat)
    ensures Shift(a + b, -(n as int)) == Shift(a, -(n as int)) + Shift(b, -(n as int))
    decreases n
  {
    if n > 0 {
      ShiftAdd(a / 10.0, b / 10.0, n - 1);
      assert (a + b) / 10.0 == a / 10.0 + b / 10.0;
    }
  }

  lemma TenfoldProduct(k: nat, p: nat)
    ensures ((k * (10 * p)) as real) / 10.0 == (k * p) as real
  {
    assert k * (10 * p) == 10 * (k * p);
  }

  /** A whole number times 10^n, shifted n places right, is that number. */
  lemma {:induction false} ShiftPow(k: nat, n: nat)
    ensures Shift((k * Pow10(n)) as real, -(n as int)) == k as real
    decreases n
  {
    if n > 0 {
      TenfoldProduct(k, Pow10(n - 1));
      ShiftPow(k, n - 1);
    }
  }

  /** The digits of a decimal, read as one number and moved right by the
      fraction's length, denote the decimal. */
  lemma MantissaValue(x: Decimal)
    requires ValidDecimal(x)
    ensures Shift(Value(NatToString(x.whole) + x.fraction, 10) as real, -|x.fraction|) == DecimalValue(x)
  {
    var n, f := x.whole, x.fraction;
    var p, v := Pow10(|f|), Value(f, 10);
    ValueAppend(NatToString(n), f);
    ValueOfNatToString(n);
    assert Value(NatToString(n) + f, 10) as real == (n * p) as real + v as real;
    ShiftAdd((n * p) as real, v as real, |f|);
    ShiftPow(n, |f|);
  }

  /** A decimal's value is its whole part plus its fraction digits over the
      matching power of ten: "62.5" is 62 + 5/10, "3.05" is 3 + 5/100. */
  lemma DecimalValueSplit(x: Decimal)
    ensures DecimalValue(x) == x.whole as real + Value(x.fraction, 10) as real / Pow10(|x.fraction|) as real
  {
    ShiftDown(Value(x.fraction, 10) as real, |x.fraction|);
  }

  /** One unfolding of the unsigned literal on "<digits>.<fraction>". */
  lemma UnsignedDecimalPoint(w: string, f: string)
    requires w != [] && AllDigits(w) && AllDigits(f)
    ensures UnsignedDecimal(w + "." + f) == Some(Shift(Value(w + f, 10) as real, -|f|))
  {
    var u := w + "." + f;
    assert u == w + ("." + f);
    DigitPrefixAll(w, "." + f, 10);
    assert u[|w|..] == "." + f;
    assert ("." + f)[1..] == f;
    DigitPrefixAll(f, [], 10);
    assert f + [] == f;
    assert ("." + f)[1 + |f|..] == [];
  }

  /** parseFloat reads back every decimal rendering, fraction included:
      "62.5" gives 62.5 and "50" gives 50. */
  lemma ParseFloatDecimal(x: Decimal)
    requires ValidDecimal(x)
    ensures ParseFloat(DecimalToString(x)) == Some(DecimalValue(x))
  {
    if x.fraction == [] {
      ParseFloatWhole(x);
    } else {
      ParseFloatFraction(x);
    }
  }

  lemma ParseFloatWhole(x: Decimal)
    requires x.fraction == []
    ensures ParseFloat(DecimalToString(x)) == Some(DecimalValue(x))
  {
    var w := NatToString(x.whole);
    ParseFloatPrefix(x.whole, []);
    assert w + [] == w;
  }

  lemma ParseFloatFraction(x: Decimal)
    requires ValidDecimal(x) && x.fraction != []
    ensures ParseFloat(DecimalToString(x)) == Some(DecimalValue(x))
  {
    MantissaValue(x);
    ParseFloatPoint(DecimalToString(x), NatToString(x.whole), x.fraction, DecimalValue(x));
  }

  lemma ParseFloatPoint(s: string, w: string, f: string, v: real)
    requires w != [] && AllDigits(w) && AllDigits(f) && s == w + "." + f
    requires v == Shift(Value(w + f, 10) as real, -|f|)
    ensures ParseFloat(s) == Some(v)
  {
    assert s[0] == w[0];
    DigitsAreNotSpace(s);
    UnsignedDecimalPoint(w, f);
    ParseFloatUnsigned(s, v);
  }

  /** "62.5" denotes 62.5. */
  lemma DecimalExample()
    ensures DecimalToString(Decimal(62, "5")) == "62.5"
    ensures DecimalValue(Decimal(62, "5")) == 62.5
  {
    assert NatToString(62) == NatToString(6) + [DigitChar(2)];
    assert Value("5", 10) == 5;
    assert Shift(5.0, -1) == Shift(0.5, 0) == 0.5;
  }
}
