/**
  `Double.parseDouble` as the rule parser uses it for the WEIGHT clause. It accepts the
  decimal and hexadecimal floating-point literals of the Java language, with an optional
  sign and type suffix, plus "NaN" and "Infinity". The value is kept as an exact real.
*/
module JavaDouble {
  import opened Common
  import opened RuleText

  /** A double as far as the parser looks at it. */
  datatype Number = Finite(value: real) | Infinite(negative: bool) | NaN

  predicate IsDigit(c: char) {
    '0' <= c <= '9'
  }

  predicate IsHexDigit(c: char) {
    IsDigit(c) || 'a' <= c <= 'f' || 'A' <= c <= 'F'
  }

  /** A digit of base 16 when `hex`, of base 10 otherwise. */
  predicate IsDigitOf(c: char, hex: bool) {
    if hex then IsHexDigit(c) else IsDigit(c)
  }

  function DigitValue(c: char): (d: nat)
    requires IsHexDigit(c)
    ensures d < 16 && (IsDigit(c) ==> d < 10)
  {
    if IsDigit(c) then c as int - '0' as int
    else if 'a' <= c <= 'f' then c as int - 'a' as int + 10
    else c as int - 'A' as int + 10
  }

  predicate AllDigits(d: string, hex: bool) {
    forall k :: 0 <= k < |d| ==> IsDigitOf(d[k], hex)
  }

  /** The end of the run of digits that starts at index i. */
  function DigitsEnd(s: string, i: nat, hex: bool): (e: nat)
    requires i <= |s|
    ensures i <= e <= |s| && forall k :: i <= k < e ==> IsDigitOf(s[k], hex)
    ensures e < |s| ==> !IsDigitOf(s[e], hex)
    decreases |s| - i
  {
    if i < |s| && IsDigitOf(s[i], hex) then DigitsEnd(s, i + 1, hex) else i
  }

  /** The number a string of digits denotes, most significant first. */
  function DigitsValue(d: string, hex: bool): nat
    requires AllDigits(d, hex)
  {
    if |d| == 0 then 0
    else DigitsValue(d[..|d| - 1], hex) * (if hex then 16 else 10) + DigitValue(d[|d| - 1])
  }

  /** b raised to the power k. */
  function Pow(b: nat, k: nat): (r: nat)
    requires b > 0
    ensures r > 0
  {
    if k == 0 then 1 else b * Pow(b, k - 1)
  }

  /** An exponent from index i: an optional sign and at least one decimal digit; its value and where it ends. */
  function Exponent(s: string, i: nat): Option<(int, nat)>
    requires i <= |s|
  {
    var signed := i < |s| && (s[i] == '-' || s[i] == '+');
    var start := if signed then i + 1 else i;
    var e := DigitsEnd(s, start, false);
    if e == start then None
    else
      var v: int := DigitsValue(s[start..e], false);
      Some((if signed && s[i] == '-' then -v else v, e))
  }

  /** Index i ends the literal: nothing follows, or only one of the suffixes f, F, d, D. */
  predicate Suffix(s: string, i: nat) {
    i == |s| || (i == |s| - 1 && s[i] in "fFdD")
  }

  /**
    The mantissa digits from index i: digits, optionally a point and more digits, with at
    least one digit in all. Gives the digits without the point, the number of digits after
    the point, and where the mantissa ends.
  */
  function Mantissa(s: string, i: nat, hex: bool): Option<(string, nat, nat)>
    requires i <= |s|
  {
    var i1 := DigitsEnd(s, i, hex);
    var pointed := i1 < |s| && s[i1] == '.';
    var fracStart := if pointed then i1 + 1 else i1;
    var i2 := DigitsEnd(s, fracStart, hex);
    if i1 == i && i2 == fracStart then None
    else Some((s[i..i1] + s[fracStart..i2], i2 - fracStart, i2))
  }

  lemma MantissaDigits(s: string, i: nat, hex: bool)
    requires i <= |s| && Mantissa(s, i, hex).Some?
    ensures AllDigits(Mantissa(s, i, hex).value.0, hex) && Mantissa(s, i, hex).value.2 <= |s|
  {
    var i1 := DigitsEnd(s, i, hex);
    var fracStart := if i1 < |s| && s[i1] == '.' then i1 + 1 else i1;
    var i2 := DigitsEnd(s, fracStart, hex);
    var d := s[i..i1] + s[fracStart..i2];
    forall k | 0 <= k < |d| ensures IsDigitOf(d[k], hex) {
      if k < i1 - i { assert d[k] == s[i + k]; } else { assert d[k] == s[fracStart + k - (i1 - i)]; }
    }
  }

  /** The integer the mantissa's digits denote, point ignored. */
  function MantissaValue(s: string, i: nat, hex: bool): nat
    requires i <= |s| && Mantissa(s, i, hex).Some?
  {
    MantissaDigits(s, i, hex);
    DigitsValue(Mantissa(s, i, hex).value.0, hex)
  }

  /** m times radix to the power e: the value of a literal's mantissa and exponent. */
  function Scaled(m: nat, radix: nat, e: int): real
    requires radix > 0
  {
    if e >= 0 then (m * Pow(radix, e)) as real else m as real / Pow(radix, -e) as real
  }

  /**
    The exponent part that follows the mantissa at index i, with its marker letters: its value
    and where it ends. A literal without a marker has exponent 0 there.
  */
  function ExponentPart(s: string, i: nat, markers: string, required: bool): Option<(int, nat)>
    requires i <= |s|
  {
    if i < |s| && s[i] in markers then Exponent(s, i + 1)
    else if required then None
    else Some((0, i))
  }

  /**
    A literal from index i over digits of base 16 when `hex`, 10 otherwise: mantissa, exponent
    part, optional suffix. Its value is the mantissa's digits read as an integer, times the
    exponent's power (of 2 for hexadecimal, of 10 for decimal), divided by the weight of the
    fraction digits (16 or 10 per digit).
  */
  function Literal(s: string, i: nat, hex: bool): Option<real>
    requires i <= |s|
  {
    var m := Mantissa(s, i, hex);
    if m.None? then None
    else
      MantissaDigits(s, i, hex);
      var x := if hex then ExponentPart(s, m.value.2, "pP", true) else ExponentPart(s, m.value.2, "eE", false);
      if x.None? || !Suffix(s, x.value.1) then None
      else if hex then Some(Scaled(MantissaValue(s, i, hex), 2, x.value.0 - 4 * m.value.1))
      else Some(Scaled(MantissaValue(s, i, hex), 10, x.value.0 - m.value.1))
  }

  /** A decimal literal without its sign: the mantissa, an optional e/E exponent, an optional suffix. */
  function Decimal(b: string): Option<real> {
    Literal(b, 0, false)
  }

  /**
    A hexadecimal literal without its sign: 0x or 0X, the hexadecimal mantissa, the binary
    exponent p/P that this form requires, an optional suffix.
  */
  function Hexadecimal(b: string): Option<real>
    requires |b| >= 2
  {
    Literal(b, 2, true)
  }

  /** `Double.parseDouble`: None where it throws `NumberFormatException`. */
  function ParseDouble(s: string): Option<Number> {
    var t := Trim(s);
    if |t| == 0 then None
    else
      var negative := t[0] == '-';
      var body := if t[0] == '-' || t[0] == '+' then t[1..] else t;
      if body == "NaN" then Some(NaN)
      else if body == "Infinity" then Some(Infinite(negative))
      else
        var magnitude := if |body| >= 2 && body[0] == '0' && (body[1] == 'x' || body[1] == 'X')
                         then Hexadecimal(body) else Decimal(body);
        match magnitude
        case None => None
        case Some(m) => Some(Finite(if negative then -m else m))
  }

  /** The decimal digits of a natural number, as `Long.toString` writes it. */
  function NatText(n: nat): (d: string)
    ensures |d| > 0 && AllDigits(d, false)
  {
    var last := ['0' + (n % 10) as char];
    if n < 10 then last else NatText(n / 10) + last
  }

  lemma {:induction false} NatTextValue(n: nat)
    ensures DigitsValue(NatText(n), false) == n
  {
    var d := NatText(n);
    if n >= 10 {
      NatTextValue(n / 10);
      assert d[..|d| - 1] == NatText(n / 10);
    }
  }

  lemma AllDigitsEnd(d: string, i: nat)
    requires i <= |d| && AllDigits(d[i..], false)
    ensures DigitsEnd(d, i, false) == |d|
    decreases |d| - i
  {
    if i < |d| {
      assert d[i] == d[i..][0];
      assert d[i + 1..] == d[i..][1..];
      AllDigitsEnd(d, i + 1);
    }
  }

  /** A string of digits is a mantissa without a point that runs to its end. */
  lemma MantissaOfDigits(d: string)
    requires |d| > 0 && AllDigits(d, false)
    ensures Mantissa(d, 0, false).Some? && Mantissa(d, 0, false).value.0 == d
    ensures Mantissa(d, 0, false).value.1 == 0 && Mantissa(d, 0, false).value.2 == |d|
  {
    AllDigitsEnd(d, 0);
    assert d[0..|d|] == d;
    assert d[..|d|] + d[|d|..|d|] == d;
  }

  /** A string of digits is a decimal literal of the number its digits denote. */
  lemma DecimalOfDigits(d: string)
    requires |d| > 0 && AllDigits(d, false)
    ensures Decimal(d) == Some(DigitsValue(d, false) as real)
  {
    MantissaOfDigits(d);
    DecimalWithoutExponent(d);
    assert Scaled(DigitsValue(d, false), 10, 0) == DigitsValue(d, false) as real;
  }

  /** A string of digits parses as the number its digits denote. */
  lemma ParseDigits(d: string)
    requires |d| > 0 && AllDigits(d, false)
    ensures ParseDouble(d) == Some(Finite(DigitsValue(d, false) as real))
  {
    assert IsDigitOf(d[0], false) && IsDigitOf(d[|d| - 1], false);
    TrimOfUntrimmable(d);
    DecimalOfDigits(d);
    if |d| >= 2 {
      assert IsDigitOf(d[1], false);
      ParseUnsignedDecimal(d);
    } else {
      assert |"NaN"| == 3 && |"Infinity"| == 8;
    }
  }

  /** Writing a natural number in decimal and parsing it back gives the number. */
  lemma ParseNatText(n: nat)
    ensures ParseDouble(NatText(n)) == Some(Finite(n as real))
  {
    ParseDigits(NatText(n));
    NatTextValue(n);
  }

  lemma TrimOfUntrimmable(s: string)
    requires |s| > 0 && !Trimmable(s[0]) && !Trimmable(s[|s| - 1])
    ensures Trim(s) == s
  {
    var t := TrimStart(s);
    assert t == s;
  }

  /** One more digit at the end multiplies by the base and adds the digit. */
  lemma DigitsValueSnoc(d: string, c: char)
    requires AllDigits(d, false) && IsDigit(c)
    ensures AllDigits(d + [c], false)
    ensures DigitsValue(d + [c], false) == DigitsValue(d, false) * 10 + DigitValue(c)
  {
    assert (d + [c])[..|d|] == d;
  }

  lemma ShiftArithmetic(x: nat, p: nat, y: nat, c: nat)
    ensures (x * p + y) * 10 + c == x * (10 * p) + (y * 10 + c)
  {
  }

  /** Digits written after other digits shift them by the power of the base. */
  lemma {:induction false} DigitsValueAppend(x: string, y: string)
    requires AllDigits(x, false) && AllDigits(y, false)
    ensures AllDigits(x + y, false)
    ensures DigitsValue(x + y, false) == DigitsValue(x, false) * Pow(10, |y|) + DigitsValue(y, false)
    decreases |y|
  {
    if |y| == 0 {
      assert x + y == x;
    } else {
      var y', c := y[..|y| - 1], y[|y| - 1];
      assert y == y' + [c];
      assert x + y == (x + y') + [c];
      DigitsValueAppend(x, y');
      DigitsValueSnoc(x + y', c);
      DigitsValueSnoc(y', c);
      ShiftArithmetic(DigitsValue(x, false), Pow(10, |y'|), DigitsValue(y', false), DigitValue(c));
    }
  }

  /** A trimmed literal that starts with a decimal digit and is not hexadecimal is read as a decimal. */
  lemma ParseUnsignedDecimal(s: string)
    requires |s| >= 2 && Trim(s) == s && IsDigit(s[0]) && s[1] != 'x' && s[1] != 'X'
    ensures ParseDouble(s) == match Decimal(s) case None => None case Some(m) => Some(Finite(m))
  {
    assert s != "NaN" && s != "Infinity" by { assert IsDigit(s[0]); }
  }

  /** The mantissa of integer digits, a point and fraction digits that end the string. */
  lemma MantissaOfFraction(a: string, f: string)
    requires |a| > 0 && AllDigits(a, false) && AllDigits(f, false)
    ensures Mantissa(a + "." + f, 0, false) == Some((a + f, |f|, |a| + 1 + |f|))
  {
    var s := a + "." + f;
    assert s[..|a|] == a;
    DigitsEndPrefix(s, a);
    assert s[|a| + 1..] == f;
    AllDigitsEnd(s, |a| + 1);
    assert s[0..|a|] == a && s[|a| + 1..|s|] == f;
  }

  /** A mantissa that runs to the end of the literal is scaled down by its fraction digits alone. */
  lemma DecimalWithoutExponent(s: string)
    requires Mantissa(s, 0, false).Some? && Mantissa(s, 0, false).value.2 == |s|
    ensures Decimal(s) == Some(Scaled(MantissaValue(s, 0, false), 10, -(Mantissa(s, 0, false).value.1 as int)))
  {
  }

  /** Such a fraction is its digits without the point, scaled down by the number of fraction digits. */
  lemma DecimalOfFraction(a: string, f: string)
    requires |a| > 0 && AllDigits(a, false) && AllDigits(f, false)
    ensures AllDigits(a + f, false)
    ensures Decimal(a + "." + f) == Some(Scaled(DigitsValue(a + f, false), 10, -(|f| as int)))
  {
    MantissaOfFraction(a, f);
    DecimalWithoutExponent(a + "." + f);
  }

  lemma ScaleBack(w: nat, n: nat, v: nat, p: nat)
    requires p > 0 && w == n * p + v
    ensures w as real / p as real == n as real + v as real / p as real
  {
  }

  /**
    A decimal fraction written as integer digits, a point and fraction digits parses to the
    integer part plus the fraction digits scaled down by their count, as for "0.75".
  */
  lemma ParseFraction(n: nat, f: string)
    requires AllDigits(f, false)
    ensures ParseDouble(NatText(n) + "." + f) == Some(Finite(DecimalFraction(n, f)))
  {
    var a := NatText(n);
    var s := a + "." + f;
    assert s[0] == a[0];
    assert s[|s| - 1] == if |f| == 0 then '.' else f[|f| - 1];
    TrimOfUntrimmable(s);
    assert !(s[1] == 'x' || s[1] == 'X') by {
      if |a| == 1 { assert s[1] == '.'; } else { assert s[1] == a[1]; }
    }
    ParseUnsignedDecimal(s);
    DecimalOfFraction(a, f);
    NatTextValue(n);
    FractionDigits(a, n, f);
    assert ParseDouble(s) == Some(Finite(Scaled(DigitsValue(a + f, false), 10, -(|f| as int))));
  }

  /** The value of the decimal text "n.f": n plus the fraction digits over ten to their count. */
  function DecimalFraction(n: nat, f: string): real
    requires AllDigits(f, false)
  {
    n as real + DigitsValue(f, false) as real / Pow(10, |f|) as real
  }

  /** Digits of n followed by digits f, scaled down by f's length, are n plus the scaled fraction. */
  lemma FractionDigits(a: string, n: nat, f: string)
    requires AllDigits(a, false) && AllDigits(f, false) && DigitsValue(a, false) == n
    ensures AllDigits(a + f, false)
    ensures Scaled(DigitsValue(a + f, false), 10, -(|f| as int)) == DecimalFraction(n, f)
  {
    DigitsValueAppend(a, f);
    if |f| > 0 {
      ScaleBack(DigitsValue(a + f, false), n, DigitsValue(f, false), Pow(10, |f|));
    }
  }

  /** The run of digits of a string that starts with a number's digits stops where a non-digit follows them. */
  lemma DigitsEndPrefix(s: string, a: string)
    requires AllDigits(a, false) && |a| < |s| && s[..|a|] == a && !IsDigit(s[|a|])
    ensures DigitsEnd(s, 0, false) == |a|
  {
    var i := 0;
    while i < |a|
      invariant 0 <= i <= |a| && DigitsEnd(s, 0, false) == DigitsEnd(s, i, false)
      decreases |a| - i
    {
      assert s[i] == a[i];
      i := i + 1;
    }
  }

  /** A weight as a rule is typically written. */
  lemma HalfWeight()
    ensures ParseDouble("0.5") == Some(Finite(0.5))
  {
    ParseFraction(0, "5");
    assert NatText(0) + "." + "5" == "0.5";
    assert DecimalFraction(0, "5") == 0.5 by {
      assert DigitsValue("5", false) == 5 by { assert "5"[..0] == ""; }
      assert Pow(10, 1) == 10;
    }
  }

  /** The two special spellings, with and without a sign. */
  lemma SpecialExamples()
    ensures ParseDouble("NaN") == Some(NaN)
    ensures ParseDouble("-Infinity") == Some(Infinite(true))
  {
  }

  /** A word is rejected. */
  lemma RejectedWord()
    ensures ParseDouble("high") == None
  {
  }

  /** An exponent marker without digits is rejected. */
  lemma RejectedEmptyExponent()
    ensures ParseDouble("1e") == None
  {
  }

  /** A point without digits is rejected. */
  lemma RejectedLonePoint()
    ensures ParseDouble(".") == None
  {
  }
}
