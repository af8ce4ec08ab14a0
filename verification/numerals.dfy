/**
 * Decimal text of numbers: the `${n}` rendering of integers and JavaScript's
 * `parseFloat` on the sign/digits/decimal-point tokens the scanners hand it.
 */
module Numerals {
  import opened Wrappers
  import opened Text

  function DigitChar(d: nat): (c: char)
    requires d < 10
    ensures IsDigit(c)
  {
    ('0' as int + d) as char
  }

  function DigitValue(c: char): (d: nat)
    requires IsDigit(c)
    ensures d < 10
  {
    c as int - '0' as int
  }

  function Pow10(n: nat): (p: nat)
    ensures p >= 1
  {
    if n == 0 then 1 else 10 * Pow10(n - 1)
  }

  predicate AllDigits(s: string)
  {
    forall i :: 0 <= i < |s| ==> IsDigit(s[i])
  }

  /** Decimal rendering of a natural number, without leading zeros. */
  function NatToString(n: nat): (r: string)
    ensures |r| >= 1 && AllDigits(r)
    ensures r[0] == '0' ==> n == 0
    decreases n
  {
    if n < 10 then [DigitChar(n)] else NatToString(n / 10) + [DigitChar(n % 10)]
  }

  /** Decimal rendering of an integer: a minus sign for negative values, then the digits. */
  function IntToString(i: int): (r: string)
    ensures |r| >= 1
    ensures i < 0 <==> r[0] == '-'
    ensures forall k :: 0 <= k < |r| ==> IsDigit(r[k]) || (k == 0 && r[k] == '-')
  {
    if i < 0 then "-" + NatToString(-i) else NatToString(i)
  }

  /** The value of a run of decimal digits. */
  function DigitsValue(ds: string): nat
    requires AllDigits(ds)
  {
    if |ds| == 0 then 0 else DigitsValue(ds[..|ds| - 1]) * 10 + DigitValue(ds[|ds| - 1])
  }

  /** Reading back the rendering of a natural number gives the number. */
  lemma {:induction false} NatToStringRoundTrip(n: nat)
    ensures DigitsValue(NatToString(n)) == n
    decreases n
  {
    if n >= 10 {
      NatToStringRoundTrip(n / 10);
      var r := NatToString(n);
      assert r[..|r| - 1] == NatToString(n / 10);
    }
  }

  /** Length of the run of digits at the start of `s`. */
  function DigitRun(s: string): (n: nat)
    ensures n <= |s|
    ensures AllDigits(s[..n])
    ensures n < |s| ==> !IsDigit(s[n])
  {
    if |s| == 0 || !IsDigit(s[0]) then 0
    else
      var k := DigitRun(s[1..]);
      assert s[..k + 1] == [s[0]] + s[1..][..k];
      k + 1
  }

  /** The value of the digits after a decimal point. */
  function FractionValue(ds: string): real
    requires AllDigits(ds)
  {
    DigitsValue(ds) as real / Pow10(|ds|) as real
  }

  /**
   * `parseFloat`: leading white space, an optional sign, then the longest prefix of the
   * form `digits[.digits]` or `.digits`; `None` stands for `NaN`.
   */
  function ParseFloat(s: string): (r: Option<real>)
  {
    ParseSigned(s[LeadingSpaces(s)..])
  }

  /** `parseFloat` after the white space: an optional sign, then an unsigned number. */
  function ParseSigned(t: string): (r: Option<real>)
  {
    var negative := |t| > 0 && t[0] == '-';
    var u := if |t| > 0 && (t[0] == '-' || t[0] == '+') then t[1..] else t;
    match ParseUnsigned(u)
    case None => None
    case Some(m) => Some(if negative then -m else m)
  }

  /** The longest prefix of `u` of the form `digits[.digits]` or `.digits`, and its value. */
  function ParseUnsigned(u: string): (r: Option<real>)
  {
    var ip := DigitRun(u);
    var hasPoint := ip < |u| && u[ip] == '.';
    var fp := if hasPoint then DigitRun(u[ip + 1..]) else 0;
    if ip == 0 && fp == 0 then None
    else Some(DigitsValue(u[..ip]) as real + (if hasPoint then FractionValue(u[ip + 1..][..fp]) else 0.0))
  }

  /** Text that does not start with white space goes to the sign handling unchanged. */
  lemma ParseFloatNoLeadingSpace(s: string)
    requires |s| > 0 && !IsSpace(s[0])
    ensures ParseFloat(s) == ParseSigned(s)
  {
    assert s[0..] == s;
  }

  /** Without a sign, the unsigned number is read as it stands. */
  lemma ParseSignedUnsigned(u: string)
    requires |u| > 0 && IsDigit(u[0])
    ensures ParseSigned(u) == ParseUnsigned(u)
  {
  }

  /** A minus sign negates the unsigned number after it. */
  lemma ParseSignedMinus(u: string, m: real)
    requires ParseUnsigned(u) == Some(m)
    ensures ParseSigned("-" + u) == Some(-m)
  {
    assert ("-" + u)[1..] == u;
  }

  /** A rendered integer, followed by `suffix`, is read as its sign applied to its digits and `suffix`. */
  lemma ParseFloatOfIntText(i: int, suffix: string, m: real)
    requires ParseUnsigned(NatToString(if i < 0 then -i else i) + suffix) == Some(m)
    ensures ParseFloat(IntToString(i) + suffix) == Some(if i < 0 then -m else m)
  {
    var n: nat := if i < 0 then -i else i;
    var d := NatToString(n) + suffix;
    assert d[0] == NatToString(n)[0];
    if i < 0 {
      assert IntToString(i) + suffix == "-" + d;
      ParseSignedMinus(d, m);
      ParseFloatNoLeadingSpace("-" + d);
    } else {
      ParseSignedUnsigned(d);
      ParseFloatNoLeadingSpace(d);
    }
  }

  /** A run of digits alone reads as its value. */
  lemma ParseUnsignedDigits(digits: string)
    requires AllDigits(digits) && |digits| > 0
    ensures ParseUnsigned(digits) == Some(DigitsValue(digits) as real)
  {
    assert DigitRun(digits) == |digits| by {
      DigitRunAll(digits);
    }
    assert digits[..|digits|] == digits;
  }

  /** `parseFloat` reads back every integer rendering exactly. */
  lemma ParseFloatIntToString(i: int)
    ensures ParseFloat(IntToString(i)) == Some(i as real)
  {
    var n: nat := if i < 0 then -i else i;
    var d := NatToString(n);
    assert ParseUnsigned(d + "") == Some(n as real) by {
      assert d + "" == d;
      NatToStringRoundTrip(n);
      ParseUnsignedDigits(d);
    }
    ParseFloatOfIntText(i, "", n as real);
    assert IntToString(i) + "" == IntToString(i);
  }

  lemma {:induction false} DigitRunAll(s: string)
    requires AllDigits(s)
    ensures DigitRun(s) == |s|
  {
    if |s| > 0 {
      DigitRunAll(s[1..]);
    }
  }

  /** A digit run stops at the first character that is not a digit. */
  lemma {:induction false} DigitRunPrefix(d: string, rest: string)
    requires AllDigits(d)
    requires |rest| > 0 ==> !IsDigit(rest[0])
    ensures DigitRun(d + rest) == |d|
  {
    if |d| > 0 {
      assert (d + rest)[1..] == d[1..] + rest;
      DigitRunPrefix(d[1..], rest);
    } else {
      assert d + rest == rest;
    }
  }

  /** The tokens `parseFloat` sees in `digits.0`. */
  lemma PointZeroPieces(digits: string)
    requires AllDigits(digits)
    ensures var u := digits + ".0";
      DigitRun(u) == |digits| && u[|digits|] == '.' && DigitRun(u[|digits| + 1..]) == 1
      && u[..|digits|] == digits && u[|digits| + 1..][..1] == "0"
  {
    var u := digits + ".0";
    DigitRunPrefix(digits, ".0");
    assert u[|digits| + 1..] == "0";
    DigitRunAll("0");
    assert u[..|digits|] == digits;
  }

  /** Digits, a point and more digits read as the whole part plus the fraction. */
  lemma ParseUnsignedWithFraction(u: string, d: string, f: string)
    requires AllDigits(d) && AllDigits(f) && |d| > 0
    requires DigitRun(u) == |d| && u[..|d|] == d && |d| < |u| && u[|d|] == '.'
    requires DigitRun(u[|d| + 1..]) == |f| && u[|d| + 1..][..|f|] == f
    ensures ParseUnsigned(u) == Some(DigitsValue(d) as real + FractionValue(f))
  {
  }

  /** A run of digits with a `.0` fraction reads as the value of the digits. */
  lemma ParseUnsignedPointZero(digits: string)
    requires AllDigits(digits) && |digits| > 0
    ensures ParseUnsigned(digits + ".0") == Some(DigitsValue(digits) as real)
  {
    PointZeroPieces(digits);
    ParseUnsignedZeroFraction(digits + ".0", digits);
  }

  /** Digits followed by the fraction `.0` read as the digits alone. */
  lemma ParseUnsignedZeroFraction(u: string, d: string)
    requires AllDigits(d) && |d| > 0
    requires DigitRun(u) == |d| && u[..|d|] == d && |d| < |u| && u[|d|] == '.'
    requires DigitRun(u[|d| + 1..]) == 1 && u[|d| + 1..][..1] == "0"
    ensures ParseUnsigned(u) == Some(DigitsValue(d) as real)
  {
    ParseUnsignedWithFraction(u, d, "0");
    FractionOfZero();
  }

  /** The fraction `.0` is worth nothing. */
  lemma FractionOfZero()
    ensures FractionValue("0") == 0.0
  {
    assert "0"[..0] == "";
    assert DigitsValue("0") == 0;
  }

  /** `parseFloat` reads back an integer rendered with a `.0` fraction. */
  lemma ParseFloatPointZero(i: int)
    ensures ParseFloat(IntToString(i) + ".0") == Some(i as real)
  {
    var n: nat := if i < 0 then -i else i;
    var d := NatToString(n);
    assert ParseUnsigned(d + ".0") == Some(n as real) by {
      NatToStringRoundTrip(n);
      ParseUnsignedPointZero(d);
    }
    ParseFloatOfIntText(i, ".0", n as real);
  }

  /** Numbers below 1000 render in at most three digits. */
  lemma NatToStringShort(n: nat)
    requires n < 1000
    ensures |NatToString(n)| <= 3
  {
    if n >= 10 {
      var m := n / 10;
      assert |NatToString(n)| == |NatToString(m)| + 1;
      if m >= 10 {
        assert |NatToString(m)| == |NatToString(m / 10)| + 1;
        assert m / 10 < 10;
      }
    }
  }
}
