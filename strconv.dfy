/**
 * The parts of Go's `strings` and `strconv` packages that the GPRMC decoder
 * relies on: `strings.Index` for one character, `strconv.Atoi`, and
 * `strconv.ParseFloat` restricted to plain decimal notation.
 * Numbers are exact: integers are unbounded and floats are `real`.
 */
module Strconv {
  import opened Wrappers

  predicate IsDigit(c: char) {
    '0' <= c <= '9'
  }

  predicate AllDigits(s: string) {
    forall i :: 0 <= i < |s| ==> IsDigit(s[i])
  }

  predicate IsSign(c: char) {
    c == '+' || c == '-'
  }

  function Pow10(n: nat): (r: nat)
    ensures r >= 1
  {
    if n == 0 then 1 else 10 * Pow10(n - 1)
  }

  function DigitValue(c: char): (d: nat)
    requires IsDigit(c)
    ensures d < 10
  {
    c as int - '0' as int
  }

  /** The natural number a string of decimal digits denotes, most significant digit first. */
  function DigitsValue(s: string): (n: nat)
    requires AllDigits(s)
    ensures n < Pow10(|s|)
  {
    if s == [] then 0
    else
      var m := DigitsValue(s[..|s| - 1]);
      var d := DigitValue(s[|s| - 1]);
      assert m * 10 + d < Pow10(|s|) by {
        assert m + 1 <= Pow10(|s| - 1);
        assert (m + 1) * 10 <= Pow10(|s| - 1) * 10;
      }
      m * 10 + d
  }

  /** The value of the digits after a decimal point: "038" denotes 0.038. */
  function FractionValue(s: string): (r: real)
    requires AllDigits(s)
    ensures 0.0 <= r < 1.0
  {
    var d, q := DigitsValue(s) as real, Pow10(|s|) as real;
    QuotientBelowOne(d, q);
    d / q
  }

  lemma QuotientBelowOne(d: real, q: real)
    requires 0.0 <= d < q
    ensures 0.0 <= d / q < 1.0
  {
  }

  /**
   * `strings.Index(s, string(c))`: the index of the first occurrence of `c`
   * in `s`, or -1 when `c` does not occur.
   */
  function Index(s: string, c: char): (r: int)
    ensures r == -1 <==> c !in s
    ensures r != -1 ==> 0 <= r < |s| && s[r] == c && forall k :: 0 <= k < r ==> s[k] != c
  {
    if s == [] then -1
    else if s[0] == c then 0
    else
      var k := Index(s[1..], c);
      if k == -1 then -1 else k + 1
  }

  /** An unsigned decimal: digits, optionally a '.' and more digits, at least one digit in all. */
  function ParseUnsigned(s: string): (r: Option<real>)
    ensures r.Some? ==> r.value >= 0.0
    ensures r.Some? ==> exists i :: 0 <= i < |s| && IsDigit(s[i])
    ensures r.Some? ==> forall i :: 0 <= i < |s| ==> IsDigit(s[i]) || s[i] == '.'
    ensures r.Some? ==> forall i, j :: 0 <= i < j < |s| && s[i] == '.' ==> s[j] != '.'
    ensures s != [] && AllDigits(s) ==> r == Some(DigitsValue(s) as real)
  {
    var p := Index(s, '.');
    if p == -1 then
      if s != [] && AllDigits(s) then Some(DigitsValue(s) as real) else None
    else if AllDigits(s[..p]) && AllDigits(s[p + 1..]) && |s| > 1 then
      assert IsDigit(s[if p == 0 then 1 else 0]);
      Some(DigitsValue(s[..p]) as real + FractionValue(s[p + 1..]))
    else
      None
  }

  /**
   * `strconv.ParseFloat` for plain decimal notation: an optional sign,
   * then an unsigned decimal. `None` stands for the error result.
   */
  function ParseFloat(s: string): (r: Option<real>)
    // a successful parse saw at least one digit
    ensures r.Some? ==> exists i :: 0 <= i < |s| && IsDigit(s[i])
    // a successful parse saw only digits, at most one '.', and a sign only in front
    ensures r.Some? ==> forall i :: 0 <= i < |s| ==> IsDigit(s[i]) || s[i] == '.' || (i == 0 && IsSign(s[i]))
    ensures r.Some? ==> forall i, j :: 0 <= i < j < |s| && s[i] == '.' ==> s[j] != '.'
    // a string of digits denotes its natural number
    ensures s != [] && AllDigits(s) ==> r == Some(DigitsValue(s) as real)
    // the sign decides the sign of the result
    ensures r.Some? && s[0] == '-' ==> r.value <= 0.0
    ensures r.Some? && s[0] != '-' ==> r.value >= 0.0
  {
    if s != [] && IsSign(s[0]) then
      var t := s[1..];
      match ParseUnsigned(t)
      case None => None
      case Some(v) =>
        assert forall i :: 0 < i < |s| ==> s[i] == t[i - 1];
        assert exists i :: 0 <= i < |t| && IsDigit(t[i]);
        Some(if s[0] == '-' then -v else v)
    else
      ParseUnsigned(s)
  }

  /** `strconv.Atoi`: an optional sign followed by one or more digits. `None` stands for the error result. */
  function Atoi(s: string): (r: Option<int>)
    // success needs a digit or a sign followed by more, then only digits
    ensures r.Some? ==> |s| > 0 && (IsDigit(s[0]) || (IsSign(s[0]) && |s| > 1))
                        && forall i :: 0 < i < |s| ==> IsDigit(s[i])
    ensures r.Some? ==> |s| > 0 && -(Pow10(|s| - 1) as int) < r.value < Pow10(|s|)
    ensures s != [] && AllDigits(s) ==> r == Some(DigitsValue(s))
  {
    if s != [] && IsSign(s[0]) then
      var t := s[1..];
      if t != [] && AllDigits(t) then
        Some(if s[0] == '-' then -(DigitsValue(t) as int) else DigitsValue(t))
      else
        None
    else if s != [] && AllDigits(s) then
      Some(DigitsValue(s))
    else
      None
  }

  /** The two-digit, zero-padded rendering of `n` used by NMEA time and date fields. */
  function Pad2(n: nat): (s: string)
    requires n < 100
    ensures |s| == 2 && AllDigits(s)
  {
    [('0' as int + n / 10) as char, ('0' as int + n % 10) as char]
  }

  lemma AtoiPad2(n: nat)
    requires n < 100
    ensures Atoi(Pad2(n)) == Some(n)
  {
    var s := Pad2(n);
    assert s[..1] == [s[0]];
    assert DigitsValue(s[..1]) == n / 10;
    assert DigitsValue(s) == (n / 10) * 10 + n % 10;
  }

  /** A string of digits, a '.', and more digits denotes the integer part plus the fraction. */
  lemma ParseFloatDecimal(ip: string, fp: string)
    requires ip != [] && AllDigits(ip) && AllDigits(fp)
    ensures ParseFloat(ip + "." + fp) == Some(DigitsValue(ip) as real + FractionValue(fp))
  {
    var s := ip + "." + fp;
    var k := |ip|;
    assert s[..k] == ip && s[k + 1..] == fp;
    assert Index(s, '.') == k;
    assert !IsSign(s[0]) by {
      assert s[0] == ip[0] && IsDigit(ip[0]);
    }
    assert ParseUnsigned(s) == Some(DigitsValue(ip) as real + FractionValue(fp));
  }

  /** A leading '-' negates what the rest parses to. */
  lemma ParseFloatNegative(t: string)
    requires t == [] || !IsSign(t[0])
    ensures ParseFloat("-" + t) == if ParseFloat(t).Some? then Some(-ParseFloat(t).value) else None
  {
    var neg := "-" + t;
    assert neg != [] && IsSign(neg[0]) && neg[1..] == t;
  }

  /** A leading '+' changes nothing. */
  lemma ParseFloatPositive(t: string)
    requires t == [] || !IsSign(t[0])
    ensures ParseFloat("+" + t) == ParseFloat(t)
  {
    var pos := "+" + t;
    assert pos != [] && IsSign(pos[0]) && pos[1..] == t;
  }

  /** A '.' followed by digits denotes just the fraction: ".5" is 0.5. */
  lemma ParseFloatFraction(fp: string)
    requires fp != [] && AllDigits(fp)
    ensures ParseFloat("." + fp) == Some(FractionValue(fp))
  {
    var s := "." + fp;
    assert Index(s, '.') == 0;
    assert s[..0] == [] && s[1..] == fp;
  }

  /** A sign followed by digits denotes the digits' value, negated for '-'. */
  lemma AtoiSigned(t: string)
    requires t != [] && AllDigits(t)
    ensures Atoi("-" + t) == Some(-(DigitsValue(t) as int))
    ensures Atoi("+" + t) == Some(DigitsValue(t))
  {
    assert ("-" + t)[1..] == t;
    assert ("+" + t)[1..] == t;
  }
}
