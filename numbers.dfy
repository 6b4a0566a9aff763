/** The text-to-number conversions the loader applies to CSV fields: int()
    as an optional sign followed by decimal digits, and float() as a check
    that the field is a decimal literal, keeping its text as an opaque value. */
module Numbers {
  import opened Common

  predicate IsDigit(c: char) {
    '0' <= c <= '9'
  }

  /** A non-empty run of decimal digits. */
  predicate IsDigits(s: string) {
    |s| > 0 && forall i :: 0 <= i < |s| ==> IsDigit(s[i])
  }

  function DigitValue(c: char): (d: nat)
    requires IsDigit(c)
    ensures d < 10
  {
    c as int - '0' as int
  }

  function DigitChar(d: nat): (c: char)
    requires d < 10
    ensures IsDigit(c) && DigitValue(c) == d
  {
    ('0' as int + d) as char
  }

  /** The value of a run of digits, most significant digit first. */
  function DigitsValue(s: string): nat
    requires IsDigits(s)
    decreases |s|
  {
    var last := DigitValue(s[|s| - 1]);
    if |s| == 1 then last else 10 * DigitsValue(s[..|s| - 1]) + last
  }

  /** The shortest decimal spelling of n. */
  function NatToDigits(n: nat): (s: string)
    ensures IsDigits(s)
    ensures n < 10 <==> |s| == 1
  {
    if n < 10 then [DigitChar(n)] else NatToDigits(n / 10) + [DigitChar(n % 10)]
  }

  /** int(s) on an optionally signed decimal literal; None where int() raises ValueError. */
  function ParseInt(s: string): (r: Option<int>)
    ensures IsDigits(s) ==> r.Some? && r.value >= 0
    ensures r.Some? ==> |s| > 0 && IsDigit(s[|s| - 1])
    ensures r.Some? && r.value < 0 ==> s[0] == '-'
    ensures r.Some? && s[0] == '-' ==> r.value <= 0
  {
    if |s| > 0 && (s[0] == '-' || s[0] == '+') then
      if IsDigits(s[1..]) then
        var magnitude: int := DigitsValue(s[1..]);
        Some(if s[0] == '-' then -magnitude else magnitude)
      else None
    else if IsDigits(s) then Some(DigitsValue(s))
    else None
  }

  /** str(i). */
  function IntToString(i: int): (s: string)
    ensures |s| > 0
  {
    if i < 0 then "-" + NatToDigits(-i) else NatToDigits(i)
  }

  lemma {:induction false} DigitsRoundTrip(n: nat)
    ensures DigitsValue(NatToDigits(n)) == n
  {
    if n >= 10 {
      var s := NatToDigits(n);
      assert s[..|s| - 1] == NatToDigits(n / 10);
      DigitsRoundTrip(n / 10);
    }
  }

  /** int(str(i)) == i. */
  lemma IntRoundTrip(i: int)
    ensures ParseInt(IntToString(i)) == Some(i)
  {
    var n: nat := if i < 0 then -i else i;
    DigitsRoundTrip(n);
    var s := IntToString(i);
    if i < 0 {
      assert s[1..] == NatToDigits(n);
    } else {
      assert IsDigit(s[0]);
    }
  }

  /** The text of a floating-point field; its numeric value is not modelled. */
  datatype Float = Float(literal: string)

  /** An optionally signed decimal literal with at most one '.' and at least one digit. */
  predicate IsFloatLiteral(s: string) {
    var body := if |s| > 0 && (s[0] == '-' || s[0] == '+') then s[1..] else s;
    && (forall i :: 0 <= i < |body| ==> IsDigit(body[i]) || body[i] == '.')
    && multiset(body)['.'] <= 1
    && (exists i :: 0 <= i < |body| && IsDigit(body[i]))
  }

  /** float(s); None where float() raises ValueError. */
  function ParseFloat(s: string): (r: Option<Float>)
    ensures r.Some? ==> r.value.literal == s
  {
    if IsFloatLiteral(s) then Some(Float(s)) else None
  }

  /** Every text int() accepts, float() accepts too. */
  lemma IntLiteralIsFloatLiteral(s: string)
    requires ParseInt(s).Some?
    ensures ParseFloat(s) == Some(Float(s))
  {
    var body := if |s| > 0 && (s[0] == '-' || s[0] == '+') then s[1..] else s;
    assert IsDigits(body);
    assert '.' !in multiset(body);
    assert 0 < |body| && IsDigit(body[0]);
    assert IsFloatLiteral(s);
  }
}
