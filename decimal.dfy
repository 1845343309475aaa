/** Decimal integer literals: Python's int(s) on a run of ASCII digits and str(n)
    on the resulting non-negative int. A NUMBER token without a decimal point is
    stored as int(lexeme), and an expression atom is rendered as str(value). */
module Decimal {

  predicate IsDigit(c: char) {
    '0' <= c <= '9'
  }

  /** A non-empty run of ASCII digits. */
  predicate IsDigits(s: string) {
    |s| > 0 && forall k :: 0 <= k < |s| ==> IsDigit(s[k])
  }

  /** The spelling str(n) produces: digits, and no leading zero unless the number is 0. */
  predicate Canonical(s: string) {
    IsDigits(s) && (s[0] != '0' || |s| == 1)
  }

  function DigitValue(c: char): (d: nat)
    requires IsDigit(c)
    ensures d < 10
  {
    c as int - '0' as int
  }

  function DigitChar(d: nat): (c: char)
    requires d < 10
    ensures IsDigit(c) && DigitValue(c) == d
  {
    ('0' as int + d) as char
  }

  /** Python's int(s) for a run of ASCII digits. */
  function DigitsValue(s: string): nat
    requires IsDigits(s)
    decreases |s|
  {
    if |s| == 1 then DigitValue(s[0])
    else DigitsValue(s[..|s| - 1]) * 10 + DigitValue(s[|s| - 1])
  }

  /** Python's str(n) for a non-negative int. */
  function NatToDecimal(n: nat): (r: string)
    ensures Canonical(r)
    ensures r[0] == '0' <==> n == 0
    decreases n
  {
    if n < 10 then [DigitChar(n)]
    else NatToDecimal(n / 10) + [DigitChar(n % 10)]
  }

  /** The digits left once the leading zeros are dropped (keeping a lone "0"). */
  function StripLeadingZeros(s: string): (r: string)
    requires IsDigits(s)
    ensures Canonical(r)
    ensures |r| <= |s| && r == s[|s| - |r|..]
    ensures forall k :: 0 <= k < |s| - |r| ==> s[k] == '0'
    decreases |s|
  {
    if |s| > 1 && s[0] == '0' then StripLeadingZeros(s[1..]) else s
  }

  /** int(str(n)) == n. */
  lemma {:induction false} DecimalRoundTrip(n: nat)
    ensures DigitsValue(NatToDecimal(n)) == n
    decreases n
  {
    if n >= 10 {
      DecimalRoundTrip(n / 10);
      var s := NatToDecimal(n);
      assert s[..|s| - 1] == NatToDecimal(n / 10);
    }
  }

  /** A digit run that starts with a non-zero digit denotes a positive number. */
  lemma {:induction false} NonZeroLeadPositive(s: string)
    requires IsDigits(s) && s[0] != '0'
    ensures DigitsValue(s) >= 1
    decreases |s|
  {
    if |s| > 1 {
      NonZeroLeadPositive(s[..|s| - 1]);
    }
  }

  /** str(int(s)) == s for every spelling that str could have produced. */
  lemma {:induction false} CanonicalRoundTrip(s: string)
    requires Canonical(s)
    ensures NatToDecimal(DigitsValue(s)) == s
    decreases |s|
  {
    if |s| > 1 {
      var p := s[..|s| - 1];
      NonZeroLeadPositive(p);
      CanonicalRoundTrip(p);
      var n := DigitsValue(s);
      assert n / 10 == DigitsValue(p) && n % 10 == DigitValue(s[|s| - 1]);
      assert DigitChar(DigitValue(s[|s| - 1])) == s[|s| - 1];
      assert p + [s[|s| - 1]] == s;
    }
  }

  /** A leading zero does not change int(s). */
  lemma {:induction false} LeadingZeroValue(t: string)
    requires IsDigits(t)
    ensures DigitsValue("0" + t) == DigitsValue(t)
    decreases |t|
  {
    var s := "0" + t;
    if |t| > 1 {
      assert s[..|s| - 1] == "0" + t[..|t| - 1];
      LeadingZeroValue(t[..|t| - 1]);
    }
  }

  /** int(s) ignores all leading zeros. */
  lemma {:induction false} StripLeadingZerosValue(s: string)
    requires IsDigits(s)
    ensures DigitsValue(StripLeadingZeros(s)) == DigitsValue(s)
    decreases |s|
  {
    if |s| > 1 && s[0] == '0' {
      StripLeadingZerosValue(s[1..]);
      LeadingZeroValue(s[1..]);
      assert "0" + s[1..] == s;
    }
  }

  /** An integer literal is rendered as its digits without leading zeros:
      str(int(s)) is s with the leading zeros dropped. */
  lemma IntLiteralRendering(s: string)
    requires IsDigits(s)
    ensures NatToDecimal(DigitsValue(s)) == StripLeadingZeros(s)
  {
    StripLeadingZerosValue(s);
    CanonicalRoundTrip(StripLeadingZeros(s));
  }

  /** The literal 007 is rendered as 7. */
  lemma LeadingZerosExample()
    ensures NatToDecimal(DigitsValue("007")) == "7"
  {
    var s := "007";
    assert s[..2] == "00" && "00"[..1] == "0";
    assert DigitsValue("00") == 0;
    assert DigitsValue(s) == 7;
  }
}
