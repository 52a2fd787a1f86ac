/**
 Decimal rendering and parsing of integers: Python's `str(n)` and the
 `int(text)` conversion the filesystem applies to stored attribute strings.
 */
module Numerals {
  import opened Wrappers
  import Text

  predicate IsDigit(c: char) { '0' <= c <= '9' }

  predicate AllDigits(s: string)
  {
    forall i :: 0 <= i < |s| ==> IsDigit(s[i])
  }

  function DigitChar(d: nat): (c: char)
    requires d < 10
    ensures IsDigit(c) && c as int - '0' as int == d
  {
    ('0' as int + d) as char
  }

  /** `str(n)` for a natural number: digits only, no leading zero. */
  function NatToString(n: nat): (r: string)
    ensures |r| >= 1 && AllDigits(r)
    ensures |r| > 1 ==> r[0] != '0'
  {
    if n < 10 then [DigitChar(n)] else NatToString(n / 10) + [DigitChar(n % 10)]
  }

  /** Python's `str(i)` for an int. */
  function IntToString(i: int): (r: string)
    ensures |r| >= 1
    ensures i < 0 <==> r[0] == '-'
  {
    if i < 0 then "-" + NatToString(-i) else NatToString(i)
  }

  /** The value of a string of decimal digits, read left to right. */
  function DigitsValue(s: string): nat
    requires AllDigits(s)
  {
    if |s| == 0 then 0 else 10 * DigitsValue(s[..|s| - 1]) + (s[|s| - 1] as int - '0' as int)
  }

  /** Python's `int(text)` on a string: surrounding whitespace, an optional
      sign and at least one ASCII digit; anything else is a `ValueError`,
      modelled as `None`. */
  function ParseInt(text: string): Option<int>
  {
    ParseSigned(Text.Strip(text))
  }

  /** An optional sign followed by one or more digits. */
  function ParseSigned(t: string): Option<int>
  {
    var negative := |t| > 0 && t[0] == '-';
    var body := if |t| > 0 && (t[0] == '-' || t[0] == '+') then t[1..] else t;
    if |body| >= 1 && AllDigits(body) then
      var v: int := DigitsValue(body);
      Some(if negative then -v else v)
    else None
  }

  lemma {:induction false} DigitsOfNat(n: nat)
    ensures DigitsValue(NatToString(n)) == n
    decreases n
  {
    var s := NatToString(n);
    if n >= 10 {
      DigitsOfNat(n / 10);
      assert s[..|s| - 1] == NatToString(n / 10);
    }
  }

  lemma NoSurroundingSpace(i: int)
    ensures Text.Strip(IntToString(i)) == IntToString(i)
  {
    var s := IntToString(i);
    assert !Text.IsSpace(s[0]);
    assert !Text.IsSpace(s[|s| - 1]);
    StripUnpadded(s);
  }

  lemma ParseSignedDigits(body: string, v: nat)
    requires |body| >= 1 && AllDigits(body) && DigitsValue(body) == v
    ensures ParseSigned(body) == Some(v)
    ensures ParseSigned("-" + body) == Some(-(v as int))
  {
    assert !IsDigit('-') && !IsDigit('+');
    assert ("-" + body)[1..] == body;
  }

  lemma ParsePrintedNat(n: nat)
    ensures ParseInt(NatToString(n)) == Some(n)
  {
    var s := NatToString(n);
    NoSurroundingSpace(n);
    DigitsOfNat(n);
    ParseSignedDigits(s, n);
  }

  /** A string that neither starts nor ends with whitespace is its own `strip()`. */
  lemma StripUnpadded(s: string)
    requires |s| >= 1 && !Text.IsSpace(s[0]) && !Text.IsSpace(s[|s| - 1])
    ensures Text.Strip(s) == s
  {
    assert Text.LStrip(s) == s;
    assert Text.RStrip(s) == s;
  }

  lemma ParsePrintedNegative(n: nat)
    ensures ParseInt("-" + NatToString(n)) == Some(-(n as int))
  {
    var d := NatToString(n);
    var s := "-" + d;
    assert s[0] == '-' && s[|s| - 1] == d[|d| - 1];
    assert IsDigit(d[|d| - 1]);
    StripUnpadded(s);
    DigitsOfNat(n);
    ParseSignedDigits(d, n);
  }

  /** Attribute strings written with `str(n)` are read back by `int(...)` unchanged. */
  lemma ParsePrinted(i: int)
    ensures ParseInt(IntToString(i)) == Some(i)
  {
    if i < 0 {
      var n: nat := -i;
      ParsePrintedNegative(n);
      assert IntToString(i) == "-" + NatToString(n);
    } else {
      ParsePrintedNat(i);
    }
  }
}
