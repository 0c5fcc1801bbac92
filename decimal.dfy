/**
 * Decimal digit strings: the value of a run of ASCII digits, Python's `str(int)`,
 * and Python's `float()` on the tokens the latency regex can capture, that is on
 * strings made only of ASCII digits and dots.
 */
module Decimal {
  import opened Options

  predicate IsDigit(c: char) { '0' <= c <= '9' }

  /** A character of the regex class `[\d.]` (ASCII digits only). */
  predicate IsDecimalChar(c: char) { IsDigit(c) || c == '.' }

  predicate AllDigits(s: string) { forall i :: 0 <= i < |s| ==> IsDigit(s[i]) }

  predicate AllDecimalChars(s: string) { forall i :: 0 <= i < |s| ==> IsDecimalChar(s[i]) }

  function DigitValue(c: char): (d: nat)
    requires IsDigit(c)
    ensures d < 10
  {
    c as int - '0' as int
  }

  function DigitChar(d: nat): (c: char)
    requires d < 10
    ensures IsDigit(c) && DigitValue(c) == d
  {
    ('0' as int + d) as char
  }

  /** The value of a string of digits read most significant first. */
  function DigitsValue(s: string): nat
    requires AllDigits(s)
  {
    if s == [] then 0 else DigitsValue(s[..|s| - 1]) * 10 + DigitValue(s[|s| - 1])
  }

  function Pow10(n: nat): (p: nat)
    ensures p >= 1
  {
    if n == 0 then 1 else 10 * Pow10(n - 1)
  }

  /** Python's `str(n)` for a non-negative integer. */
  function NatToString(n: nat): (s: string)
    ensures |s| >= 1 && AllDigits(s)
  {
    if n < 10 then [DigitChar(n)] else NatToString(n / 10) + [DigitChar(n % 10)]
  }

  /** Python's `str(n)` for any integer: a minus sign, then the digits of |n|. */
  function IntToString(n: int): string
  {
    if n < 0 then "-" + NatToString(-n) else NatToString(n)
  }

  /** `str(n)` is read back as `n`, and it has no leading zero. */
  lemma {:induction false} NatToStringRoundTrip(n: nat)
    ensures DigitsValue(NatToString(n)) == n
    ensures NatToString(n)[0] != '0' || n == 0
  {
    var s := NatToString(n);
    if n >= 10 {
      NatToStringRoundTrip(n / 10);
      assert s[..|s| - 1] == NatToString(n / 10);
      assert s[0] == NatToString(n / 10)[0];
    }
  }

  /** The first dot of `s`, if any. */
  function FirstDot(s: string): (r: Option<nat>)
    ensures r.Some? ==> r.value < |s| && s[r.value] == '.'
    ensures forall i :: 0 <= i < |s| && (r.None? || i < r.value) ==> s[i] != '.'
  {
    if s == [] then None
    else if s[0] == '.' then Some(0)
    else match FirstDot(s[1..])
      case None => None
      case Some(i) => Some(i + 1)
  }

  predicate HasDigit(s: string) { exists i :: 0 <= i < |s| && IsDigit(s[i]) }

  predicate AtMostOneDot(s: string)
  {
    forall i, j :: 0 <= i < j < |s| && s[i] == '.' ==> s[j] != '.'
  }

  /**
   * Python's `float(tok)` on a token of digits and dots: the integer part before
   * the first dot plus the fraction after it, or None where `float()` raises
   * `ValueError`.
   */
  function ParseFloat(tok: string): (r: Option<real>)
    requires AllDecimalChars(tok)
    ensures r.Some? <==> HasDigit(tok) && AtMostOneDot(tok)
    ensures r.Some? ==> r.value >= 0.0
  {
    match FirstDot(tok)
    case None =>
      assert AllDigits(tok);
      assert tok != [] ==> IsDigit(tok[0]);
      if tok == [] then None else Some(DigitsValue(tok) as real)
    case Some(d) =>
      var whole, frac := tok[..d], tok[d + 1..];
      assert AllDigits(whole);
      if !AllDigits(frac) then
        assert exists j :: d < j < |tok| && tok[j] == '.' by {
          var k :| 0 <= k < |frac| && !IsDigit(frac[k]);
          assert tok[d + 1 + k] == frac[k];
        }
        None
      else if whole == [] && frac == [] then
        assert tok == ".";
        None
      else
        assert AtMostOneDot(tok) by {
          forall i, j | 0 <= i < j < |tok| && tok[i] == '.' ensures tok[j] != '.' {
            assert i == d;
            assert tok[j] == frac[j - d - 1];
          }
        }
        assert HasDigit(tok) by {
          if whole != [] { assert IsDigit(tok[0]); }
          else { assert IsDigit(tok[d + 1]); }
        }
        Some(FixedPointValue(whole, frac))
  }

  /** The value written `whole.frac` in decimal notation. */
  function FixedPointValue(whole: string, frac: string): (v: real)
    requires AllDigits(whole) && AllDigits(frac)
    ensures v >= DigitsValue(whole) as real
  {
    DigitsValue(whole) as real + DigitsValue(frac) as real / Pow10(|frac|) as real
  }

  /** An integer token such as "64" or "1" reads as its digits' value. */
  lemma ParseFloatInteger(a: string)
    requires AllDigits(a) && a != []
    ensures ParseFloat(a) == Some(DigitsValue(a) as real)
  {
  }

  /** The first dot of `a + "." + b` is the one between the two digit strings. */
  lemma FirstDotOfJoin(a: string, b: string)
    requires AllDigits(a)
    ensures FirstDot(a + "." + b) == Some(|a|)
  {
    var tok := a + "." + b;
    var r := FirstDot(tok);
    assert tok[|a|] == '.';
  }

  /**
   * A token with exactly one dot, such as "8.43", "1." or ".5", reads as the integer
   * part plus the fraction part scaled by its number of digits.
   */
  lemma ParseFloatFraction(a: string, b: string)
    requires AllDigits(a) && AllDigits(b) && |a| + |b| >= 1
    ensures AllDecimalChars(a + "." + b)
    ensures ParseFloat(a + "." + b) == Some(FixedPointValue(a, b))
  {
    var tok := a + "." + b;
    assert AllDecimalChars(tok) by {
      forall i | 0 <= i < |tok| ensures IsDecimalChar(tok[i]) {
        if i < |a| { assert tok[i] == a[i]; } else if i > |a| { assert tok[i] == b[i - |a| - 1]; }
      }
    }
    FirstDotOfJoin(a, b);
    assert tok[..|a|] == a && tok[|a| + 1..] == b;
  }

  /** `float()` accepts a missing fraction part. */
  lemma FloatTrailingDot()
    ensures ParseFloat("1.") == Some(1.0)
  {
    ParseFloatFraction("1", "");
    assert DigitsValue("1") == 1 by { assert "1"[..0] == []; }
  }

  /** `float()` accepts a missing integer part. */
  lemma FloatLeadingDot()
    ensures ParseFloat(".5") == Some(0.5)
  {
    ParseFloatFraction("", "5");
    assert DigitsValue("5") == 5 by { assert "5"[..0] == []; }
  }

  /** The latency of the sample reply line. */
  lemma FloatReplyTime()
    ensures ParseFloat("8.43") == Some(8.43)
  {
    ParseFloatFraction("8", "43");
    assert DigitsValue("8") == 8 by { assert "8"[..0] == []; }
    assert DigitsValue("43") == 43 by { assert "43"[..1] == "4"; assert "4"[..0] == []; }
  }

  /** `float()` raises on a lone dot and on a token with two dots. */
  lemma FloatRejects()
    ensures ParseFloat(".") == None
    ensures ParseFloat("1.2.3") == None
  {
    assert !HasDigit(".");
    assert !AtMostOneDot("1.2.3") by { assert "1.2.3"[1] == '.' && "1.2.3"[3] == '.'; }
  }
}
