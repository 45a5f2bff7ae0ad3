/**
 * Text handling of the census FIPS fragments: the decimal rendering that
 * `astype(pd.StringDtype())` gives a non-negative integer, Python's
 * `str.zfill`, and a decimal reading used to state what the padding keeps.
 */
module Fips {

  predicate IsDigit(c: char) { '0' <= c <= '9' }

  /** Every character of `s` is an ASCII decimal digit. */
  predicate IsDigits(s: string) { forall i :: 0 <= i < |s| ==> IsDigit(s[i]) }

  function Digit(d: nat): (c: char)
    requires d < 10
    ensures IsDigit(c) && c as int - '0' as int == d
  {
    ('0' as int + d) as char
  }

  function DigitValue(c: char): (d: nat)
    requires IsDigit(c)
    ensures d < 10 && Digit(d) == c
  {
    c as int - '0' as int
  }

  function Pow10(w: nat): (p: nat)
    ensures p >= 1
  {
    if w == 0 then 1 else 10 * Pow10(w - 1)
  }

  /** `str(n)` for a non-negative integer: shortest decimal form, no sign, no leading zero. */
  function Decimal(n: nat): (s: string)
    ensures 1 <= |s| && IsDigits(s)
    decreases n
  {
    if n < 10 then [Digit(n)] else Decimal(n / 10) + [Digit(n % 10)]
  }

  /** The value of a string of decimal digits (leading zeros allowed, empty string reads 0). */
  function ParseDecimal(s: string): (n: nat)
    requires IsDigits(s)
  {
    if s == [] then 0 else 10 * ParseDecimal(s[..|s| - 1]) + DigitValue(s[|s| - 1])
  }

  function Zeros(k: nat): (z: string)
    ensures |z| == k
    ensures forall i :: 0 <= i < k ==> z[i] == '0'
  {
    if k == 0 then [] else Zeros(k - 1) + ['0']
  }

  /**
   * Python's `str.zfill(width)`: left-pads with '0' up to `width`, keeping a
   * leading sign in front of the zeros; a string at least `width` long is
   * returned unchanged.
   */
  function ZFill(s: string, width: nat): (r: string)
    ensures |r| == if |s| >= width then |s| else width
  {
    if |s| >= width then s
    else if |s| > 0 && (s[0] == '+' || s[0] == '-') then [s[0]] + Zeros(width - |s|) + s[1..]
    else Zeros(width - |s|) + s
  }

  lemma ZFillIdentity(s: string, width: nat)
    requires |s| >= width
    ensures ZFill(s, width) == s
  {
  }

  /**
   * On an unsigned digit string, padding puts only zeros in front of the
   * original digits, which end the result unchanged.
   */
  lemma ZFillShape(s: string, width: nat)
    requires IsDigits(s)
    ensures var r := ZFill(s, width);
      |r| >= |s| && r[|r| - |s|..] == s &&
      (forall i :: 0 <= i < |r| - |s| ==> r[i] == '0')
  {
    if |s| > 0 {
      assert IsDigit(s[0]);
    }
  }

  lemma {:induction false} ParseZeros(k: nat)
    ensures IsDigits(Zeros(k)) && ParseDecimal(Zeros(k)) == 0
  {
    if k > 0 {
      ParseZeros(k - 1);
      assert Zeros(k)[..k - 1] == Zeros(k - 1);
    }
  }

  /** Leading zeros do not change the value of a digit string. */
  lemma {:induction false} ParseLeadingZeros(k: nat, s: string)
    requires IsDigits(s)
    ensures IsDigits(Zeros(k) + s)
    ensures ParseDecimal(Zeros(k) + s) == ParseDecimal(s)
    decreases |s|
  {
    ParseZeros(k);
    if s == [] {
      assert Zeros(k) + s == Zeros(k);
    } else {
      var t := Zeros(k) + s;
      ParseLeadingZeros(k, s[..|s| - 1]);
      assert t[..|t| - 1] == Zeros(k) + s[..|s| - 1];
    }
  }

  /** Padding a digit string keeps it a digit string of the same value. */
  lemma ZFillKeepsValue(s: string, width: nat)
    requires IsDigits(s)
    ensures IsDigits(ZFill(s, width)) && ParseDecimal(ZFill(s, width)) == ParseDecimal(s)
  {
    if |s| < width {
      if |s| > 0 {
        assert IsDigit(s[0]);
      }
      ParseLeadingZeros(width - |s|, s);
    }
  }

  /** Reading back the decimal rendering of `n` gives `n`. */
  lemma {:induction false} DecimalRoundTrip(n: nat)
    ensures IsDigits(Decimal(n)) && ParseDecimal(Decimal(n)) == n
    decreases n
  {
    if n >= 10 {
      DecimalRoundTrip(n / 10);
      var s := Decimal(n);
      assert s[..|s| - 1] == Decimal(n / 10);
    }
  }

  /** The rendering is never empty and has no superfluous leading zero. */
  lemma {:induction false} DecimalCanonical(n: nat)
    ensures |Decimal(n)| >= 1
    ensures Decimal(n)[0] == '0' <==> n == 0
    decreases n
  {
    if n >= 10 {
      DecimalCanonical(n / 10);
    }
  }

  /** The rendering of `n` fits in `width` characters exactly when n < 10^width. */
  lemma {:induction false} DecimalFits(n: nat, width: nat)
    requires width >= 1
    ensures |Decimal(n)| <= width <==> n < Pow10(width)
    decreases n
  {
    if n < 10 {
      Pow10AtLeastTen(width);
    } else if width == 1 {
      DecimalCanonical(n / 10);
    } else {
      DecimalFits(n / 10, width - 1);
    }
  }

  lemma {:induction false} Pow10AtLeastTen(width: nat)
    requires width >= 1
    ensures Pow10(width) >= 10
  {
    if width > 1 {
      Pow10AtLeastTen(width - 1);
    }
  }

  /**
   * A fragment rendered and padded to `width` is exactly `width` long when
   * the value is below 10^width, and longer otherwise.
   */
  lemma PaddedFragmentLength(n: nat, width: nat)
    requires width >= 1
    ensures |ZFill(Decimal(n), width)| >= width
    ensures |ZFill(Decimal(n), width)| == width <==> n < Pow10(width)
  {
    DecimalFits(n, width);
  }

  /** A padded fragment reads back as the number it was made from. */
  lemma PaddedFragmentValue(n: nat, width: nat)
    ensures IsDigits(ZFill(Decimal(n), width))
    ensures ParseDecimal(ZFill(Decimal(n), width)) == n
  {
    DecimalRoundTrip(n);
    ZFillKeepsValue(Decimal(n), width);
  }
}
