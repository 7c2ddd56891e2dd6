// The amount field of the expense form: the digit pattern it accepts, its value
// in cents, and the two-decimal rendering it reads back.

module AmountText {

  predicate IsDigit(c: char) { '0' <= c <= '9' }

  predicate AllDigits(s: string) { forall i :: 0 <= i < |s| ==> IsDigit(s[i]) }

  /** The length of the run of digits that starts `s`. */
  function LeadingDigits(s: string): (k: nat)
    ensures k <= |s| && AllDigits(s[..k])
    ensures k < |s| ==> !IsDigit(s[k])
  {
    if |s| == 0 || !IsDigit(s[0]) then 0
    else
      var k := 1 + LeadingDigits(s[1..]);
      assert forall i :: 1 <= i < k ==> s[..k][i] == s[1..][..k - 1][i - 1];
      k
  }

  /** The non-empty strings `/^\d+(\.\d{0,2})?$/` accepts: digits, optionally
      followed by a point and at most two more digits. */
  predicate IsAmountText(s: string)
    ensures IsAmountText(s) ==> |s| >= 1 && IsDigit(s[0])
    ensures |s| >= 1 && AllDigits(s) ==> IsAmountText(s)
  {
    var k := LeadingDigits(s);
    k > 0 && (k == |s| || (s[k] == '.' && |s| <= k + 3 && AllDigits(s[k + 1..])))
  }

  /** The pattern stated directly: one or more digits, or digits, a point and up to
      two digits. */
  ghost predicate MatchesAmountPattern(s: string)
  {
    (|s| >= 1 && AllDigits(s)) ||
    exists w: string, f: string :: |w| >= 1 && AllDigits(w) && |f| <= 2 && AllDigits(f) && s == w + "." + f
  }

  lemma {:induction false} LeadingDigitsOfDigits(w: string, rest: string)
    requires AllDigits(w)
    ensures LeadingDigits(w + rest) == |w| + LeadingDigits(rest)
  {
    if |w| > 0 {
      assert (w + rest)[1..] == w[1..] + rest;
      LeadingDigitsOfDigits(w[1..], rest);
    } else {
      assert w + rest == rest;
    }
  }

  /** The scanner accepts exactly the strings of the pattern. */
  lemma AmountTextMatchesPattern(s: string)
    ensures IsAmountText(s) <==> MatchesAmountPattern(s)
  {
    if IsAmountText(s) {
      ScannedMatchesPattern(s);
    }
    if MatchesAmountPattern(s) {
      PatternIsScanned(s);
    }
  }

  lemma ScannedMatchesPattern(s: string)
    requires IsAmountText(s)
    ensures MatchesAmountPattern(s)
  {
    var k := LeadingDigits(s);
    if k == |s| {
      assert s[..k] == s;
    } else {
      var w, f := s[..k], s[k + 1..];
      assert s == w + "." + f;
    }
  }

  lemma PatternIsScanned(s: string)
    requires MatchesAmountPattern(s)
    ensures IsAmountText(s)
  {
    if |s| >= 1 && AllDigits(s) {
      LeadingDigitsOfDigits(s, "");
      assert s + "" == s;
    } else {
      var w: string, f: string :| |w| >= 1 && AllDigits(w) && |f| <= 2 && AllDigits(f) && s == w + "." + f;
      LeadingDigitsOfDigits(w, "." + f);
      assert (w + "." + f) == w + ("." + f);
      assert s[|w| + 1..] == f;
    }
  }

  function DigitValue(c: char): int
    requires IsDigit(c)
  {
    c as int - '0' as int
  }

  /** The value of a string of decimal digits. */
  function DigitsValue(s: string): nat
    requires AllDigits(s)
  {
    if |s| == 0 then 0
    else DigitsValue(s[..|s| - 1]) * 10 + DigitValue(s[|s| - 1])
  }

  /** `parseFloat(value)` in cents, for a string the pattern accepts: a missing
      second decimal counts as 0, so "12.5" is 1250 and "12." is 1200. */
  function ParseCents(s: string): (cents: nat)
    requires IsAmountText(s)
    ensures AllDigits(s) ==> cents == DigitsValue(s) * 100
  {
    var k := LeadingDigits(s);
    var frac := if k == |s| then "" else s[k + 1..];
    assert AllDigits(s) ==> s[..k] == s;
    DigitsValue(s[..k]) * 100 +
      (if |frac| == 0 then 0
       else if |frac| == 1 then 10 * DigitValue(frac[0])
       else 10 * DigitValue(frac[0]) + DigitValue(frac[1]))
  }

  /** A decimal amount: the whole units times 100, plus the fraction read as tenths
      (one digit) or hundredths (two digits); no fraction digits count as 0. */
  lemma ParseDecimalCents(w: string, f: string)
    requires |w| >= 1 && AllDigits(w) && |f| <= 2 && AllDigits(f)
    ensures IsAmountText(w + "." + f)
    ensures ParseCents(w + "." + f) == DigitsValue(w) * 100 + DigitsValue(f) * (if |f| == 1 then 10 else 1)
  {
    DecimalScan(w, f);
    FractionCents(f);
  }

  lemma DecimalScan(w: string, f: string)
    requires AllDigits(w)
    ensures var s := w + "." + f;
            LeadingDigits(s) == |w| < |s| && s[|w|] == '.' && s[..|w|] == w && s[|w| + 1..] == f
  {
    var s := w + "." + f;
    assert s == w + ("." + f);
    LeadingDigitsOfDigits(w, "." + f);
  }

  lemma FractionCents(f: string)
    requires |f| <= 2 && AllDigits(f)
    ensures (if |f| == 0 then 0
             else if |f| == 1 then 10 * DigitValue(f[0])
             else 10 * DigitValue(f[0]) + DigitValue(f[1])) ==
            DigitsValue(f) * (if |f| == 1 then 10 else 1)
  {
    if |f| == 1 {
      assert f[..0] == [];
    } else if |f| == 2 {
      assert f[..1][..0] == [];
      assert f[..1] == [f[0]];
    }
  }

  /** "12.5" is 12.50 and "12." is 12.00. */
  lemma ParseCentsExamples()
    ensures IsAmountText("12.5") && ParseCents("12.5") == 1250
    ensures IsAmountText("12.") && ParseCents("12.") == 1200
  {
    assert AllDigits("12") && AllDigits("5") && AllDigits("");
    assert DigitsValue("12") == 12 by {
      assert "12"[..1] == "1";
      assert "1"[..0] == "";
    }
    assert DigitsValue("5") == 5 by {
      assert "5"[..0] == "";
    }
    ParseDecimalCents("12", "5");
    ParseDecimalCents("12", "");
    assert "12" + "." + "5" == "12.5";
    assert "12" + "." + "" == "12.";
  }

  function Digit(d: int): char
    requires 0 <= d < 10
  {
    ('0' as int + d) as char
  }

  /** The decimal digits of `n`, most significant first. */
  function NatDigits(n: nat): (s: string)
    ensures |s| >= 1 && AllDigits(s)
  {
    if n < 10 then [Digit(n)] else NatDigits(n / 10) + [Digit(n % 10)]
  }

  /** `(c / 100).toFixed(2)` for a non-negative amount of cents. */
  function FormatCents(c: nat): string
  {
    NatDigits(c / 100) + "." + [Digit(c % 100 / 10), Digit(c % 10)]
  }

  lemma {:induction false} DigitsValueOfNat(n: nat)
    ensures DigitsValue(NatDigits(n)) == n
  {
    if n >= 10 {
      DigitsValueOfNat(n / 10);
      var s := NatDigits(n);
      assert s[..|s| - 1] == NatDigits(n / 10);
    }
  }

  lemma TwoDigitsValue(d1: int, d0: int)
    requires 0 <= d1 < 10 && 0 <= d0 < 10
    ensures AllDigits([Digit(d1), Digit(d0)])
    ensures DigitsValue([Digit(d1), Digit(d0)]) == d1 * 10 + d0
  {
    var f := [Digit(d1), Digit(d0)];
    assert DigitValue(Digit(d1)) == d1 && DigitValue(Digit(d0)) == d0;
    assert f[..1] == [Digit(d1)] && [Digit(d1)][..0] == [];
    assert DigitsValue([Digit(d1)]) == d1;
  }

  lemma CentsDigits(c: nat)
    ensures c == c / 100 * 100 + (c % 100 / 10) * 10 + c % 10
  {
  }

  /** The two-decimal rendering of an amount is accepted by the amount field and
      parses back to the same number of cents. */
  lemma ParseFormatCents(c: nat)
    ensures IsAmountText(FormatCents(c))
    ensures ParseCents(FormatCents(c)) == c
  {
    var w := NatDigits(c / 100);
    var f := [Digit(c % 100 / 10), Digit(c % 10)];
    assert FormatCents(c) == w + "." + f;
    ParseDecimalCents(w, f);
    DigitsValueOfNat(c / 100);
    TwoDigitsValue(c % 100 / 10, c % 10);
    CentsDigits(c);
  }
}
