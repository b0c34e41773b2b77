/**
 * Folder names built from a calendar date, as `datetime.strftime` renders
 * them with the patterns "%Y", "%Y-%m" and "%Y-%m-%d": a zero-padded
 * four-digit year, two-digit month and two-digit day.
 */
module Dates {

  /** The local calendar date of a timestamp. */
  datatype Date = Date(year: nat, month: nat, day: nat)

  /** The dates a Python `datetime` can hold. */
  predicate ValidDate(d: Date) {
    1 <= d.year <= 9999 && 1 <= d.month <= 12 && 1 <= d.day <= 31
  }

  function Pow10(w: nat): (p: nat)
    ensures p >= 1
  {
    if w == 0 then 1 else 10 * Pow10(w - 1)
  }

  predicate IsDigit(c: char) {
    '0' <= c <= '9'
  }

  function DigitChar(d: nat): (c: char)
    requires d < 10
    ensures IsDigit(c) && c as int - '0' as int == d
  {
    ('0' as int + d) as char
  }

  /** The last `w` decimal digits of `n`, most significant first (zero-padded). */
  function Digits(n: nat, w: nat): (s: string)
    ensures |s| == w
    ensures forall i :: 0 <= i < |s| ==> IsDigit(s[i])
  {
    if w == 0 then "" else Digits(n / 10, w - 1) + [DigitChar(n % 10)]
  }

  /** The number a string of decimal digits denotes: the inverse of Digits. */
  function ParseDigits(s: string): nat
    requires forall i :: 0 <= i < |s| ==> IsDigit(s[i])
  {
    if s == [] then 0
    else
      assert IsDigit(s[|s| - 1]);
      ParseDigits(s[..|s| - 1]) * 10 + (s[|s| - 1] as int - '0' as int)
  }

  /** Padding to `w` digits loses nothing when `n` has at most `w` digits. */
  lemma {:induction false} DigitsRoundTrip(n: nat, w: nat)
    requires n < Pow10(w)
    ensures ParseDigits(Digits(n, w)) == n
  {
    if w > 0 {
      var s := Digits(n, w);
      assert s[..|s| - 1] == Digits(n / 10, w - 1);
      assert n / 10 < Pow10(w - 1);
      DigitsRoundTrip(n / 10, w - 1);
    }
  }

  /** Two numbers that fit in `w` digits have the same padded form only if equal. */
  lemma DigitsInjective(m: nat, n: nat, w: nat)
    requires m < Pow10(w) && n < Pow10(w)
    ensures Digits(m, w) == Digits(n, w) <==> m == n
  {
    if Digits(m, w) == Digits(n, w) {
      DigitsRoundTrip(m, w);
      DigitsRoundTrip(n, w);
    }
  }

  /** strftime("%Y") */
  function YearName(d: Date): (s: string)
    ensures |s| == 4
  {
    Digits(d.year, 4)
  }

  /** strftime("%Y-%m") */
  function MonthName(d: Date): (s: string)
    ensures |s| == 7 && s[..4] == YearName(d) && s[4] == '-'
  {
    YearName(d) + "-" + Digits(d.month, 2)
  }

  /** strftime("%Y-%m-%d") */
  function DayName(d: Date): (s: string)
    ensures |s| == 10 && s[..7] == MonthName(d) && s[7] == '-'
  {
    MonthName(d) + "-" + Digits(d.day, 2)
  }

  /** Two valid dates share a yearly folder exactly when they fall in the same year. */
  lemma YearNameIff(d1: Date, d2: Date)
    requires ValidDate(d1) && ValidDate(d2)
    ensures YearName(d1) == YearName(d2) <==> d1.year == d2.year
  {
    DigitsInjective(d1.year, d2.year, 4);
  }

  /** Two valid dates share a monthly folder exactly when they fall in the same month of the same year. */
  lemma MonthNameIff(d1: Date, d2: Date)
    requires ValidDate(d1) && ValidDate(d2)
    ensures MonthName(d1) == MonthName(d2) <==> d1.year == d2.year && d1.month == d2.month
  {
    var s1, s2 := MonthName(d1), MonthName(d2);
    if s1 == s2 {
      assert s1[..4] == s2[..4];
      assert s1[5..] == Digits(d1.month, 2);
      assert s2[5..] == Digits(d2.month, 2);
      DigitsInjective(d1.year, d2.year, 4);
      DigitsInjective(d1.month, d2.month, 2);
    }
  }

  /** Two valid dates share a daily folder exactly when they are the same date. */
  lemma DayNameIff(d1: Date, d2: Date)
    requires ValidDate(d1) && ValidDate(d2)
    ensures DayName(d1) == DayName(d2) <==> d1 == d2
  {
    var s1, s2 := DayName(d1), DayName(d2);
    if s1 == s2 {
      assert s1[..7] == s2[..7];
      assert s1[8..] == Digits(d1.day, 2);
      assert s2[8..] == Digits(d2.day, 2);
      MonthNameIff(d1, d2);
      DigitsInjective(d1.day, d2.day, 2);
    }
  }
}
