/**
 * Calendar dates as pandas holds them after `pd.to_datetime`, and their
 * serialisation as an ISO 8601 calendar date in extended format,
 * `YYYY-MM-DD` (section 4.1.2.2 of ISO 8601:2004), which is what
 * `strftime('%Y-%m-%d')` produces for the MySQL `DATE` column.
 */
module Dates {
  import opened Options

  datatype Date = Date(year: int, month: int, day: int)

  predicate IsLeapYear(y: int) {
    y % 4 == 0 && (y % 100 != 0 || y % 400 == 0)
  }

  function DaysInMonth(y: int, m: int): (n: int)
    requires 1 <= m <= 12
    ensures 28 <= n <= 31
  {
    if m == 2 then (if IsLeapYear(y) then 29 else 28)
    else if m == 4 || m == 6 || m == 9 || m == 11 then 30
    else 31
  }

  /** A real calendar date with a four-digit year (pandas timestamps span 1677 to 2262). */
  predicate IsValid(d: Date) {
    1000 <= d.year <= 9999 && 1 <= d.month <= 12 && 1 <= d.day <= DaysInMonth(d.year, d.month)
  }

  type ValidDate = d: Date | IsValid(d) witness Date(1970, 1, 1)

  /** Chronological order, as Python compares `datetime.date` values. */
  predicate NotAfter(a: Date, b: Date) {
    a.year < b.year
    || (a.year == b.year && a.month < b.month)
    || (a.year == b.year && a.month == b.month && a.day <= b.day)
  }

  // ---- digits ----

  predicate IsDigit(c: char) {
    '0' <= c <= '9'
  }

  function DigitChar(n: int): (c: char)
    requires 0 <= n <= 9
    ensures IsDigit(c) && c as int - '0' as int == n
  {
    ('0' as int + n) as char
  }

  function DigitValue(c: char): (n: int)
    requires IsDigit(c)
    ensures 0 <= n <= 9 && DigitChar(n) == c
  {
    c as int - '0' as int
  }

  /** `n` written with exactly `width` decimal digits, zero-padded on the left. */
  function Padded(n: nat, width: nat): (s: string)
    ensures |s| == width
    ensures forall i :: 0 <= i < |s| ==> IsDigit(s[i])
  {
    if width == 0 then [] else Padded(n / 10, width - 1) + [DigitChar(n % 10)]
  }

  /** The number a string of decimal digits denotes. */
  function DigitsValue(s: string): (n: nat)
    requires forall i :: 0 <= i < |s| ==> IsDigit(s[i])
  {
    if s == [] then 0 else 10 * DigitsValue(s[..|s| - 1]) + DigitValue(s[|s| - 1])
  }

  function Pow10(k: nat): (p: nat)
    ensures p >= 1
  {
    if k == 0 then 1 else 10 * Pow10(k - 1)
  }

  lemma {:induction false} DigitsValueBound(s: string)
    requires forall i :: 0 <= i < |s| ==> IsDigit(s[i])
    ensures DigitsValue(s) < Pow10(|s|)
  {
    if s != [] {
      DigitsValueBound(s[..|s| - 1]);
    }
  }

  /** Reading back a zero-padded number gives the number, when it fits the width. */
  lemma {:induction false} PaddedRoundTrip(n: nat, width: nat)
    requires n < Pow10(width)
    ensures DigitsValue(Padded(n, width)) == n
  {
    if width > 0 {
      var q := DropLastDigit(n, width);
      PaddedRoundTrip(q, width - 1);
      PaddedValueStep(n, width, q);
    }
  }

  /** Dropping the last digit of a number that fits `width` digits leaves one that fits `width - 1`. */
  lemma DropLastDigit(n: nat, width: nat) returns (q: nat)
    requires width > 0 && n < Pow10(width)
    ensures q == n / 10 && q < Pow10(width - 1)
  {
    q := n / 10;
  }

  /** The value of a padded number is ten times that of its leading digits plus its last digit. */
  lemma PaddedValueStep(n: nat, width: nat, q: nat)
    requires width > 0 && q == n / 10 && DigitsValue(Padded(q, width - 1)) == q
    ensures DigitsValue(Padded(n, width)) == n
  {
    var s := Padded(n, width);
    assert s[..|s| - 1] == Padded(q, width - 1);
    assert s[|s| - 1] == DigitChar(n % 10);
  }

  /** Writing the value of a digit string back with its own width gives the string. */
  lemma {:induction false} DigitsRoundTrip(s: string)
    requires forall i :: 0 <= i < |s| ==> IsDigit(s[i])
    ensures Padded(DigitsValue(s), |s|) == s
  {
    if s != [] {
      var init := s[..|s| - 1];
      DigitsRoundTrip(init);
      var v := DigitsValue(s);
      assert v / 10 == DigitsValue(init);
      assert v % 10 == DigitValue(s[|s| - 1]);
      assert s == init + [s[|s| - 1]];
    }
  }

  // ---- YYYY-MM-DD ----

  /** `strftime('%Y-%m-%d')`. */
  function FormatIso(d: ValidDate): (s: string)
    ensures |s| == 10 && s[4] == '-' && s[7] == '-'
  {
    Padded(d.year, 4) + "-" + Padded(d.month, 2) + "-" + Padded(d.day, 2)
  }

  predicate IsIsoShape(s: string) {
    |s| == 10 && s[4] == '-' && s[7] == '-'
    && (forall i :: 0 <= i < 4 ==> IsDigit(s[i]))
    && (forall i :: 5 <= i < 7 ==> IsDigit(s[i]))
    && (forall i :: 8 <= i < 10 ==> IsDigit(s[i]))
  }

  /** Reads a `YYYY-MM-DD` string; `None` for any other text or an impossible date. */
  function ParseIso(s: string): (r: Option<ValidDate>)
    ensures r.Some? ==> IsIsoShape(s)
  {
    if !IsIsoShape(s) then None
    else
      var d := Date(DigitsValue(s[..4]), DigitsValue(s[5..7]), DigitsValue(s[8..]));
      if IsValid(d) then Some(d) else None
  }

  /** Every date survives formatting and parsing unchanged. */
  lemma FormatThenParse(d: ValidDate)
    ensures ParseIso(FormatIso(d)) == Some(d)
  {
    var s := FormatIso(d);
    assert s[..4] == Padded(d.year, 4);
    assert s[5..7] == Padded(d.month, 2);
    assert s[8..] == Padded(d.day, 2);
    PaddedRoundTrip(d.year, 4);
    PaddedRoundTrip(d.month, 2);
    PaddedRoundTrip(d.day, 2);
  }

  /** A string that parses is exactly the formatting of the date it denotes. */
  lemma ParseThenFormat(s: string, d: ValidDate)
    requires ParseIso(s) == Some(d)
    ensures FormatIso(d) == s
  {
    DigitsRoundTrip(s[..4]);
    DigitsRoundTrip(s[5..7]);
    DigitsRoundTrip(s[8..]);
    assert s == s[..4] + "-" + s[5..7] + "-" + s[8..];
  }
}
