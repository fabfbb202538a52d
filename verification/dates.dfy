/**
 * Calendar dates. The source stores them as `YYYY-MM-DD` text and compares
 * that text; here a date is a (year, month, day) triple ordered
 * lexicographically, which is the order of its ISO text for four-digit years.
 */
module Dates {
  import opened Wrappers

  datatype Date = Date(year: int, month: int, day: int)

  /** `a` is on or before `b`. */
  predicate DateLe(a: Date, b: Date) {
    || a.year < b.year
    || (a.year == b.year && (a.month < b.month || (a.month == b.month && a.day <= b.day)))
  }

  predicate IsLeapYear(y: int) {
    y % 4 == 0 && (y % 100 != 0 || y % 400 == 0)
  }

  function DaysInMonth(y: int, m: int): (n: int)
    requires 1 <= m <= 12
    ensures 28 <= n <= 31
  {
    if m == 2 then (if IsLeapYear(y) then 29 else 28)
    else if m == 4 || m == 6 || m == 9 || m == 11 then 30
    else 31
  }

  /** A date Python's `datetime` can hold (years 1 to 9999, real days of the month). */
  predicate ValidDate(d: Date) {
    1 <= d.year <= 9999 && 1 <= d.month <= 12 && 1 <= d.day <= DaysInMonth(d.year, d.month)
  }

  predicate IsDigit(c: char) {
    '0' <= c <= '9'
  }

  function DigitValue(c: char): (n: int)
    requires IsDigit(c)
    ensures 0 <= n <= 9
  {
    c as int - '0' as int
  }

  function DigitChar(n: int): (c: char)
    requires 0 <= n <= 9
    ensures IsDigit(c) && DigitValue(c) == n
  {
    ('0' as int + n) as char
  }

  function Pow10(w: nat): (p: nat)
    ensures p >= 1
  {
    if w == 0 then 1 else 10 * Pow10(w - 1)
  }

  /** The decimal value of a string of digits. */
  function DigitsValue(s: string): (n: nat)
    requires forall i :: 0 <= i < |s| ==> IsDigit(s[i])
    ensures n < Pow10(|s|)
  {
    if s == [] then 0 else 10 * DigitsValue(s[..|s| - 1]) + DigitValue(s[|s| - 1])
  }

  /** `n` written with exactly `w` digits, zero-padded on the left. */
  function Padded(n: nat, w: nat): (s: string)
    ensures |s| == w && forall i :: 0 <= i < |s| ==> IsDigit(s[i])
  {
    if w == 0 then [] else Padded(n / 10, w - 1) + [DigitChar(n % 10)]
  }

  lemma {:induction false} PaddedValue(n: nat, w: nat)
    requires n < Pow10(w)
    ensures DigitsValue(Padded(n, w)) == n
  {
    if w > 0 {
      var s := Padded(n, w);
      assert s[..|s| - 1] == Padded(n / 10, w - 1);
      PaddedValue(n / 10, w - 1);
    }
  }

  /** `strftime("%Y-%m-%d")` for a year of four digits. */
  function FormatIso(d: Date): (s: string)
    requires ValidDate(d) && 1000 <= d.year
    ensures |s| == 10 && s[4] == '-' && s[7] == '-'
  {
    Padded(d.year, 4) + "-" + Padded(d.month, 2) + "-" + Padded(d.day, 2)
  }

  /** The alternatives `1[0-2]|0[1-9]|[1-9]` of the month field, tried in order: value and end index. */
  function MatchMonth(s: string, i: nat): (r: Option<(int, nat)>)
    ensures r.Some? ==> 1 <= r.value.0 <= 12 && i < r.value.1 <= |s|
  {
    if i + 1 < |s| && s[i] == '1' && '0' <= s[i + 1] <= '2' then Some((10 + DigitValue(s[i + 1]), i + 2))
    else if i + 1 < |s| && s[i] == '0' && '1' <= s[i + 1] <= '9' then Some((DigitValue(s[i + 1]), i + 2))
    else if i < |s| && '1' <= s[i] <= '9' then Some((DigitValue(s[i]), i + 1))
    else None
  }

  /** The alternatives `3[01]|[12]\d|0[1-9]|[1-9]| [1-9]` of the day field, tried in order. */
  function MatchDay(s: string, i: nat): (r: Option<(int, nat)>)
    ensures r.Some? ==> 1 <= r.value.0 <= 31 && i < r.value.1 <= |s|
  {
    if i + 1 < |s| && s[i] == '3' && '0' <= s[i + 1] <= '1' then Some((30 + DigitValue(s[i + 1]), i + 2))
    else if i + 1 < |s| && '1' <= s[i] <= '2' && IsDigit(s[i + 1]) then Some((10 * DigitValue(s[i]) + DigitValue(s[i + 1]), i + 2))
    else if i + 1 < |s| && s[i] == '0' && '1' <= s[i + 1] <= '9' then Some((DigitValue(s[i + 1]), i + 2))
    else if i < |s| && '1' <= s[i] <= '9' then Some((DigitValue(s[i]), i + 1))
    else if i + 1 < |s| && s[i] == ' ' && '1' <= s[i + 1] <= '9' then Some((DigitValue(s[i + 1]), i + 2))
    else None
  }

  /**
   * `datetime.strptime(s, "%Y-%m-%d")`: four year digits, a dash, a month of
   * one or two digits, a dash, a day of one or two digits (or a space and a
   * digit); nothing may remain after the day, and the date must exist.
   */
  function ParseIso(s: string): (r: Option<Date>)
    ensures r.Some? ==> ValidDate(r.value)
  {
    if |s| < 5 || !(IsDigit(s[0]) && IsDigit(s[1]) && IsDigit(s[2]) && IsDigit(s[3])) || s[4] != '-' then None
    else
      var year := DigitsValue(s[..4]);
      match MatchMonth(s, 5)
      case None => None
      case Some((month, i)) =>
        if i >= |s| || s[i] != '-' then None
        else match MatchDay(s, i + 1)
          case None => None
          case Some((day, j)) =>
            if j != |s| then None
            else if ValidDate(Date(year, month, day)) then Some(Date(year, month, day))
            else None
  }

  lemma TwoDigitsValue(s: string)
    requires |s| == 2 && IsDigit(s[0]) && IsDigit(s[1])
    ensures DigitsValue(s) == 10 * DigitValue(s[0]) + DigitValue(s[1])
  {
    assert s[..1][..0] == [];
  }

  /** The month field of a formatted date is read back by the month alternatives. */
  lemma MonthFieldMatches(s: string, m: int)
    requires 10 <= |s| && 1 <= m <= 12 && s[5..7] == Padded(m, 2) && s[7] == '-'
    ensures MatchMonth(s, 5) == Some((m, 7))
  {
    var t := Padded(m, 2);
    PaddedValue(m, 2);
    TwoDigitsValue(t);
    assert s[5] == t[0] && s[6] == t[1];
  }

  /** The day field of a formatted date is read back by the day alternatives. */
  lemma DayFieldMatches(s: string, dd: int)
    requires |s| == 10 && 1 <= dd <= 31 && s[8..10] == Padded(dd, 2)
    ensures MatchDay(s, 8) == Some((dd, 10))
  {
    var t := Padded(dd, 2);
    PaddedValue(dd, 2);
    TwoDigitsValue(t);
    assert s[8] == t[0] && s[9] == t[1];
  }

  /** Reading back the ISO text of a date gives the same date. */
  lemma FormatThenParse(d: Date)
    requires ValidDate(d) && 1000 <= d.year
    ensures ParseIso(FormatIso(d)) == Some(d)
  {
    var s := FormatIso(d);
    assert s[..4] == Padded(d.year, 4);
    assert s[5..7] == Padded(d.month, 2);
    assert s[8..10] == Padded(d.day, 2);
    PaddedValue(d.year, 4);
    MonthFieldMatches(s, d.month);
    DayFieldMatches(s, d.day);
  }
}
