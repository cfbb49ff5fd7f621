/** Calendar dates as Python's `datetime.date` holds them: the proleptic
    Gregorian calendar, years 1 to 9999, the `full-date` form `YYYY-MM-DD`
    of section 5.6 of RFC 3339 with the day limits of its section 5.7. */
module Dates {
  import opened Wrappers
  import opened Text

  datatype Date = Date(year: int, month: int, day: int)

  predicate IsLeapYear(y: int) {
    y % 4 == 0 && (y % 100 != 0 || y % 400 == 0)
  }

  function DaysInMonth(y: int, m: int): int
    requires 1 <= m <= 12
  {
    if m == 2 then (if IsLeapYear(y) then 29 else 28)
    else if m == 4 || m == 6 || m == 9 || m == 11 then 30
    else 31
  }

  function DaysInYear(y: int): int {
    if IsLeapYear(y) then 366 else 365
  }

  /** What `datetime.date(y, m, d)` accepts. */
  predicate ValidDate(d: Date) {
    && 1 <= d.year <= 9999
    && 1 <= d.month <= 12
    && 1 <= d.day <= DaysInMonth(d.year, d.month)
  }

  /** A date Python can hold. */
  type CalendarDate = d: Date | ValidDate(d) witness Date(1, 1, 1)

  /** Python compares dates field by field: year, then month, then day. */
  predicate DateLt(a: Date, b: Date) {
    || a.year < b.year
    || (a.year == b.year && a.month < b.month)
    || (a.year == b.year && a.month == b.month && a.day < b.day)
  }

  predicate DateLe(a: Date, b: Date) {
    a == b || DateLt(a, b)
  }

  lemma DateLeTotal(a: Date, b: Date)
    ensures DateLe(a, b) || DateLe(b, a)
  {
  }

  lemma DateLeTransitive(a: Date, b: Date, c: Date)
    requires DateLe(a, b) && DateLe(b, c)
    ensures DateLe(a, c)
  {
  }

  function DaysBeforeYear(y: int): int {
    var n := y - 1;
    365 * n + n / 4 - n / 100 + n / 400
  }

  function DaysBeforeMonth(y: int, m: int): int
    requires 1 <= m <= 13
  {
    if m == 1 then 0 else DaysBeforeMonth(y, m - 1) + DaysInMonth(y, m - 1)
  }

  /** `date.toordinal()`: 0001-01-01 is day 1, and every later valid date
      is one more than the valid date before it. `date + timedelta(days=n)`
      is the date whose ordinal is n more. */
  function Ordinal(d: Date): int
    requires ValidDate(d)
  {
    DaysBeforeYear(d.year) + DaysBeforeMonth(d.year, d.month) + d.day
  }

  lemma DaysBeforeYearStep(y: int)
    requires y >= 1
    ensures DaysBeforeYear(y + 1) == DaysBeforeYear(y) + DaysInYear(y)
  {
    var n := y - 1;
    var a := if n % 4 == 3 then 1 else 0;
    var b := if n % 100 == 99 then 1 else 0;
    var c := if n % 400 == 399 then 1 else 0;
    DivStep4(n);
    DivStep100(n);
    DivStep400(n);
    assert DaysBeforeYear(y + 1) == DaysBeforeYear(y) + 365 + a - b + c;
    assert DaysInYear(y) == 365 + a - b + c by {
      if a == 0 { assert b == 0 && c == 0; }
    }
  }

  /** Stepping past a multiple of 4. */
  lemma DivStep4(n: int)
    requires n >= 0
    ensures (n + 1) / 4 == n / 4 + (if n % 4 == 3 then 1 else 0)
    ensures (n + 1) % 4 == 0 <==> n % 4 == 3
  {
  }

  /** Stepping past a multiple of 100, which is one of 4. */
  lemma DivStep100(n: int)
    requires n >= 0
    ensures (n + 1) / 100 == n / 100 + (if n % 100 == 99 then 1 else 0)
    ensures (n + 1) % 100 == 0 <==> n % 100 == 99
    ensures n % 100 == 99 ==> n % 4 == 3
  {
  }

  /** Stepping past a multiple of 400, which is one of 100. */
  lemma DivStep400(n: int)
    requires n >= 0
    ensures (n + 1) / 400 == n / 400 + (if n % 400 == 399 then 1 else 0)
    ensures (n + 1) % 400 == 0 <==> n % 400 == 399
    ensures n % 400 == 399 ==> n % 100 == 99
  {
  }

  lemma {:induction false} DaysBeforeYearMonotone(y: int, z: int)
    requires 1 <= y < z
    ensures DaysBeforeYear(y) + DaysInYear(y) <= DaysBeforeYear(z)
    decreases z - y
  {
    DaysBeforeYearStep(y);
    if y + 1 < z {
      DaysBeforeYearMonotone(y + 1, z);
    }
  }

  lemma {:induction false} DaysBeforeMonthMonotone(y: int, m: int, k: int)
    requires 1 <= m < k <= 13
    ensures DaysBeforeMonth(y, m) + DaysInMonth(y, m) <= DaysBeforeMonth(y, k)
    decreases k - m
  {
    if m + 1 < k {
      DaysBeforeMonthMonotone(y, m + 1, k);
    }
  }

  lemma DaysBeforeMonthYear(y: int)
    ensures DaysBeforeMonth(y, 13) == DaysInYear(y)
  {
    var feb := DaysInMonth(y, 2);
    assert DaysBeforeMonth(y, 2) == 31;
    assert DaysBeforeMonth(y, 3) == 31 + feb;
    assert DaysBeforeMonth(y, 4) == 62 + feb;
    assert DaysBeforeMonth(y, 5) == 92 + feb;
    assert DaysBeforeMonth(y, 6) == 123 + feb;
    assert DaysBeforeMonth(y, 7) == 153 + feb;
    assert DaysBeforeMonth(y, 8) == 184 + feb;
    assert DaysBeforeMonth(y, 9) == 215 + feb;
    assert DaysBeforeMonth(y, 10) == 245 + feb;
    assert DaysBeforeMonth(y, 11) == 276 + feb;
    assert DaysBeforeMonth(y, 12) == 306 + feb;
    assert DaysBeforeMonth(y, 13) == 337 + feb;
  }

  lemma {:induction false} DaysBeforeMonthNonNegative(y: int, m: int)
    requires 1 <= m <= 13
    ensures DaysBeforeMonth(y, m) >= 0
  {
    if m > 1 {
      DaysBeforeMonthNonNegative(y, m - 1);
    }
  }

  /** The ordinal orders valid dates exactly as Python's field-by-field
      comparison does, so `today <= d <= today + timedelta(days=n)` can be
      read on ordinals. */
  lemma OrdinalOrder(a: Date, b: Date)
    requires ValidDate(a) && ValidDate(b)
    ensures DateLt(a, b) <==> Ordinal(a) < Ordinal(b)
    ensures a == b <==> Ordinal(a) == Ordinal(b)
  {
    DaysBeforeMonthNonNegative(a.year, a.month);
    DaysBeforeMonthNonNegative(b.year, b.month);
    if a.year < b.year {
      OrdinalBelowNextYear(a);
      DaysBeforeYearMonotone(a.year, b.year);
    } else if b.year < a.year {
      OrdinalBelowNextYear(b);
      DaysBeforeYearMonotone(b.year, a.year);
    } else if a.month < b.month {
      DaysBeforeMonthMonotone(a.year, a.month, b.month);
    } else if b.month < a.month {
      DaysBeforeMonthMonotone(a.year, b.month, a.month);
    }
  }

  lemma OrdinalBelowNextYear(d: Date)
    requires ValidDate(d)
    ensures Ordinal(d) <= DaysBeforeYear(d.year) + DaysInYear(d.year)
  {
    if d.month < 12 {
      DaysBeforeMonthMonotone(d.year, d.month, 13);
    }
    DaysBeforeMonthYear(d.year);
  }

  /** The `\d{4}-\d{2}-\d{2}` shape of a date token. */
  predicate DateShape(s: string) {
    && |s| == 10
    && IsDigit(s[0]) && IsDigit(s[1]) && IsDigit(s[2]) && IsDigit(s[3])
    && s[4] == '-'
    && IsDigit(s[5]) && IsDigit(s[6])
    && s[7] == '-'
    && IsDigit(s[8]) && IsDigit(s[9])
  }

  function Digits2(s: string, i: nat): nat
    requires i + 2 <= |s| && IsDigit(s[i]) && IsDigit(s[i + 1])
  {
    10 * DigitValue(s[i]) + DigitValue(s[i + 1])
  }

  /** The calendar fields a date-shaped token spells, valid or not. */
  function ShapeFields(s: string): Date
    requires DateShape(s)
  {
    Date(100 * Digits2(s, 0) + Digits2(s, 2), Digits2(s, 5), Digits2(s, 8))
  }

  /** `datetime.strptime(s, "%Y-%m-%d").date()` on a date-shaped token:
      `None` stands for the `ValueError` raised for an impossible date
      (month 00 or 13, day 00, 31 April, 29 February of a common year,
      year 0000). */
  function ParseIsoDate(s: string): (r: Option<CalendarDate>)
    ensures r.Some? <==> DateShape(s) && ValidDate(ShapeFields(s))
    ensures r.Some? ==> r.value == ShapeFields(s)
  {
    if DateShape(s) && ValidDate(ShapeFields(s)) then Some(ShapeFields(s)) else None
  }

  function Pad2(n: nat): string
    requires n < 100
  {
    [DigitChar(n / 10), DigitChar(n % 10)]
  }

  /** `d.strftime('%Y-%m-%d')`: four-digit year, two-digit month and day. */
  function FormatIsoDate(d: CalendarDate): (r: string)
    ensures DateShape(r)
  {
    Pad2(d.year / 100) + Pad2(d.year % 100) + "-" + Pad2(d.month) + "-" + Pad2(d.day)
  }

  /** Formatting a valid date and parsing it back gives the same date. */
  lemma ParseFormatIsoDate(d: CalendarDate)
    ensures ParseIsoDate(FormatIsoDate(d)) == Some(d)
  {
    var s := FormatIsoDate(d);
    assert s[..2] == Pad2(d.year / 100) && s[2..4] == Pad2(d.year % 100);
    assert s[5..7] == Pad2(d.month) && s[8..10] == Pad2(d.day);
    Digits2Pad(s, 0, d.year / 100);
    Digits2Pad(s, 2, d.year % 100);
    Digits2Pad(s, 5, d.month);
    Digits2Pad(s, 8, d.day);
  }

  /** Two digits written by `Pad2` read back as the number. */
  lemma Digits2Pad(s: string, i: nat, n: nat)
    requires n < 100 && i + 2 <= |s| && s[i..i + 2] == Pad2(n)
    ensures IsDigit(s[i]) && IsDigit(s[i + 1]) && Digits2(s, i) == n
  {
    assert s[i] == Pad2(n)[0] && s[i + 1] == Pad2(n)[1];
  }

  /** Every token that parses is exactly the formatting of its date. */
  lemma FormatParseIsoDate(s: string)
    requires ParseIsoDate(s).Some?
    ensures FormatIsoDate(ParseIsoDate(s).value) == s
  {
    var d := ShapeFields(s);
    var t := FormatIsoDate(d);
    assert d.year / 100 == Digits2(s, 0) && d.year % 100 == Digits2(s, 2);
    assert t[0] == s[0] && t[1] == s[1] && t[2] == s[2] && t[3] == s[3];
    assert t[5] == s[5] && t[6] == s[6] && t[8] == s[8] && t[9] == s[9];
    assert t == s;
  }
}
