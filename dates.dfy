/** `java.time.LocalDate` restricted to the four-digit years of ISO 8601's
    basic calendar-date format: validity, the ISO local-date text
    `YYYY-MM-DD` (ISO 8601:2004, 4.1.2.2, extended format) that
    `LocalDate.toString()` and `DateTimeFormatter.ISO_LOCAL_DATE` write and
    read, the proleptic Gregorian day count behind `toEpochDay()`, and
    `ChronoUnit.DAYS.between`. */
module Dates {
  import opened Wrappers
  import opened Text

  datatype Date = Date(year: int, month: int, day: int)

  predicate IsLeapYear(y: int) {
    y % 4 == 0 && (y % 100 != 0 || y % 400 == 0)
  }

  function YearLength(y: int): int {
    if IsLeapYear(y) then 366 else 365
  }

  function DaysInMonth(y: int, m: int): int
    requires 1 <= m <= 12
  {
    if m == 2 then (if IsLeapYear(y) then 29 else 28)
    else if m == 4 || m == 6 || m == 9 || m == 11 then 30
    else 31
  }

  /** A date `LocalDate.of` accepts, with a year of four digits. */
  predicate Valid(d: Date) {
    && 0 <= d.year <= 9999
    && 1 <= d.month <= 12
    && 1 <= d.day <= DaysInMonth(d.year, d.month)
  }

  /** A `LocalDate` value: a date that exists in the calendar. */
  type CalendarDate = d: Date | Valid(d) witness Date(1970, 1, 1)

  /** Chronological order: year, then month, then day. */
  predicate Before(a: Date, b: Date) {
    || a.year < b.year
    || (a.year == b.year && a.month < b.month)
    || (a.year == b.year && a.month == b.month && a.day < b.day)
  }

  // ---------------------------------------------------------------------
  // ISO local-date text

  function Pad2(n: int): (s: string)
    requires 0 <= n < 100
    ensures |s| == 2
  {
    [DigitChar(n / 10), DigitChar(n % 10)]
  }

  function Pad4(n: int): (s: string)
    requires 0 <= n < 10000
    ensures |s| == 4
  {
    [DigitChar(n / 1000), DigitChar(n / 100 % 10), DigitChar(n / 10 % 10), DigitChar(n % 10)]
  }

  /** `LocalDate.toString()`, which is `ISO_LOCAL_DATE` formatting. */
  function Format(d: Date): (s: string)
    requires Valid(d)
    ensures |s| == 10
  {
    Pad4(d.year) + "-" + Pad2(d.month) + "-" + Pad2(d.day)
  }

  function DigitValue(c: char): int
    requires IsDigit(c)
  {
    c as int - '0' as int
  }

  predicate DigitsAt(s: string, lo: int, hi: int)
    requires 0 <= lo <= hi <= |s|
  {
    forall i :: lo <= i < hi ==> IsDigit(s[i])
  }

  lemma DigitRoundTrip(c: char)
    requires IsDigit(c)
    ensures 0 <= DigitValue(c) < 10 && DigitChar(DigitValue(c)) == c
  {
  }

  lemma SplitTwo(n: int)
    requires 0 <= n < 100
    ensures n == 10 * (n / 10) + n % 10 && 0 <= n / 10 < 10
  {
  }

  lemma JoinTwo(d1: int, d0: int)
    requires 0 <= d1 < 10 && 0 <= d0 < 10
    ensures (10 * d1 + d0) / 10 == d1 && (10 * d1 + d0) % 10 == d0
  {
  }

  /** The four digits of `Pad4(n)` are the two digits of `n / 100` followed by
      the two digits of `n % 100`. */
  lemma Pad4Halves(n: int)
    requires 0 <= n < 10000
    ensures 0 <= n / 100 < 100 && 0 <= n % 100 < 100
    ensures n == 100 * (n / 100) + n % 100
    ensures Pad4(n) == Pad2(n / 100) + Pad2(n % 100)
  {
    HundredsDigit(n);
    TensDigit(n);
    assert n % 100 % 10 == n % 10;
  }

  lemma HundredsDigit(n: int)
    requires 0 <= n < 10000
    ensures n / 100 / 10 == n / 1000
  {
  }

  lemma TensDigit(n: int)
    requires 0 <= n < 10000
    ensures n % 100 / 10 == n / 10 % 10
  {
  }

  lemma JoinHundreds(hi: int, lo: int)
    requires 0 <= hi < 100 && 0 <= lo < 100
    ensures (100 * hi + lo) / 100 == hi && (100 * hi + lo) % 100 == lo
  {
  }

  /** The value of the two digits at `s[i..i + 2]`. */
  function Num2(s: string, i: int): int
    requires 0 <= i <= |s| - 2 && DigitsAt(s, i, i + 2)
  {
    10 * DigitValue(s[i]) + DigitValue(s[i + 1])
  }

  lemma Num2Pad(s: string, i: int)
    requires 0 <= i <= |s| - 2 && DigitsAt(s, i, i + 2)
    ensures 0 <= Num2(s, i) < 100 && Pad2(Num2(s, i)) == s[i..i + 2]
  {
    var d1, d0 := DigitValue(s[i]), DigitValue(s[i + 1]);
    DigitRoundTrip(s[i]);
    DigitRoundTrip(s[i + 1]);
    JoinTwo(d1, d0);
    assert Pad2(10 * d1 + d0) == [s[i], s[i + 1]];
  }

  lemma PadNum2(n: int)
    requires 0 <= n < 100
    ensures DigitsAt(Pad2(n), 0, 2) && Num2(Pad2(n), 0) == n
  {
    SplitTwo(n);
  }

  /** The shape `LocalDate.parse` accepts before it checks the calendar. */
  predicate IsoShaped(s: string) {
    |s| == 10 && s[4] == '-' && s[7] == '-' && DigitsAt(s, 0, 4) && DigitsAt(s, 5, 7) && DigitsAt(s, 8, 10)
  }

  function Fields(s: string): Date
    requires IsoShaped(s)
  {
    Date(100 * Num2(s, 0) + Num2(s, 2), Num2(s, 5), Num2(s, 8))
  }

  lemma FieldsFormat(s: string)
    requires IsoShaped(s) && Valid(Fields(s))
    ensures Format(Fields(s)) == s
  {
    var date := Fields(s);
    var hi, lo := Num2(s, 0), Num2(s, 2);
    Num2Pad(s, 0);
    Num2Pad(s, 2);
    Num2Pad(s, 5);
    Num2Pad(s, 8);
    JoinHundreds(hi, lo);
    assert date.year / 100 == hi && date.year % 100 == lo;
    Pad4Halves(date.year);
    assert Format(date) == Pad2(hi) + Pad2(lo) + "-" + Pad2(date.month) + "-" + Pad2(date.day);
    IsoPieces(s);
  }

  lemma IsoPieces(s: string)
    requires |s| == 10 && s[4] == '-' && s[7] == '-'
    ensures s == s[0..2] + s[2..4] + "-" + s[5..7] + "-" + s[8..10]
  {
  }

  /** `LocalDate.parse(s)`: exactly `YYYY-MM-DD` naming an existing day, or a
      parse failure (`None`). */
  function Parse(s: string): (r: Option<Date>)
    ensures r.Some? ==> Valid(r.value) && Format(r.value) == s
  {
    if IsoShaped(s) && Valid(Fields(s)) then
      FieldsFormat(s);
      Some(Fields(s))
    else None
  }

  /** Formatting then parsing gives the date back, which is what makes the
      stored text and the `data.json` dates round-trip. */
  lemma ParseFormat(d: Date)
    requires Valid(d)
    ensures Parse(Format(d)) == Some(d)
  {
    var s := Format(d);
    FormatParts(d);
    Num2Of(s, 0, d.year / 100);
    Num2Of(s, 2, d.year % 100);
    Num2Of(s, 5, d.month);
    Num2Of(s, 8, d.day);
    DigitsAtJoin(s, 0, 2, 4);
    assert IsoShaped(s);
    assert Fields(s) == d;
  }

  /** Where each field sits in the formatted text. */
  lemma FormatParts(d: Date)
    requires Valid(d)
    ensures 0 <= d.year / 100 < 100 && 0 <= d.year % 100 < 100
    ensures d.year == 100 * (d.year / 100) + d.year % 100
    ensures Format(d)[0..2] == Pad2(d.year / 100) && Format(d)[2..4] == Pad2(d.year % 100)
    ensures Format(d)[4] == '-' && Format(d)[7] == '-'
    ensures Format(d)[5..7] == Pad2(d.month) && Format(d)[8..10] == Pad2(d.day)
  {
    Pad4Halves(d.year);
    var hi, lo := Pad2(d.year / 100), Pad2(d.year % 100);
    var s := Format(d);
    assert s == hi + lo + "-" + Pad2(d.month) + "-" + Pad2(d.day);
  }

  /** Two digits of the text that spell `Pad2(n)` read back as `n`. */
  lemma Num2Of(s: string, i: int, n: int)
    requires 0 <= i <= |s| - 2 && 0 <= n < 100 && s[i..i + 2] == Pad2(n)
    ensures DigitsAt(s, i, i + 2) && Num2(s, i) == n
  {
    PadNum2(n);
    assert s[i] == Pad2(n)[0] && s[i + 1] == Pad2(n)[1];
  }

  lemma DigitsAtJoin(s: string, lo: int, mid: int, hi: int)
    requires 0 <= lo <= mid <= hi <= |s| && DigitsAt(s, lo, mid) && DigitsAt(s, mid, hi)
    ensures DigitsAt(s, lo, hi)
  {
  }

  // ---------------------------------------------------------------------
  // Day numbers

  /** Leap years among 0, 1, ..., y - 1. */
  function LeapsBefore(y: nat): nat {
    (y + 3) / 4 - (y + 99) / 100 + (y + 399) / 400
  }

  function DaysBeforeYear(y: nat): nat {
    365 * y + LeapsBefore(y)
  }

  function DaysBeforeMonth(y: int, m: int): int
    requires 1 <= m <= 12
  {
    [0, 31, 59, 90, 120, 151, 181, 212, 243, 273, 304, 334][m - 1] + (if m > 2 && IsLeapYear(y) then 1 else 0)
  }

  /** Days from 0000-01-01 to `d`. */
  function DayNumber(d: Date): int
    requires Valid(d)
  {
    DaysBeforeYear(d.year) + DaysBeforeMonth(d.year, d.month) + d.day - 1
  }

  /** `LocalDate.toEpochDay()`: days from 1970-01-01. */
  function EpochDay(d: Date): (n: int)
    requires Valid(d)
    ensures d == Date(1970, 1, 1) ==> n == 0
  {
    DayNumber(d) - 719528
  }

  /** `ChronoUnit.DAYS.between(from, to)`. */
  function DaysBetween(from: Date, to: Date): int
    requires Valid(from) && Valid(to)
  {
    EpochDay(to) - EpochDay(from)
  }

  lemma YearStep(y: nat)
    ensures DaysBeforeYear(y + 1) == DaysBeforeYear(y) + YearLength(y)
  {
    Step4(y);
    Step100(y);
    Step400(y);
    DivisorChain(y);
    assert LeapsBefore(y + 1) - LeapsBefore(y) == (if IsLeapYear(y) then 1 else 0);
  }

  lemma DivisorChain(y: nat)
    ensures y % 400 == 0 ==> y % 100 == 0
    ensures y % 100 == 0 ==> y % 4 == 0
  {
    if y % 400 == 0 {
      assert y == 100 * (4 * (y / 400));
    }
    if y % 100 == 0 {
      assert y == 4 * (25 * (y / 100));
    }
  }

  lemma Step4(y: nat)
    ensures (y + 4) / 4 - (y + 3) / 4 == (if y % 4 == 0 then 1 else 0)
  {
  }

  lemma Step100(y: nat)
    ensures (y + 100) / 100 - (y + 99) / 100 == (if y % 100 == 0 then 1 else 0)
  {
  }

  lemma Step400(y: nat)
    ensures (y + 400) / 400 - (y + 399) / 400 == (if y % 400 == 0 then 1 else 0)
  {
  }

  lemma {:induction false} YearsGrow(y1: nat, y2: nat)
    requires y1 <= y2
    ensures DaysBeforeYear(y1) + 365 * (y2 - y1) <= DaysBeforeYear(y2)
    decreases y2 - y1
  {
    if y1 < y2 {
      YearStep(y1);
      YearsGrow(y1 + 1, y2);
    }
  }

  lemma MonthStep(y: int, m: int)
    requires 1 <= m <= 12
    ensures m < 12 ==> DaysBeforeMonth(y, m + 1) == DaysBeforeMonth(y, m) + DaysInMonth(y, m)
    ensures m == 12 ==> DaysBeforeMonth(y, m) + DaysInMonth(y, m) == YearLength(y)
  {
  }

  lemma MonthsGrow(y: int, m1: int, m2: int)
    requires 1 <= m1 < m2 <= 12
    ensures DaysBeforeMonth(y, m1) + DaysInMonth(y, m1) <= DaysBeforeMonth(y, m2)
  {
  }

  /** A valid date's day number lies inside its year. */
  lemma DayInYear(d: Date)
    requires Valid(d)
    ensures DaysBeforeYear(d.year) <= DayNumber(d) < DaysBeforeYear(d.year + 1)
  {
    YearStep(d.year);
    MonthStep(d.year, d.month);
    if d.month < 12 {
      MonthsGrow(d.year, d.month, 12);
      MonthStep(d.year, 12);
    }
  }

  /** Day numbers follow the calendar: an earlier date has a smaller number. */
  lemma DayNumberMonotone(a: Date, b: Date)
    requires Valid(a) && Valid(b) && Before(a, b)
    ensures DayNumber(a) < DayNumber(b)
  {
    if a.year < b.year {
      DayInYear(a);
      DayInYear(b);
      YearsGrow(a.year + 1, b.year);
    } else if a.month < b.month {
      MonthsGrow(a.year, a.month, b.month);
    }
  }

  /** Two valid dates are equal, or one is before the other. */
  lemma Trichotomy(a: Date, b: Date)
    ensures a == b || Before(a, b) || Before(b, a)
  {
  }

  /** Day numbers identify dates. */
  lemma DayNumberInjective(a: Date, b: Date)
    requires Valid(a) && Valid(b) && DayNumber(a) == DayNumber(b)
    ensures a == b
  {
    if Before(a, b) {
      DayNumberMonotone(a, b);
    } else if Before(b, a) {
      DayNumberMonotone(b, a);
    }
  }

  /** The count of days between two dates is positive exactly when the first
      comes first, zero exactly on the same day, and antisymmetric. */
  lemma DaysBetweenSign(from: Date, to: Date)
    requires Valid(from) && Valid(to)
    ensures DaysBetween(from, to) > 0 <==> Before(from, to)
    ensures DaysBetween(from, to) == 0 <==> from == to
    ensures DaysBetween(from, to) < 0 <==> Before(to, from)
    ensures DaysBetween(to, from) == -DaysBetween(from, to)
  {
    if Before(from, to) {
      DayNumberMonotone(from, to);
    } else if Before(to, from) {
      DayNumberMonotone(to, from);
    }
  }

  /** The calendar day after `d`, as `d.plusDays(1)`. */
  function NextDay(d: Date): (r: Date)
    requires Valid(d) && d != Date(9999, 12, 31)
    ensures Valid(r) && Before(d, r)
  {
    if d.day < DaysInMonth(d.year, d.month) then Date(d.year, d.month, d.day + 1)
    else if d.month < 12 then Date(d.year, d.month + 1, 1)
    else Date(d.year + 1, 1, 1)
  }

  /** Each calendar day adds exactly one to the day count, so a day counter
      shown against "today" grows by one per day. */
  lemma NextDayCounts(d: Date)
    requires Valid(d) && d != Date(9999, 12, 31)
    ensures DayNumber(NextDay(d)) == DayNumber(d) + 1
  {
    MonthStep(d.year, d.month);
    if d.day == DaysInMonth(d.year, d.month) && d.month == 12 {
      YearStep(d.year);
    }
  }

  // ---------------------------------------------------------------------
  // Text order

  /** Binary (code-point) comparison of two strings, as SQLite's default
      collation compares TEXT values. */
  predicate LexLess(s: string, t: string)
    decreases |s|
  {
    if |s| == 0 then |t| > 0
    else |t| > 0 && (s[0] < t[0] || (s[0] == t[0] && LexLess(s[1..], t[1..])))
  }

  lemma {:induction false} LexLessConcat(x: string, y: string, s: string, t: string)
    requires |x| == |y|
    ensures LexLess(x + s, y + t) <==> LexLess(x, y) || (x == y && LexLess(s, t))
    decreases |x|
  {
    if |x| > 0 {
      assert (x + s)[0] == x[0] && (y + t)[0] == y[0];
      assert (x + s)[1..] == x[1..] + s;
      assert (y + t)[1..] == y[1..] + t;
      LexLessConcat(x[1..], y[1..], s, t);
      if x[0] == y[0] && x[1..] == y[1..] {
        assert x == [x[0]] + x[1..] && y == [y[0]] + y[1..];
      }
      if x == y {
        assert x[1..] == y[1..];
      }
    } else {
      assert x + s == s && y + t == t;
    }
  }

  lemma Pad2Order(a: int, b: int)
    requires 0 <= a < 100 && 0 <= b < 100
    ensures LexLess(Pad2(a), Pad2(b)) <==> a < b
    ensures Pad2(a) == Pad2(b) <==> a == b
  {
    var s, t := Pad2(a), Pad2(b);
    LexLessConcat(s[..1], t[..1], s[1..], t[1..]);
    assert s == s[..1] + s[1..] && t == t[..1] + t[1..];
    assert LexLess(s[1..], t[1..]) <==> s[1] < t[1];
    assert LexLess(s[..1], t[..1]) <==> s[0] < t[0];
  }

  lemma Pad4Order(a: int, b: int)
    requires 0 <= a < 10000 && 0 <= b < 10000
    ensures LexLess(Pad4(a), Pad4(b)) <==> a < b
    ensures Pad4(a) == Pad4(b) <==> a == b
  {
    Pad4Halves(a);
    Pad4Halves(b);
    Pad2Order(a / 100, b / 100);
    Pad2Order(a % 100, b % 100);
    LexLessConcat(Pad2(a / 100), Pad2(b / 100), Pad2(a % 100), Pad2(b % 100));
    if Pad4(a) == Pad4(b) {
      assert Pad2(a / 100) == Pad4(a)[..2] && Pad2(b / 100) == Pad4(b)[..2];
      assert Pad2(a % 100) == Pad4(a)[2..] && Pad2(b % 100) == Pad4(b)[2..];
    }
  }

  /** For four-digit years the ISO text sorts exactly as the dates do, so a
      query ordering the stored text orders the records chronologically. */
  lemma TextOrderIsChronological(a: Date, b: Date)
    requires Valid(a) && Valid(b)
    ensures LexLess(Format(a), Format(b)) <==> Before(a, b)
    ensures Format(a) == Format(b) <==> a == b
  {
    Pad4Order(a.year, b.year);
    LexLessConcat(Pad4(a.year), Pad4(b.year), MonthDay(a), MonthDay(b));
    MonthDayOrder(a, b);
    ParseFormat(a);
    ParseFormat(b);
  }

  /** The text after the year: `-MM-DD`. */
  function MonthDay(d: Date): (s: string)
    requires Valid(d)
    ensures Format(d) == Pad4(d.year) + s
  {
    "-" + (Pad2(d.month) + ("-" + Pad2(d.day)))
  }

  lemma MonthDayOrder(a: Date, b: Date)
    requires Valid(a) && Valid(b)
    ensures LexLess(MonthDay(a), MonthDay(b)) <==> a.month < b.month || (a.month == b.month && a.day < b.day)
  {
    Pad2Order(a.month, b.month);
    Pad2Order(a.day, b.day);
    var qa, qb := Pad2(a.month) + ("-" + Pad2(a.day)), Pad2(b.month) + ("-" + Pad2(b.day));
    LexLessConcat("-", "-", qa, qb);
    LexLessConcat(Pad2(a.month), Pad2(b.month), "-" + Pad2(a.day), "-" + Pad2(b.day));
    LexLessConcat("-", "-", Pad2(a.day), Pad2(b.day));
  }
}
