/** The part of a proleptic Gregorian calendar date that the signup core uses:
    a date value, the day after it, and its day of the week. Years are limited
    to 0..9999, the range in which `%Y` prints exactly four digits. */
module Calendar {

  datatype Weekday = Mon | Tue | Wed | Thu | Fri | Sat | Sun

  /** Position of a weekday in the week, Monday first (chrono's numbering). */
  function WeekdayIndex(w: Weekday): (i: nat)
    ensures i < 7
  {
    match w
    case Mon => 0
    case Tue => 1
    case Wed => 2
    case Thu => 3
    case Fri => 4
    case Sat => 5
    case Sun => 6
  }

  function WeekdayAt(i: nat): (w: Weekday)
    requires i < 7
    ensures WeekdayIndex(w) == i
  {
    if i == 0 then Mon
    else if i == 1 then Tue
    else if i == 2 then Wed
    else if i == 3 then Thu
    else if i == 4 then Fri
    else if i == 5 then Sat
    else Sun
  }

  /** Number of days from weekday `from` forward to the next `to` (0 when equal). */
  function DaysUntil(from: Weekday, to: Weekday): (n: nat)
    ensures n < 7
    ensures n == 0 <==> from == to
  {
    (WeekdayIndex(to) - WeekdayIndex(from)) % 7
  }

  /** `DaysUntil` without the remainder: forward within the week, or wrapping past Sunday. */
  lemma DaysUntilForward(from: Weekday, to: Weekday)
    ensures DaysUntil(from, to) ==
      if WeekdayIndex(from) <= WeekdayIndex(to) then WeekdayIndex(to) - WeekdayIndex(from)
      else WeekdayIndex(to) - WeekdayIndex(from) + 7
  {
  }

  datatype Date = Date(year: int, month: int, day: int)

  const MinYear: int := 0
  const MaxYear: int := 9999

  predicate IsLeapYear(y: int) {
    y % 4 == 0 && (y % 100 != 0 || y % 400 == 0)
  }

  function DaysInMonth(y: int, m: int): (n: int)
    requires 1 <= m <= 12
    ensures 28 <= n <= 31
  {
    if m == 2 then (if IsLeapYear(y) then 29 else 28)
    else if m == 4 || m == 6 || m == 9 || m == 11 then 30
    else 31
  }

  predicate Valid(d: Date) {
    MinYear <= d.year <= MaxYear && 1 <= d.month <= 12 && 1 <= d.day <= DaysInMonth(d.year, d.month)
  }

  /** Days in the years 0 .. y-1: 365 per year plus one per leap year
      (years divisible by 4, except centuries not divisible by 400). */
  function DaysBeforeYear(y: nat): int {
    365 * y + (y + 3) / 4 - (y + 99) / 100 + (y + 399) / 400
  }

  /** Days in the months 1 .. m-1 of year y. */
  function DaysBeforeMonth(y: int, m: int): int
    requires 1 <= m <= 12
  {
    var common :=
      if m == 1 then 0 else if m == 2 then 31 else if m == 3 then 59
      else if m == 4 then 90 else if m == 5 then 120 else if m == 6 then 151
      else if m == 7 then 181 else if m == 8 then 212 else if m == 9 then 243
      else if m == 10 then 273 else if m == 11 then 304 else 334;
    if m > 2 && IsLeapYear(y) then common + 1 else common
  }

  /** Days elapsed since 0000-01-01. */
  function DayNumber(d: Date): int
    requires Valid(d)
  {
    DaysBeforeYear(d.year) + DaysBeforeMonth(d.year, d.month) + d.day - 1
  }

  const LastDate: Date := Date(MaxYear, 12, 31)

  /** A date numbered below the last date is not the last date. */
  lemma BeforeLastDate(d: Date)
    requires Valid(d) && DayNumber(d) < DayNumber(LastDate)
    ensures d != LastDate
  {
  }

  /** The day after `d` (chrono's `succ_opt`), defined below the last modelled date. */
  function Succ(d: Date): (r: Date)
    requires Valid(d) && d != LastDate
    ensures Valid(r)
    ensures DayNumber(r) == DayNumber(d) + 1
  {
    if d.day < DaysInMonth(d.year, d.month) then
      Date(d.year, d.month, d.day + 1)
    else if d.month < 12 then
      assert DaysBeforeMonth(d.year, d.month + 1) == DaysBeforeMonth(d.year, d.month) + DaysInMonth(d.year, d.month);
      Date(d.year, d.month + 1, 1)
    else
      YearLength(d.year);
      Date(d.year + 1, 1, 1)
  }

  lemma YearLength(y: nat)
    ensures DaysBeforeYear(y + 1) == DaysBeforeYear(y) + (if IsLeapYear(y) then 366 else 365)
  {
    CeilStep4(y);
    CeilStep100(y);
    CeilStep400(y);
    DivisorChain(y);
    assert DaysBeforeYear(y + 1)
        == 365 * (y + 1) + ((y + 1) + 3) / 4 - ((y + 1) + 99) / 100 + ((y + 1) + 399) / 400;
  }

  /** A year divisible by 400 is divisible by 100, and one divisible by 100 by 4. */
  lemma DivisorChain(y: nat)
    ensures y % 400 == 0 ==> y % 100 == 0
    ensures y % 100 == 0 ==> y % 4 == 0
  {
    if y % 400 == 0 {
      var q := y / 400;
      assert y == 100 * (4 * q);
    }
    if y % 100 == 0 {
      var q := y / 100;
      assert y == 4 * (25 * q);
    }
  }

  /** Going from y to y+1 adds one to the count of multiples of k below y
      exactly when k divides y (for k = 4, 100, 400). */
  lemma CeilStep4(y: nat)
    ensures ((y + 1) + 3) / 4 == (y + 3) / 4 + (if y % 4 == 0 then 1 else 0)
  {
    var q, r := y / 4, y % 4;
    assert y == 4 * q + r;
    if r == 0 {
      assert ((y + 1) + 3) / 4 == q + 1 && (y + 3) / 4 == q;
    } else {
      assert ((y + 1) + 3) / 4 == q + 1 && (y + 3) / 4 == q + 1;
    }
  }

  lemma CeilStep100(y: nat)
    ensures ((y + 1) + 99) / 100 == (y + 99) / 100 + (if y % 100 == 0 then 1 else 0)
  {
    var q, r := y / 100, y % 100;
    assert y == 100 * q + r;
    if r == 0 {
      assert ((y + 1) + 99) / 100 == q + 1 && (y + 99) / 100 == q;
    } else {
      assert ((y + 1) + 99) / 100 == q + 1 && (y + 99) / 100 == q + 1;
    }
  }

  lemma CeilStep400(y: nat)
    ensures ((y + 1) + 399) / 400 == (y + 399) / 400 + (if y % 400 == 0 then 1 else 0)
  {
    var q, r := y / 400, y % 400;
    assert y == 400 * q + r;
    if r == 0 {
      assert ((y + 1) + 399) / 400 == q + 1 && (y + 399) / 400 == q;
    } else {
      assert ((y + 1) + 399) / 400 == q + 1 && (y + 399) / 400 == q + 1;
    }
  }

  /** The day of the week; 0000-01-01 (day number 0) was a Saturday. */
  function WeekdayOf(d: Date): Weekday
    requires Valid(d)
  {
    WeekdayAt((DayNumber(d) + 5) % 7)
  }

  /** The weekday depends on the day number alone. */
  lemma SameDayNumberSameWeekday(a: Date, b: Date)
    requires Valid(a) && Valid(b) && DayNumber(a) == DayNumber(b)
    ensures WeekdayOf(a) == WeekdayOf(b)
  {
  }

  /** Each day after `d` is one weekday further on. */
  lemma WeekdayOfSucc(d: Date)
    requires Valid(d) && d != LastDate
    ensures WeekdayIndex(WeekdayOf(Succ(d))) == (WeekdayIndex(WeekdayOf(d)) + 1) % 7
  {
    var n := DayNumber(d);
    assert DayNumber(Succ(d)) + 5 == (n + 5) + 1;
    ModSeven(n + 5);
  }

  lemma ModSeven(n: int)
    ensures (n + 1) % 7 == (n % 7 + 1) % 7
  {
  }

  /** Anchors of the day-numbering against well-known dates. */
  lemma KnownWeekdays()
    ensures WeekdayOf(Date(1970, 1, 1)) == Thu
    ensures WeekdayOf(Date(2000, 2, 29)) == Tue
    ensures WeekdayOf(Date(2024, 3, 15)) == Fri
    ensures WeekdayOf(LastDate) == Fri
  {
    assert DaysBeforeYear(1970) == 719528;
    assert DayNumber(Date(1970, 1, 1)) == 719528;
    assert (719528 + 5) % 7 == 3;
    assert DaysBeforeYear(2000) == 730485;
    assert DayNumber(Date(2000, 2, 29)) == 730544;
    assert (730544 + 5) % 7 == 1;
    assert DaysBeforeYear(2024) == 739251;
    assert DayNumber(Date(2024, 3, 15)) == 739325;
    assert (739325 + 5) % 7 == 4;
    assert DaysBeforeYear(9999) == 3652060;
    assert DayNumber(LastDate) == 3652424;
    assert (3652424 + 5) % 7 == 4;
  }
}
