/** Time values and civil dates: sections 21.4.1.3 to 21.4.1.14 of ECMA-262, and the proof that they correspond one to one. */
module CivilDate {
  const MS_PER_DAY: int := 86400000

  predicate IsLeap(y: int) {
    y % 4 == 0 && (y % 100 != 0 || y % 400 == 0)
  }

  function DaysInYear(y: int): int {
    if IsLeap(y) then 366 else 365
  }

  /** The number of the first day of year y, counted from 1 January 1970. */
  function DayFromYear(y: int): int {
    365 * (y - 1970) + (y - 1969) / 4 - (y - 1901) / 100 + (y - 1601) / 400
  }

  function MonthLength(y: int, month: int): int
    requires 1 <= month <= 12
  {
    if month == 2 then (if IsLeap(y) then 29 else 28)
    else if month == 4 || month == 6 || month == 9 || month == 11 then 30 else 31
  }

  /** Days of year y before the given month; month 13 stands for the end of the year. */
  function DaysBefore(y: int, month: int): int
    requires 1 <= month <= 13
    decreases month
  {
    if month == 1 then 0 else DaysBefore(y, month - 1) + MonthLength(y, month - 1)
  }

  datatype Date = Date(year: int, month: int, day: int)

  predicate IsDate(d: Date) {
    1 <= d.month <= 12 && 1 <= d.day <= MonthLength(d.year, d.month)
  }

  function DayNumber(d: Date): int
    requires IsDate(d)
  {
    DayFromYear(d.year) + DaysBefore(d.year, d.month) + d.day - 1
  }

  /** The latest year from `from` on that has begun by day n. */
  function YearFrom(n: int, from: int): (y: int)
    requires DayFromYear(from) <= n
    ensures DayFromYear(y) <= n < DayFromYear(y + 1)
    decreases n - DayFromYear(from)
  {
    YearStep(from);
    if DayFromYear(from + 1) <= n then YearFrom(n, from + 1) else from
  }

  /** A year that has surely begun by day n: no year has more than 366 days or fewer than 365. */
  function EarlyYear(n: int): int {
    if n >= 0 then 1970 + n / 366 else 1970 + n / 365
  }

  function YearFromDay(n: int): (y: int)
    ensures DayFromYear(y) <= n < DayFromYear(y + 1)
  {
    EarlyYearHasBegun(n);
    YearFrom(n, EarlyYear(n))
  }

  /** The month of year y that contains the day with this offset in the year. */
  function MonthFrom(y: int, offset: int, from: int): (month: int)
    requires 1 <= from <= 12 && DaysBefore(y, from) <= offset < DaysInYear(y)
    ensures 1 <= month <= 12 && DaysBefore(y, month) <= offset < DaysBefore(y, month + 1)
    decreases 12 - from
  {
    YearHasAllMonths(y);
    if from < 12 && DaysBefore(y, from + 1) <= offset then MonthFrom(y, offset, from + 1) else from
  }

  function DateFromDay(n: int): (d: Date)
    ensures IsDate(d) && DayNumber(d) == n
  {
    var y := YearFromDay(n);
    YearStep(y);
    var offset := n - DayFromYear(y);
    var month := MonthFrom(y, offset, 1);
    Date(y, month, offset - DaysBefore(y, month) + 1)
  }

  lemma YearStep(y: int)
    ensures DayFromYear(y + 1) == DayFromYear(y) + DaysInYear(y)
  {
    QuotientStep(y - 1969, 4);
    QuotientStep(y - 1901, 100);
    QuotientStep(y - 1601, 400);
    Multiples(y);
    hide *;
    LeapStep(y, (y - 1969) / 4, (y - 1901) / 100, (y - 1601) / 400);
  }

  /** The quotients of a year go up by one just when the year is a multiple. */
  lemma LeapStep(y: int, fours: int, hundreds: int, all: int)
    requires fours == (y - 1969) / 4 && hundreds == (y - 1901) / 100 && all == (y - 1601) / 400
    requires (y - 1968) / 4 == fours + if y % 4 == 0 then 1 else 0
    requires (y - 1900) / 100 == hundreds + if y % 100 == 0 then 1 else 0
    requires (y - 1600) / 400 == all + if y % 400 == 0 then 1 else 0
    requires (y % 400 == 0 ==> y % 100 == 0) && (y % 100 == 0 ==> y % 4 == 0)
    ensures DayFromYear(y + 1) == DayFromYear(y) + DaysInYear(y)
  {}

  lemma Multiples(y: int)
    ensures (y - 1968) % 4 == 0 <==> y % 4 == 0
    ensures (y - 1900) % 100 == 0 <==> y % 100 == 0
    ensures (y - 1600) % 400 == 0 <==> y % 400 == 0
    ensures (y % 400 == 0 ==> y % 100 == 0) && (y % 100 == 0 ==> y % 4 == 0)
  {
    RemainderBy4(y - 1968, y / 4 - 492, y % 4);
    RemainderBy100(y - 1900, y / 100 - 19, y % 100);
    RemainderBy400(y - 1600, y / 400 - 4, y % 400);
    if y % 400 == 0 {
      RemainderBy100(y, 4 * (y / 400), 0);
    }
    if y % 100 == 0 {
      RemainderBy4(y, 25 * (y / 100), 0);
    }
  }

  lemma RemainderBy4(a: int, q: int, r: int)
    requires 0 <= r < 4 && a == 4 * q + r
    ensures a % 4 == r
  {}

  lemma RemainderBy100(a: int, q: int, r: int)
    requires 0 <= r < 100 && a == 100 * q + r
    ensures a % 100 == r
  {}

  lemma RemainderBy400(a: int, q: int, r: int)
    requires 0 <= r < 400 && a == 400 * q + r
    ensures a % 400 == r
  {}

  /** A quotient goes up by one exactly when the next dividend is a multiple. */
  lemma QuotientStep(a: int, k: int)
    requires k == 4 || k == 100 || k == 400
    ensures (a + 1) / k == a / k + if (a + 1) % k == 0 then 1 else 0
  {}

  lemma EarlyYearHasBegun(n: int)
    ensures DayFromYear(EarlyYear(n)) <= n
  {}

  lemma YearHasAllMonths(y: int)
    ensures DaysBefore(y, 13) == DaysInYear(y)
  {}

  lemma LaterYearsStartLater(a: int, b: int)
    requires a < b
    ensures DayFromYear(a + 1) <= DayFromYear(b)
    decreases b - a
  {}

  lemma {:induction false} LaterMonthsStartLater(y: int, a: int, b: int)
    requires 1 <= a < b <= 13
    ensures DaysBefore(y, a + 1) <= DaysBefore(y, b)
    decreases b
  {
    if a + 1 < b {
      LaterMonthsStartLater(y, a, b - 1);
    }
  }

  lemma DateIsInItsYear(d: Date)
    requires IsDate(d)
    ensures DayFromYear(d.year) <= DayNumber(d) < DayFromYear(d.year + 1)
  {
    if d.month > 1 {
      LaterMonthsStartLater(d.year, 1, d.month);
    }
    if d.month < 12 {
      LaterMonthsStartLater(d.year, d.month, 13);
    }
    YearHasAllMonths(d.year);
    YearStep(d.year);
    assert DaysBefore(d.year, 2) == 31;
  }

  lemma YearsAgree(a: Date, b: Date)
    requires IsDate(a) && IsDate(b) && DayNumber(a) == DayNumber(b)
    ensures a.year <= b.year
  {
    DateIsInItsYear(a);
    DateIsInItsYear(b);
    hide *;
    if b.year < a.year {
      LaterYearsStartLater(b.year, a.year);
      assert false;
    }
  }

  /** Two dates as month and day within the same year. */
  lemma MonthsAgree(y: int, month: int, day: int, otherMonth: int, otherDay: int)
    requires 1 <= month <= 12 && 1 <= otherMonth <= 12
    requires 1 <= day && 1 <= otherDay <= MonthLength(y, otherMonth)
    requires DaysBefore(y, month) + day == DaysBefore(y, otherMonth) + otherDay
    ensures month <= otherMonth
  {
    hide MonthLength;
    if otherMonth < month {
      LaterMonthsStartLater(y, otherMonth, month);
    }
  }

  /** Days and civil dates correspond one to one. */
  lemma DatesAreDays(a: Date, b: Date)
    requires IsDate(a) && IsDate(b) && DayNumber(a) == DayNumber(b)
    ensures a == b
  {
    hide DayFromYear, DaysBefore, MonthLength;
    YearsAgree(a, b);
    YearsAgree(b, a);
    MonthsAgree(a.year, a.month, a.day, b.month, b.day);
    MonthsAgree(a.year, b.month, b.day, a.month, a.day);
  }
}
