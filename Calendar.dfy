/** Proleptic Gregorian civil dates, a day count from 1970-01-01, and the
    ECMAScript `MakeDay` normalisation through which JavaScript's
    `new Date(y, m, d)`, `setDate` and `setMonth` turn out-of-range fields
    into a real date. */
module Calendar {

  /** A civil date; `month` is 1-based (January is 1), unlike JavaScript's `getMonth()`. */
  datatype Date = Date(year: int, month: int, day: int)

  predicate IsLeapYear(year: int) {
    (year % 4 == 0 && year % 100 != 0) || year % 400 == 0
  }

  /** Number of days in a month; 0 for a month number outside 1..12. */
  function DaysInMonth(year: int, month: int): (n: nat)
    ensures 1 <= month <= 12 ==> 28 <= n <= 31
    ensures !(1 <= month <= 12) ==> n == 0
    ensures month == 2 ==> (n == 29 <==> IsLeapYear(year))
  {
    if month == 2 then (if IsLeapYear(year) then 29 else 28)
    else if month == 4 || month == 6 || month == 9 || month == 11 then 30
    else if 1 <= month <= 12 then 31
    else 0
  }

  predicate ValidDate(d: Date) {
    1 <= d.month <= 12 && 1 <= d.day <= DaysInMonth(d.year, d.month)
  }

  function DaysInYear(year: int): nat {
    if IsLeapYear(year) then 366 else 365
  }

  /** Days from 0001-01-01 to 1 January of `year`, shifted by a constant. */
  function YearBase(year: int): int {
    365 * year + (year - 1) / 4 - (year - 1) / 100 + (year - 1) / 400
  }

  /** Days from 1970-01-01 to 1 January of `year` (negative before 1970). */
  function DaysBeforeYear(year: int): int {
    YearBase(year) - YearBase(1970)
  }

  /** Days from 1 January to the first of `month` (13 stands for the next 1 January). */
  function DaysBeforeMonth(year: int, month: int): nat
    requires 1 <= month <= 13
  {
    [0, 31, 59, 90, 120, 151, 181, 212, 243, 273, 304, 334, 365][month - 1]
      + (if month > 2 && IsLeapYear(year) then 1 else 0)
  }

  /** Days from 1970-01-01 to `d`: the day part of an ECMAScript time value. */
  function DayNumber(d: Date): int
    requires 1 <= d.month <= 12
  {
    DaysBeforeYear(d.year) + DaysBeforeMonth(d.year, d.month) + d.day - 1
  }

  /** Day of the week, 0 for Sunday through 6 for Saturday (1970-01-01 was a Thursday). */
  function Weekday(d: Date): (w: nat)
    requires 1 <= d.month <= 12
    ensures w < 7
  {
    (DayNumber(d) + 4) % 7
  }

  /** Lexicographic order on (year, month, day). */
  predicate Precedes(a: Date, b: Date) {
    a.year < b.year
    || (a.year == b.year && a.month < b.month)
    || (a.year == b.year && a.month == b.month && a.day < b.day)
  }

  lemma DaysBeforeMonthStep(year: int, month: int)
    requires 1 <= month <= 12
    ensures DaysBeforeMonth(year, month + 1) == DaysBeforeMonth(year, month) + DaysInMonth(year, month)
    ensures DaysBeforeMonth(year, 13) == DaysInYear(year)
  {
  }

  lemma DaysBeforeMonthMonotone(year: int, m1: int, m2: int)
    requires 1 <= m1 <= m2 <= 13
    ensures DaysBeforeMonth(year, m1) <= DaysBeforeMonth(year, m2)
  {
  }

  lemma DaysBeforeNextYear(year: int)
    ensures DaysBeforeYear(year + 1) == DaysBeforeYear(year) + DaysInYear(year)
  {
    assert year / 4 - (year - 1) / 4 == if year % 4 == 0 then 1 else 0;
    assert year / 100 - (year - 1) / 100 == if year % 100 == 0 then 1 else 0;
    assert year / 400 - (year - 1) / 400 == if year % 400 == 0 then 1 else 0;
  }

  lemma {:induction false} DaysBeforeYearMonotone(a: int, b: int)
    requires a <= b
    ensures DaysBeforeYear(a) <= DaysBeforeYear(b)
    decreases b - a
  {
    if a < b {
      DaysBeforeYearMonotone(a, b - 1);
      DaysBeforeNextYear(b - 1);
    }
  }

  /** A valid date's day number lies within its own year. */
  lemma DayNumberWithinYear(d: Date)
    requires ValidDate(d)
    ensures DaysBeforeYear(d.year) <= DayNumber(d) < DaysBeforeYear(d.year + 1)
  {
    DaysBeforeMonthStep(d.year, d.month);
    DaysBeforeMonthMonotone(d.year, d.month + 1, 13);
    DaysBeforeNextYear(d.year);
  }

  /** The day count is strictly increasing in calendar order. */
  lemma DayNumberMonotone(a: Date, b: Date)
    requires ValidDate(a) && ValidDate(b) && Precedes(a, b)
    ensures DayNumber(a) < DayNumber(b)
  {
    if a.year < b.year {
      DayNumberWithinYear(a);
      DayNumberWithinYear(b);
      DaysBeforeYearMonotone(a.year + 1, b.year);
    } else if a.month < b.month {
      DaysBeforeMonthStep(a.year, a.month);
      DaysBeforeMonthMonotone(a.year, a.month + 1, b.month);
    }
  }

  /** Calendar order and day-count order agree on valid dates. */
  lemma DayNumberOrder(a: Date, b: Date)
    requires ValidDate(a) && ValidDate(b)
    ensures DayNumber(a) < DayNumber(b) <==> Precedes(a, b)
    ensures DayNumber(a) == DayNumber(b) <==> a == b
  {
    if Precedes(a, b) {
      DayNumberMonotone(a, b);
    } else if Precedes(b, a) {
      DayNumberMonotone(b, a);
    }
  }

  /** The day after `d`. */
  function NextDay(d: Date): (r: Date)
    requires ValidDate(d)
    ensures ValidDate(r) && DayNumber(r) == DayNumber(d) + 1
  {
    if d.day < DaysInMonth(d.year, d.month) then Date(d.year, d.month, d.day + 1)
    else if d.month < 12 then
      DaysBeforeMonthStep(d.year, d.month);
      Date(d.year, d.month + 1, 1)
    else
      DaysBeforeNextYear(d.year);
      Date(d.year + 1, 1, 1)
  }

  /** The day before `d`. */
  function PrevDay(d: Date): (r: Date)
    requires ValidDate(d)
    ensures ValidDate(r) && DayNumber(r) == DayNumber(d) - 1
  {
    if d.day > 1 then Date(d.year, d.month, d.day - 1)
    else if d.month > 1 then
      DaysBeforeMonthStep(d.year, d.month - 1);
      Date(d.year, d.month - 1, DaysInMonth(d.year, d.month - 1))
    else
      DaysBeforeNextYear(d.year - 1);
      Date(d.year - 1, 12, 31)
  }

  /** The date `n` days after `d` (before it when `n` is negative). */
  function AddDays(d: Date, n: int): (r: Date)
    requires ValidDate(d)
    ensures ValidDate(r) && DayNumber(r) == DayNumber(d) + n
    decreases if n < 0 then -n else n
  {
    if n == 0 then d
    else if n > 0 then AddDays(NextDay(d), n - 1)
    else AddDays(PrevDay(d), n + 1)
  }

  /** ECMAScript MakeDay followed by conversion back to a civil date:
      `monthIndex` is 0-based and may lie outside 0..11 (it carries into the
      year), and `date` may lie outside the month (it carries into the
      neighbouring months). This is what `new Date(y, m, d)`, `setDate` and
      `setMonth` compute. */
  function MakeDay(year: int, monthIndex: int, date: int): (r: Date)
    ensures ValidDate(r)
    ensures DayNumber(r) == DayNumber(Date(year + monthIndex / 12, monthIndex % 12 + 1, 1)) + date - 1
  {
    AddDays(Date(year + monthIndex / 12, monthIndex % 12 + 1, 1), date - 1)
  }

  /** The year `new Date(year, monthIndex, date)` hands to MakeDay: the constructor reads
      a year from 0 to 99 as 1900 to 1999 (ECMA-262, section 21.4.2.1, the Date constructor).
      `setDate` and `setMonth` keep the year as it is. */
  function ConstructorYear(year: int): int {
    if 0 <= year <= 99 then 1900 + year else year
  }

  /** Months elapsed since January of year 0; `setMonth` works on this count. */
  function MonthIndex(d: Date): int {
    12 * d.year + d.month - 1
  }

  /** With an in-range day, MakeDay builds exactly the date it is given. */
  lemma MakeDayInRange(year: int, monthIndex: int, date: int)
    requires 0 <= monthIndex < 12 && 1 <= date <= DaysInMonth(year, monthIndex + 1)
    ensures MakeDay(year, monthIndex, date) == Date(year, monthIndex + 1, date)
  {
    assert monthIndex / 12 == 0 && monthIndex % 12 == monthIndex;
    assert DayNumber(MakeDay(year, monthIndex, date)) == DayNumber(Date(year, monthIndex + 1, date));
    DayNumberOrder(MakeDay(year, monthIndex, date), Date(year, monthIndex + 1, date));
  }

  /** Day 1 of any month index is the first of the month that index names. */
  lemma MakeDayFirst(year: int, monthIndex: int)
    ensures MakeDay(year, monthIndex, 1) == Date(year + monthIndex / 12, monthIndex % 12 + 1, 1)
    ensures MonthIndex(MakeDay(year, monthIndex, 1)) == 12 * year + monthIndex
  {
  }

  /** Day 0 of the following month (`new Date(y, m + 1, 0)`) is the last day of month `m`. */
  lemma {:induction false} MakeDayZeroIsLastDay(year: int, monthIndex: int)
    requires 0 <= monthIndex < 12
    ensures MakeDay(year, monthIndex + 1, 0) == Date(year, monthIndex + 1, DaysInMonth(year, monthIndex + 1))
  {
    var last := Date(year, monthIndex + 1, DaysInMonth(year, monthIndex + 1));
    var r := MakeDay(year, monthIndex + 1, 0);
    FirstOfNextMonth(year, monthIndex);
    assert DayNumber(r) == DayNumber(last);
    DayNumberOrder(r, last);
  }

  /** The first of the month after month `monthIndex` (0-based) is the day after its last day. */
  lemma FirstOfNextMonth(year: int, monthIndex: int)
    requires 0 <= monthIndex < 12
    ensures DayNumber(Date(year + (monthIndex + 1) / 12, (monthIndex + 1) % 12 + 1, 1))
         == DayNumber(Date(year, monthIndex + 1, DaysInMonth(year, monthIndex + 1))) + 1
  {
    DaysBeforeMonthStep(year, monthIndex + 1);
    if monthIndex == 11 {
      DaysBeforeNextYear(year);
    }
  }

  /** Adding `n` days and then `-n` days returns to the starting date. */
  lemma AddDaysRoundTrip(d: Date, n: int)
    requires ValidDate(d)
    ensures AddDays(AddDays(d, n), -n) == d
  {
    DayNumberOrder(AddDays(AddDays(d, n), -n), d);
  }
}
