/** The calendar view hook's state: the display granularity (month at first)
    and the reference date, which the previous/next buttons move by a week or
    by a month. Dates are handled as civil dates; `setDate` and `setMonth`
    carry out-of-range values into the neighbouring months and years. */
module UseCalendarView {
  import opened Calendar
  import opened Events

  datatype Direction = Prev | Next

  /** +1 for 'next', -1 for 'prev'. */
  function Step(direction: Direction): (s: int)
    ensures s == 1 || s == -1
    ensures s == 1 <==> direction == Next
  {
    if direction == Next then 1 else -1
  }

  /** Where navigation leads: the same weekday one week away, or the first of the
      adjacent month. */
  function Navigated(view: View, d: Date, direction: Direction): (r: Date)
    requires ValidDate(d)
    ensures ValidDate(r)
  {
    match view
    case Week => AddDays(d, 7 * Step(direction))
    case Month => MakeDay(d.year, d.month - 1 + Step(direction), 1)
  }

  class CalendarView {
    var view: View
    var currentDate: Date

    predicate Valid()
      reads this
    {
      ValidDate(currentDate)
    }

    /** The hook starts in month view on `today`. */
    constructor(today: Date)
      requires ValidDate(today)
      ensures Valid() && view == Month && currentDate == today
    {
      view := Month;
      currentDate := today;
    }

    method SetView(v: View)
      requires Valid()
      modifies this
      ensures Valid() && view == v && currentDate == old(currentDate)
    {
      view := v;
    }

    method SetCurrentDate(d: Date)
      requires ValidDate(d)
      modifies this
      ensures Valid() && currentDate == d && view == old(view)
    {
      currentDate := d;
    }

    /** Week view moves the day of the month by seven; month view first sets the day
        to 1 and then moves the month by one. */
    method Navigate(direction: Direction)
      requires Valid()
      modifies this
      ensures Valid() && view == old(view)
      ensures currentDate == Navigated(old(view), old(currentDate), direction)
    {
      var newDate := currentDate;
      if view == Week {
        WeekStep(newDate, direction);
        newDate := MakeDay(newDate.year, newDate.month - 1, newDate.day + 7 * Step(direction));
      } else if view == Month {
        MonthStep(newDate, direction);
        newDate := MakeDay(newDate.year, newDate.month - 1, 1);
        newDate := MakeDay(newDate.year, newDate.month - 1 + Step(direction), newDate.day);
      }
      currentDate := newDate;
    }
  }

  /** Moving the day of the month by seven is the week step. */
  lemma WeekStep(d: Date, direction: Direction)
    requires ValidDate(d)
    ensures MakeDay(d.year, d.month - 1, d.day + 7 * Step(direction)) == Navigated(Week, d, direction)
  {
    var shifted := MakeDay(d.year, d.month - 1, d.day + 7 * Step(direction));
    SameDayShifted(d, 7 * Step(direction));
    DayNumberOrder(shifted, Navigated(Week, d, direction));
  }

  /** Setting the day to 1 and then moving the month by one is the month step. */
  lemma MonthStep(d: Date, direction: Direction)
    requires ValidDate(d)
    ensures var first := MakeDay(d.year, d.month - 1, 1);
      MakeDay(first.year, first.month - 1 + Step(direction), first.day) == Navigated(Month, d, direction)
  {
    MakeDayInRange(d.year, d.month - 1, 1);
  }

  /** Moving the day of the month by `n` lands `n` days away, across month and year ends. */
  lemma SameDayShifted(d: Date, n: int)
    requires ValidDate(d)
    ensures DayNumber(MakeDay(d.year, d.month - 1, d.day + n)) == DayNumber(d) + n
  {
    assert (d.month - 1) / 12 == 0 && (d.month - 1) % 12 == d.month - 1;
  }

  /** Week navigation keeps the weekday and moves seven days. */
  lemma {:induction false} NavigateWeek(d: Date, direction: Direction)
    requires ValidDate(d)
    ensures DayNumber(Navigated(Week, d, direction)) == DayNumber(d) + 7 * Step(direction)
    ensures Weekday(Navigated(Week, d, direction)) == Weekday(d)
  {
    var r := Navigated(Week, d, direction);
    SameWeekday(d, r, Step(direction));
  }

  /** Dates a whole number of weeks apart fall on the same weekday. */
  lemma SameWeekday(a: Date, b: Date, weeks: int)
    requires ValidDate(a) && ValidDate(b) && DayNumber(b) == DayNumber(a) + 7 * weeks
    ensures Weekday(b) == Weekday(a)
  {
    WholeWeeks(DayNumber(a) + 4, weeks);
  }

  lemma WholeWeeks(x: int, weeks: int)
    ensures (x + 7 * weeks) % 7 == x % 7
  {
    var q, r := x / 7, x % 7;
    assert x + 7 * weeks == 7 * (q + weeks) + r;
  }

  /** Month navigation lands on day 1 of the next or the previous month, crossing into
      the next or the previous year from December or January. */
  lemma NavigateMonth(d: Date, direction: Direction)
    requires ValidDate(d)
    ensures Navigated(Month, d, direction).day == 1
    ensures MonthIndex(Navigated(Month, d, direction)) == MonthIndex(d) + Step(direction)
  {
    MakeDayFirst(d.year, d.month - 1 + Step(direction));
  }

  /** Next then previous in week view returns to the same date. */
  lemma {:induction false} WeekRoundTrip(d: Date)
    requires ValidDate(d)
    ensures Navigated(Week, Navigated(Week, d, Next), Prev) == d
  {
    var there := Navigated(Week, d, Next);
    var back := Navigated(Week, there, Prev);
    assert DayNumber(back) == DayNumber(there) - 7 == DayNumber(d);
    DayNumberOrder(back, d);
  }

  /** Next then previous in month view returns to day 1 of the starting month. */
  lemma {:induction false} MonthRoundTrip(d: Date)
    requires ValidDate(d)
    ensures Navigated(Month, Navigated(Month, d, Next), Prev) == Date(d.year, d.month, 1)
  {
    var there := Navigated(Month, d, Next);
    NavigateMonth(d, Next);
    NavigateMonth(there, Prev);
    var back := Navigated(Month, there, Prev);
    assert MonthIndex(back) == MonthIndex(d);
    assert back.year == d.year && back.month == d.month by {
      assert 12 * back.year + back.month == 12 * d.year + d.month;
    }
  }

  /** From Tuesday 2024-10-01 a week on is 2024-10-08 and a week back 2024-09-24. */
  lemma {:induction false} ExampleWeekNavigation(d: Date)
    requires d == Date(2024, 10, 1)
    ensures Navigated(Week, d, Next) == Date(2024, 10, 8)
    ensures Navigated(Week, d, Prev) == Date(2024, 9, 24)
  {
    var next, prev := Navigated(Week, d, Next), Navigated(Week, d, Prev);
    NavigateWeek(d, Next);
    NavigateWeek(d, Prev);
    assert DayNumber(Date(2024, 10, 8)) == DayNumber(d) + 7;
    DaysBeforeMonthStep(2024, 9);
    assert DayNumber(Date(2024, 9, 24)) == DayNumber(d) - 7;
    DayNumberOrder(next, Date(2024, 10, 8));
    DayNumberOrder(prev, Date(2024, 9, 24));
  }

  /** From 2024-10-01 a month on is 2024-11-01. */
  lemma {:induction false} ExampleNextMonth(d: Date)
    requires d == Date(2024, 10, 1)
    ensures Navigated(Month, d, Next) == Date(2024, 11, 1)
  {
    var next := Navigated(Month, d, Next);
    NavigateMonth(d, Next);
    assert next.year == 2024 by {
      assert 12 * next.year + next.month == 12 * 2024 + 11;
    }
  }

  /** From 2024-10-01 a month back is 2024-09-01. */
  lemma {:induction false} ExamplePreviousMonth(d: Date)
    requires d == Date(2024, 10, 1)
    ensures Navigated(Month, d, Prev) == Date(2024, 9, 1)
  {
    var prev := Navigated(Month, d, Prev);
    NavigateMonth(d, Prev);
    assert prev.year == 2024 by {
      assert 12 * prev.year + prev.month == 12 * 2024 + 9;
    }
  }

  /** From December, a month on is January of the next year; from January, a month
      back is December of the previous year. */
  lemma {:induction false} MonthNavigationAcrossYears(year: int, day: int)
    requires 1 <= day <= 31
    ensures Navigated(Month, Date(year, 12, day), Next) == Date(year + 1, 1, 1)
    ensures Navigated(Month, Date(year, 1, day), Prev) == Date(year - 1, 12, 1)
  {
    MakeDayFirst(year, 12);
    MakeDayFirst(year, -1);
  }
}
