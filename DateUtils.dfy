/** The two calendar helpers the event filters rely on: the Sunday-to-Saturday
    week of a date, and an inclusive range test on Date values. */
module DateUtils {
  import opened Calendar
  import opened DateStrings

  /** The seven dates, Sunday first, of the week that contains `d`. */
  function GetWeekDates(d: Date): (week: seq<Date>)
    requires ValidDate(d)
    ensures |week| == 7
    ensures ValidDate(week[0]) && DayNumber(week[0]) == DayNumber(d) - Weekday(d)
    ensures forall k :: 0 <= k < 7 ==> ValidDate(week[k]) && DayNumber(week[k]) == DayNumber(week[0]) + k
    ensures d in week
  {
    var back: int := Weekday(d);
    var sunday := AddDays(d, -back);
    var week := seq(7, k => AddDays(sunday, k));
    DayNumberOrder(week[back], d);
    week
  }

  /** The week runs Sunday (0) to Saturday (6). */
  lemma WeekStartsOnSunday(d: Date, k: int)
    requires ValidDate(d) && 0 <= k < 7
    ensures Weekday(GetWeekDates(d)[k]) == k
  {
    var week := GetWeekDates(d);
    KthDayOfWeek(d, week[0], week[k], k);
  }

  /** The date `k` days after the Sunday on or before `d` falls on weekday `k`. */
  lemma KthDayOfWeek(d: Date, sunday: Date, day: Date, k: int)
    requires ValidDate(d) && ValidDate(day) && ValidDate(sunday) && 0 <= k < 7
    requires DayNumber(sunday) == DayNumber(d) - Weekday(d) && DayNumber(day) == DayNumber(sunday) + k
    ensures Weekday(day) == k
  {
    AlignedWeekday(DayNumber(d), Weekday(d), DayNumber(day), k);
  }

  /** Going back from day number `x` by its weekday `w` and forward by `k` lands on weekday `k`. */
  lemma AlignedWeekday(x: int, w: int, y: int, k: int)
    requires w == (x + 4) % 7 && y == x - w + k && 0 <= k < 7
    ensures (y + 4) % 7 == k
  {
    assert y + 4 == 7 * ((x + 4) / 7) + k;
  }

  /** Inclusive range test on Date values: false whenever one of them is invalid, true
      at both ends of a range whose start is not after its end, and false everywhere in a
      range whose start is after its end. */
  function IsDateInRange(date: Instant, start: Instant, end: Instant): (r: bool)
    ensures r ==> date.At? && start.At? && end.At? && start.ms <= date.ms <= end.ms
    ensures date.At? && start.At? && end.At? && start.ms <= date.ms <= end.ms ==> r
    ensures date.Invalid? || start.Invalid? || end.Invalid? ==> !r
    ensures Le(start, end) && (date == start || date == end) ==> r
    ensures Lt(end, start) ==> !r
  {
    Le(start, date) && Le(date, end)
  }

  /** A date lies between the Sunday and the Saturday of `d`'s week exactly when it is one of its seven dates. */
  lemma {:induction false} InWeekRange(d: Date, e: Date)
    requires ValidDate(d) && ValidDate(e)
    ensures var week := GetWeekDates(d);
      IsDateInRange(DayStart(e), DayStart(week[0]), DayStart(week[6])) <==> e in week
  {
    var week := GetWeekDates(d);
    InConsecutiveDays(week, DayNumber(week[0]), e);
  }

  /** A date lies between the first and the last of seven consecutive dates exactly when
      it is one of them. */
  lemma InConsecutiveDays(days: seq<Date>, first: int, e: Date)
    requires ValidDate(e) && |days| == 7
    requires forall k :: 0 <= k < 7 ==> ValidDate(days[k]) && DayNumber(days[k]) == first + k
    ensures first <= DayNumber(e) <= first + 6 <==> e in days
  {
    if first <= DayNumber(e) <= first + 6 {
      var k := DayNumber(e) - first;
      DayNumberOrder(days[k], e);
    }
  }

  /** Seven valid consecutive dates starting at the Sunday on or before `d` are its week. */
  lemma {:induction false} WeekIsDetermined(d: Date, expected: seq<Date>)
    requires ValidDate(d) && |expected| == 7
    requires forall k :: 0 <= k < 7 ==> ValidDate(expected[k]) && DayNumber(expected[k]) == DayNumber(d) - Weekday(d) + k
    ensures GetWeekDates(d) == expected
  {
    var week := GetWeekDates(d);
    forall k | 0 <= k < 7
      ensures week[k] == expected[k]
    {
      DayNumberOrder(week[k], expected[k]);
    }
  }

  /** The week of a Wednesday, 2024-11-06, runs from 2024-11-03 to 2024-11-09. */
  lemma WeekOfMidWeekDay()
    ensures GetWeekDates(Date(2024, 11, 6)) == seq(7, k => Date(2024, 11, 3 + k))
  {
    var d := Date(2024, 11, 6);
    assert DayNumber(d) == 20033 && Weekday(d) == 3;
    WeekIsDetermined(d, seq(7, k => Date(2024, 11, 3 + k)));
  }

  /** The week of 2024-12-31 runs from 2024-12-29 to 2025-01-04. */
  lemma WeekAcrossNewYear()
    ensures GetWeekDates(Date(2024, 12, 31)) ==
      [Date(2024, 12, 29), Date(2024, 12, 30), Date(2024, 12, 31),
       Date(2025, 1, 1), Date(2025, 1, 2), Date(2025, 1, 3), Date(2025, 1, 4)]
  {
    var d := Date(2024, 12, 31);
    assert DayNumber(d) == 20088 && Weekday(d) == 2;
    assert DayNumber(Date(2025, 1, 1)) == 20089;
    WeekIsDetermined(d, [Date(2024, 12, 29), Date(2024, 12, 30), Date(2024, 12, 31),
                         Date(2025, 1, 1), Date(2025, 1, 2), Date(2025, 1, 3), Date(2025, 1, 4)]);
  }
}
