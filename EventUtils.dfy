/** Event search and date-range filtering: a case-insensitive search on
    title, description and location, followed by a filter to the week or the
    month of a reference date. Both stages are stable filters. */
module EventUtils {
  import opened Optional
  import opened Sequences
  import opened Calendar
  import opened DateStrings
  import opened DateUtils
  import opened Events

  /** ASCII lower-case mapping of one character; other characters are left alone. */
  function LowerChar(c: char): char {
    if 'A' <= c <= 'Z' then (c as int + 32) as char else c
  }

  /** ASCII upper-case mapping of one character; other characters are left alone. */
  function UpperChar(c: char): char {
    if 'a' <= c <= 'z' then (c as int - 32) as char else c
  }

  function ToLowerCase(s: string): (r: string)
    ensures |r| == |s|
  {
    seq(|s|, i requires 0 <= i < |s| => LowerChar(s[i]))
  }

  function ToUpperCase(s: string): (r: string)
    ensures |r| == |s|
  {
    seq(|s|, i requires 0 <= i < |s| => UpperChar(s[i]))
  }

  /** `sub` occurs in `s` starting at index `i`. */
  predicate OccursAt(s: string, sub: string, i: int) {
    0 <= i <= |s| - |sub| && s[i..i + |sub|] == sub
  }

  /** `s.includes(sub)`: `sub` occurs in `s` as a contiguous run. */
  function Includes(s: string, sub: string): (r: bool)
    ensures r <==> exists i :: OccursAt(s, sub, i)
    decreases |s|
  {
    if |sub| > |s| then false
    else if s[..|sub|] == sub then
      assert OccursAt(s, sub, 0);
      true
    else
      OccursInTail(s, sub);
      Includes(s[1..], sub)
  }

  /** An occurrence away from the front of `s` is an occurrence in `s[1..]`, one place earlier. */
  lemma OccursInTail(s: string, sub: string)
    requires s != [] && !OccursAt(s, sub, 0)
    ensures forall i :: OccursAt(s, sub, i) ==> OccursAt(s[1..], sub, i - 1)
    ensures forall j :: OccursAt(s[1..], sub, j) ==> OccursAt(s, sub, j + 1)
  {
    forall i | OccursAt(s, sub, i)
      ensures OccursAt(s[1..], sub, i - 1)
    {
      assert s[1..][i - 1..i - 1 + |sub|] == s[i..i + |sub|];
    }
    forall j | OccursAt(s[1..], sub, j)
      ensures OccursAt(s, sub, j + 1)
    {
      assert s[1..][j..j + |sub|] == s[j + 1..j + 1 + |sub|];
    }
  }

  /** Whether `target` contains `term`, ignoring case. The empty term is contained in
      every text, and a term is never found in a shorter text. */
  function ContainsTerm(target: string, term: string): (r: bool)
    ensures term == "" ==> r
    ensures r ==> |term| <= |target|
  {
    assert term == "" ==> OccursAt(ToLowerCase(target), ToLowerCase(term), 0);
    Includes(ToLowerCase(target), ToLowerCase(term))
  }

  /** The search predicate: the term is found in the title, the description or the
      location; the empty term matches every event. */
  function MatchesSearch(e: Event, term: string): (r: bool)
    ensures term == "" ==> r
    ensures r ==> |term| <= |e.form.title| || |term| <= |e.form.description| || |term| <= |e.form.location|
  {
    ContainsTerm(e.form.title, term) || ContainsTerm(e.form.description, term) || ContainsTerm(e.form.location, term)
  }

  function SearchEvents(events: seq<Event>, term: string): (r: seq<Event>)
    ensures IsSubsequence(r, events)
    ensures forall e :: e in r ==> e in events && MatchesSearch(e, term)
    ensures forall e :: e in events && MatchesSearch(e, term) ==> e in r
  {
    Filter(events, e => MatchesSearch(e, term))
  }

  /** Whether the Date an event's `date` string denotes lies in [start, end]. */
  predicate EventInRange(e: Event, start: Instant, end: Instant) {
    IsDateInRange(ParseDate(e.form.date), start, end)
  }

  function FilterEventsByDateRange(events: seq<Event>, start: Instant, end: Instant): (r: seq<Event>)
    ensures IsSubsequence(r, events)
    ensures forall e :: e in r ==> e in events && EventInRange(e, start, end)
    ensures forall e :: e in events && EventInRange(e, start, end) ==> e in r
  {
    Filter(events, e => EventInRange(e, start, end))
  }

  /** A valid time value that is the midnight starting a Sunday. */
  predicate IsSundayMidnight(t: Instant) {
    t.At? && t.ms % MsPerDay == 0 && (t.ms / MsPerDay + 4) % 7 == 0
  }

  /** Sunday 00:00 and Saturday 00:00 of the week of `currentDate`: two midnights six
      days apart, the first on a Sunday, with `currentDate` between them. */
  function WeekBounds(currentDate: Date): (bounds: (Instant, Instant))
    requires ValidDate(currentDate)
    ensures bounds.0.At? && bounds.1.At? && bounds.1.ms == bounds.0.ms + 6 * MsPerDay
    ensures IsSundayMidnight(bounds.0)
    ensures bounds.0.ms <= DayStart(currentDate).ms <= bounds.1.ms
  {
    var weekDates := GetWeekDates(currentDate);
    WeekStartsOnSunday(currentDate, 0);
    SundayMidnight(weekDates[0]);
    (DayStart(weekDates[0]), DayStart(weekDates[6]))
  }

  /** The midnight of a Sunday is a Sunday midnight. */
  lemma SundayMidnight(sunday: Date)
    requires ValidDate(sunday) && Weekday(sunday) == 0
    ensures IsSundayMidnight(DayStart(sunday))
  {
    DayMidnight(DayNumber(sunday), DayStart(sunday).ms);
  }

  /** Day number `n` is recovered from its midnight, which is a whole number of days. */
  lemma DayMidnight(n: int, t: int)
    requires t == n * MsPerDay
    ensures t % MsPerDay == 0 && t / MsPerDay == n
  {
  }

  /** Day 1 of the month of `currentDate`, and day 0 of the month after it, both built by
      the `Date` constructor: the first and the last day of that month, in the year the
      constructor reads (1900 to 1999 for a year from 0 to 99). */
  function MonthBounds(currentDate: Date): (bounds: (Instant, Instant))
    requires ValidDate(currentDate)
    ensures var year := ConstructorYear(currentDate.year);
      bounds == (DayStart(Date(year, currentDate.month, 1)),
                 DayStart(Date(year, currentDate.month, DaysInMonth(year, currentDate.month))))
  {
    var year := ConstructorYear(currentDate.year);
    MakeDayInRange(year, currentDate.month - 1, 1);
    MakeDayZeroIsLastDay(year, currentDate.month - 1);
    (DayStart(MakeDay(year, currentDate.month - 1, 1)), DayStart(MakeDay(year, currentDate.month, 0)))
  }

  /** Keeps, in order, the events of the week of `currentDate`: an event whose date is a
      well-formed "YYYY-MM-DD" is kept exactly when that date is one of the week's seven. */
  function FilterEventsByDateRangeAtWeek(events: seq<Event>, currentDate: Date): (r: seq<Event>)
    requires ValidDate(currentDate)
    ensures IsSubsequence(r, events)
    ensures forall e :: e in events && ParseDateFields(e.form.date).Some? ==>
      (e in r <==> ParseDateFields(e.form.date).value in GetWeekDates(currentDate))
  {
    var r := FilterEventsByDateRange(events, WeekBounds(currentDate).0, WeekBounds(currentDate).1);
    assert forall e :: e in events && ParseDateFields(e.form.date).Some? ==>
      (e in r <==> ParseDateFields(e.form.date).value in GetWeekDates(currentDate)) by {
      forall e | e in events && ParseDateFields(e.form.date).Some?
        ensures e in r <==> ParseDateFields(e.form.date).value in GetWeekDates(currentDate)
      {
        WeekEventInRange(currentDate, e);
      }
    }
    r
  }

  /** A well-formed event lies between the week's bounds exactly when its date is one of
      the week's seven dates. */
  lemma WeekEventInRange(currentDate: Date, e: Event)
    requires ValidDate(currentDate) && ParseDateFields(e.form.date).Some?
    ensures EventInRange(e, WeekBounds(currentDate).0, WeekBounds(currentDate).1)
      <==> ParseDateFields(e.form.date).value in GetWeekDates(currentDate)
  {
    InWeekRange(currentDate, ParseDateFields(e.form.date).value);
  }

  /** Keeps, in order, the events of the month of `currentDate`: an event whose date is a
      well-formed "YYYY-MM-DD" is kept exactly when that date has the month of
      `currentDate` and the year the `Date` constructor reads from it. */
  function FilterEventsByDateRangeAtMonth(events: seq<Event>, currentDate: Date): (r: seq<Event>)
    requires ValidDate(currentDate)
    ensures IsSubsequence(r, events)
    ensures forall e :: e in events && ParseDateFields(e.form.date).Some? ==>
      (e in r <==> ParseDateFields(e.form.date).value.year == ConstructorYear(currentDate.year)
                   && ParseDateFields(e.form.date).value.month == currentDate.month)
  {
    var r := FilterEventsByDateRange(events, MonthBounds(currentDate).0, MonthBounds(currentDate).1);
    assert forall e :: e in events && ParseDateFields(e.form.date).Some? ==>
      (e in r <==> ParseDateFields(e.form.date).value.year == ConstructorYear(currentDate.year)
                   && ParseDateFields(e.form.date).value.month == currentDate.month) by {
      forall e | e in events && ParseDateFields(e.form.date).Some?
        ensures e in r <==> ParseDateFields(e.form.date).value.year == ConstructorYear(currentDate.year)
                            && ParseDateFields(e.form.date).value.month == currentDate.month
      {
        MonthEventInRange(currentDate, e);
      }
    }
    r
  }

  /** A well-formed event lies between the month's bounds exactly when its date has the
      month of `currentDate` and the year the `Date` constructor reads from it. */
  lemma MonthEventInRange(currentDate: Date, e: Event)
    requires ValidDate(currentDate) && ParseDateFields(e.form.date).Some?
    ensures EventInRange(e, MonthBounds(currentDate).0, MonthBounds(currentDate).1)
      <==> ParseDateFields(e.form.date).value.year == ConstructorYear(currentDate.year)
           && ParseDateFields(e.form.date).value.month == currentDate.month
  {
    InMonthRange(ConstructorYear(currentDate.year), currentDate.month, ParseDateFields(e.form.date).value);
  }

  /** A date lies between the first and the last day of a month exactly when it is in
      that month. */
  lemma InMonthRange(year: int, month: int, d: Date)
    requires 1 <= month <= 12 && ValidDate(d)
    ensures IsDateInRange(DayStart(d), DayStart(Date(year, month, 1)), DayStart(Date(year, month, DaysInMonth(year, month))))
      <==> d.year == year && d.month == month
  {
    DayNumberOrder(Date(year, month, 1), d);
    DayNumberOrder(d, Date(year, month, DaysInMonth(year, month)));
  }

  /** Search first, then keep the week or the month of `currentDate`. */
  function GetFilteredEvents(events: seq<Event>, searchTerm: string, currentDate: Date, view: View): (r: seq<Event>)
    requires ValidDate(currentDate)
    ensures IsSubsequence(r, events)
    ensures forall e :: e in r ==> MatchesSearch(e, searchTerm)
    ensures events == [] ==> r == []
  {
    var searchedEvents := SearchEvents(events, searchTerm);
    var r := match view
      case Week => FilterEventsByDateRangeAtWeek(searchedEvents, currentDate)
      case Month => FilterEventsByDateRangeAtMonth(searchedEvents, currentDate);
    SubsequenceTransitive(r, searchedEvents, events);
    r
  }

  /** Searching and then filtering by date is one filter by both conditions: the events
      kept are those, in their original order, that match the term and whose date lies
      between the bounds of the view. */
  lemma {:induction false} SearchThenDateIsOneFilter(events: seq<Event>, searchTerm: string, currentDate: Date, view: View)
    requires ValidDate(currentDate)
    ensures var b := match view case Week => WeekBounds(currentDate) case Month => MonthBounds(currentDate);
      GetFilteredEvents(events, searchTerm, currentDate, view) ==
      Filter(events, (e: Event) => MatchesSearch(e, searchTerm) && EventInRange(e, b.0, b.1))
  {
    var b := match view case Week => WeekBounds(currentDate) case Month => MonthBounds(currentDate);
    SearchThenRange(events, searchTerm, b.0, b.1);
  }

  lemma {:induction false} SearchThenRange(events: seq<Event>, searchTerm: string, start: Instant, end: Instant)
    ensures FilterEventsByDateRange(SearchEvents(events, searchTerm), start, end) ==
      Filter(events, (e: Event) => MatchesSearch(e, searchTerm) && EventInRange(e, start, end))
  {
    var p := (e: Event) => MatchesSearch(e, searchTerm);
    var q := (e: Event) => EventInRange(e, start, end);
    var searched := SearchEvents(events, searchTerm);
    FilterCongruent(events, e => MatchesSearch(e, searchTerm), p);
    FilterCongruent(searched, e => EventInRange(e, start, end), q);
    FilterFusionAs(events, p, q, (e: Event) => MatchesSearch(e, searchTerm) && EventInRange(e, start, end));
  }

  /** With an empty term the search stage keeps every event. */
  lemma {:induction false} EmptySearchKeepsAll(events: seq<Event>)
    ensures SearchEvents(events, "") == events
  {
    FilterKeepsAll(events, e => MatchesSearch(e, ""));
  }

  /** With an empty term only the date filter of the view applies. */
  lemma EmptyTermOnlyFiltersByDate(events: seq<Event>, currentDate: Date, view: View)
    requires ValidDate(currentDate)
    ensures GetFilteredEvents(events, "", currentDate, view) ==
      match view
      case Week => FilterEventsByDateRangeAtWeek(events, currentDate)
      case Month => FilterEventsByDateRangeAtMonth(events, currentDate)
  {
    EmptySearchKeepsAll(events);
  }

  lemma LowerOfCase(s: string)
    ensures ToLowerCase(ToUpperCase(s)) == ToLowerCase(s)
    ensures ToLowerCase(ToLowerCase(s)) == ToLowerCase(s)
  {
  }

  /** Upper- or lower-casing the term changes nothing. */
  lemma {:induction false} TermCaseIgnored(target: string, term: string)
    ensures ContainsTerm(target, ToUpperCase(term)) == ContainsTerm(target, term)
    ensures ContainsTerm(target, ToLowerCase(term)) == ContainsTerm(target, term)
  {
    LowerOfCase(term);
  }

  /** Upper- or lower-casing the searched text changes nothing either. */
  lemma {:induction false} TargetCaseIgnored(target: string, term: string)
    ensures ContainsTerm(ToUpperCase(target), term) == ContainsTerm(target, term)
    ensures ContainsTerm(ToLowerCase(target), term) == ContainsTerm(target, term)
  {
    LowerOfCase(target);
  }

  /** Events whose date string reads as no valid date are never shown. */
  lemma InvalidDateNeverShown(events: seq<Event>, searchTerm: string, currentDate: Date, view: View, e: Event)
    requires ValidDate(currentDate)
    requires ParseDate(e.form.date) == Invalid
    ensures e !in GetFilteredEvents(events, searchTerm, currentDate, view)
  {
  }

  /** Week view, for events whose date is a well-formed "YYYY-MM-DD": an event is shown
      exactly when it matches the search and its date is one of the seven dates of the
      week of `currentDate`. */
  lemma {:induction false} WeekViewExact(events: seq<Event>, searchTerm: string, currentDate: Date, e: Event)
    requires ValidDate(currentDate)
    requires ParseDateFields(e.form.date).Some?
    ensures e in GetFilteredEvents(events, searchTerm, currentDate, Week) <==>
      e in events && MatchesSearch(e, searchTerm) && ParseDateFields(e.form.date).value in GetWeekDates(currentDate)
  {
    var searched := SearchEvents(events, searchTerm);
    assert GetFilteredEvents(events, searchTerm, currentDate, Week) == FilterEventsByDateRangeAtWeek(searched, currentDate);
  }

  /** Month view, for events whose date is a well-formed "YYYY-MM-DD": an event is shown
      exactly when it matches the search and its date has the month of `currentDate` and
      the year the `Date` constructor reads from it, so a reference year from 0 to 99
      shows the events of 1900 to 1999. */
  lemma {:induction false} MonthViewExact(events: seq<Event>, searchTerm: string, currentDate: Date, e: Event)
    requires ValidDate(currentDate)
    requires ParseDateFields(e.form.date).Some?
    ensures e in GetFilteredEvents(events, searchTerm, currentDate, Month) <==>
      e in events && MatchesSearch(e, searchTerm)
      && ParseDateFields(e.form.date).value.year == ConstructorYear(currentDate.year)
      && ParseDateFields(e.form.date).value.month == currentDate.month
  {
    var searched := SearchEvents(events, searchTerm);
    assert GetFilteredEvents(events, searchTerm, currentDate, Month) == FilterEventsByDateRangeAtMonth(searched, currentDate);
  }

  /** With the reference date 0050-03-10, month view shows March 1950, not March 50:
      an event dated "0050-03-15" is hidden and one dated "1950-03-15" is shown. */
  lemma {:induction false} TwoDigitYearMonthView(events: seq<Event>, currentDate: Date, a: Event, b: Event)
    requires currentDate == Date(50, 3, 10)
    requires a.form.date == "0050-03-15" && b.form.date == "1950-03-15" && b in events
    ensures a !in GetFilteredEvents(events, "", currentDate, Month)
    ensures b in GetFilteredEvents(events, "", currentDate, Month)
  {
    assert ParseDateFields(a.form.date) == Some(Date(50, 3, 15));
    assert ParseDateFields(b.form.date) == Some(Date(1950, 3, 15));
    MonthViewExact(events, "", currentDate, a);
    MonthViewExact(events, "", currentDate, b);
  }
}
