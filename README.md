# Calendar event layer, modelled in Dafny

This project models the event layer of a small calendar front-end and proves properties of that model. The layer has five parts:

- **Event search and date filtering** (`eventUtils.ts`). A case-insensitive substring search runs on an event's title, description and location. The result is then narrowed to the Sunday-to-Saturday week, or to the calendar month, of a reference date.
- **Conflict detection** (`eventOverlap.ts`). An event's date and its two clock times become a time range. Two ranges overlap when each starts strictly before the other ends. A new or edited event is compared against the saved events, leaving out the event itself.
- **Reminder selection and text** (`notificationUtils.ts`). An event is due for a reminder when its reminder instant, `notificationTime` minutes before its start, has just arrived and its id has not been notified. The reminder reads "`<n>`분 후 `<title>` 일정이 시작됩니다.".
- **The reminder hook** (`useNotifications.ts`). It holds the reminders on screen and the ids already notified. A once-a-second check appends new reminders and ids; a reminder is dismissed by its position.
- **The calendar view hook** (`useCalendarView.ts`). It holds the view (week or month, month at first) and the reference date. "Previous" and "next" move the date by a week, or to the first of the adjacent month.

How JavaScript values are modelled:

- A JavaScript `Date` is an `Instant`: either an integer time value in milliseconds in one fixed zone, or `Invalid`, which stands for Invalid Date (NaN). Every comparison involving `Invalid` is false, as with NaN.
- `new Date(string)` is modelled for the two forms the calendar produces: "YYYY-MM-DD" and "YYYY-MM-DDTHH:mm" of the Date Time String Format (ECMA-262, section 21.4).
- `setDate` and `setMonth` are modelled by ECMAScript MakeDay. This function carries out-of-range months and days into the neighbouring months and years (`Calendar.MakeDay`).
- `new Date(y, m, d)` is MakeDay after one more step: the constructor reads a year from 0 to 99 as 1900 to 1999 (ECMA-262, section 21.4.2.1; `Calendar.ConstructorYear`). The month view's bounds take this step, so a reference date in year 50 shows March 1950, not March 50.

Structure:

- The pure utilities are datatypes, functions and lemmas.
- The two hooks are classes. Their state is fields, and their state setters are methods with `modifies` clauses. Each method's postcondition ties the new state to the pure functions.
- The helpers of `dateUtils.ts` (`getWeekDates`, `isDateInRange`, `getDaysInMonth`) are specified from their unit tests in `easy.dateUtils.spec.ts`; `DateUtils` and `Calendar` model them.

Modules:

| module | models |
|---|---|
| `Sequences` | `Array.prototype.filter` as a stable filter, and the subsequence relation |
| `Decimal` | digit strings, `${n}` for integers, zero padding |
| `Calendar` | civil dates, day numbers since 1970-01-01, weekdays, MakeDay |
| `DateStrings` | `Instant`, and parsing and formatting of date and date-time strings |
| `DateUtils` | `getWeekDates`, `isDateInRange` |
| `Events` | the event records |
| `EventUtils` | `eventUtils.ts` |
| `EventOverlap` | `eventOverlap.ts` |
| `NotificationUtils` | `notificationUtils.ts` |
| `UseNotifications` | `useNotifications.ts` |
| `UseCalendarView` | `useCalendarView.ts` |

The reminder window follows the code as written. `NotificationUtils.IsUpcoming` and `GetUpcomingEvents` keep it: the minutes left must be positive, at most the lead time and at least the lead time, which leaves a single millisecond that a once-a-second timer (`useNotifications.ts:33`) almost never hits. Several things show that the reminder is meant to be given when its instant arrives and not later. The comment at `notificationUtils.ts:15` says "within the notification time". The comment at line 16 says "not exceeding the notification time". The unit test at `easy.notificationUtils.spec.ts:5` is titled "returns the event whose notification time has exactly arrived". The test at lines 48-56 is titled "does not return an event whose notification time has passed", and its comment places the check 30 minutes before the start, after the reminder was sent. The intended window is therefore the first second from the reminder instant, one tick of the timer: minutes left at most the lead time and more than the lead time less one second. `IsDue` and `GetDueEvents` model it, and Findings reports the difference. The reminder hook uses the intended window.

## Model

| member | source | states |
|---|---|---|
| Sequences.Filter | src/entities/event/lib/eventUtils.ts:8-11 | `filter` keeps exactly the elements that satisfy the predicate, in their original order (a subsequence of the input, never longer), and each kept value as many times as it occurs in the input |
| Sequences.FilterFusionAs | src/entities/event/lib/eventUtils.ts:57-64 | a filter followed by a second filter is one filter by the conjunction of the two predicates |
| Decimal.NatToString | src/entities/notification/lib/notificationUtils.ts:26 | `${n}` for a non-negative integer is a non-empty digit string with no leading zero whose decimal value is `n` |
| Calendar.DaysInMonth | src/__tests__/unit/easy.dateUtils.spec.ts:80-111 | months have 28 to 31 days; February has 29 days exactly in leap years; a month number outside 1..12 gives 0 |
| Calendar.DayNumberOrder | src/__tests__/unit/easy.dateUtils.spec.ts:272-310 | on valid dates, the order of the time values agrees with calendar order, and equal time values mean equal dates |
| Calendar.MakeDay | src/hooks/useCalendarView.ts:18-21 | `setDate` and `setMonth` always give a valid date, whose day number is the first of the normalised month plus `date - 1` |
| Calendar.MakeDayInRange | src/entities/event/lib/eventUtils.ts:43 | MakeDay with an in-range month and day is exactly that date (the constructor applies it after its year step, see `EventUtils.MonthBounds`) |
| Calendar.MakeDayFirst | src/hooks/useCalendarView.ts:20-21 | day 1 of any month index is the first of the month that index names, with the overflow carried into the year |
| Calendar.MakeDayZeroIsLastDay | src/entities/event/lib/eventUtils.ts:44 | day 0 of the following month is the last day of the month |
| Calendar.AddDaysRoundTrip | src/hooks/useCalendarView.ts:18 | moving `n` days and then `-n` days returns to the starting date |
| DateStrings.ParseFormatDate | src/__tests__/unit/easy.eventOverlap.spec.ts:13-33 | reading a formatted "YYYY-MM-DD" gives the date back |
| DateStrings.FormatParseDate | src/__tests__/unit/easy.eventOverlap.spec.ts:13-33 | a date string that reads successfully is exactly the formatting of the date it reads as |
| DateStrings.ParseFormatClock | src/__tests__/unit/easy.eventOverlap.spec.ts:13-33 | reading a formatted "HH:mm" gives the clock time back |
| DateStrings.FormatParseClock | src/__tests__/unit/easy.eventOverlap.spec.ts:13-33 | a clock string that reads successfully is exactly the formatting of what it reads as |
| DateStrings.ParseDateOnly | src/entities/event/lib/eventUtils.ts:9 | a date-only string reads as midnight at the start of that date |
| DateStrings.ParseDate | src/entities/event/lib/eventUtils.ts:9 | `new Date(string)` is valid only for a ten-character date or a sixteen-character date-time with 'T' at position 10; a ten-character string is valid exactly when it names an existing day, and then reads as that day's midnight |
| DateUtils.GetWeekDates | src/entities/event/lib/eventUtils.ts:35-36 | the week is seven consecutive valid dates, starting on the Sunday on or before the date and containing it |
| DateUtils.IsDateInRange | src/entities/event/lib/eventUtils.ts:10 | the inclusive range test holds exactly when all three Dates are valid and the date lies between start and end; an Invalid Date anywhere gives false; both ends of a range whose start is not after its end lie inside it (easy.dateUtils.spec.ts:283-291); a range whose start is after its end contains no date (easy.dateUtils.spec.ts:303-309) |
| DateUtils.WeekStartsOnSunday | src/__tests__/unit/easy.dateUtils.spec.ts:114-128 | the `k`-th date of the week falls on weekday `k` (Sunday is 0) |
| DateUtils.WeekIsDetermined | src/__tests__/unit/easy.dateUtils.spec.ts:114-128 | any seven valid consecutive dates from that Sunday are the week of the date |
| DateUtils.WeekOfMidWeekDay | src/__tests__/unit/easy.dateUtils.spec.ts:114-128 | the week of Wednesday 2024-11-06 is 2024-11-03 to 2024-11-09 |
| DateUtils.WeekAcrossNewYear | src/__tests__/unit/easy.dateUtils.spec.ts:157-170 | the week of 2024-12-31 runs from 2024-12-29 to 2025-01-04 |
| DateUtils.InWeekRange | src/entities/event/lib/eventUtils.ts:34-37 | a date lies between the week's Sunday and Saturday exactly when it is one of the week's seven dates |
| EventUtils.Includes | src/entities/event/lib/eventUtils.ts:18 | `includes` holds exactly when the term occurs in the text at some position |
| EventUtils.OccursInTail | src/entities/event/lib/eventUtils.ts:18 | an occurrence not at the front is an occurrence in the rest of the text, one position earlier, and conversely |
| EventUtils.ContainsTerm | src/entities/event/lib/eventUtils.ts:17-19 | the empty term is contained in every text, and a term is never found in a shorter text |
| EventUtils.MatchesSearch | src/entities/event/lib/eventUtils.ts:26-27 | the empty term matches every event, and a match needs a field at least as long as the term |
| EventUtils.SearchEvents | src/entities/event/lib/eventUtils.ts:24-29 | keeps, in order, exactly the events whose title, description or location contains the term |
| EventUtils.FilterEventsByDateRange | src/entities/event/lib/eventUtils.ts:7-12 | keeps, in order, exactly the events whose date reads as a time between `start` and `end` inclusive |
| EventUtils.WeekBounds | src/entities/event/lib/eventUtils.ts:35-36 | the week's bounds are two valid midnights six days apart, the first on a Sunday, with the reference date between them |
| EventUtils.MonthBounds | src/entities/event/lib/eventUtils.ts:43-44 | the month's bounds are the midnights of the first and the last day of the reference month, in the year the `Date` constructor reads (1900 to 1999 for a year from 0 to 99) |
| EventUtils.FilterEventsByDateRangeAtWeek | src/entities/event/lib/eventUtils.ts:34-37 | keeps, in order, a well-formed event exactly when its date is one of the seven dates of the week |
| EventUtils.WeekEventInRange | src/entities/event/lib/eventUtils.ts:35-36 | a well-formed event lies between the week's bounds exactly when its date is one of the week's seven dates |
| EventUtils.FilterEventsByDateRangeAtMonth | src/entities/event/lib/eventUtils.ts:42-46 | keeps, in order, a well-formed event exactly when its date has the reference month and the year the constructor reads |
| EventUtils.MonthEventInRange | src/entities/event/lib/eventUtils.ts:43-45 | a well-formed event lies between the month's bounds exactly when its date has the reference month and the constructor's reading of the reference year |
| EventUtils.InMonthRange | src/entities/event/lib/eventUtils.ts:43-45 | a date lies between the first and the last day of a month exactly when it is in that month |
| EventUtils.GetFilteredEvents | src/entities/event/lib/eventUtils.ts:51-68 | the result is an ordered subsequence of the events, every event in it matches the search, and an empty list gives an empty list |
| EventUtils.SearchThenDateIsOneFilter | src/entities/event/lib/eventUtils.ts:51-68 | the final list is the events, in order, that both match the search and lie within the view's bounds |
| EventUtils.SearchThenRange | src/entities/event/lib/eventUtils.ts:57-64 | searching and then filtering by a date range is one filter by both conditions |
| EventUtils.EmptySearchKeepsAll | src/__tests__/unit/easy.eventUtils.spec.ts:112-178 | the empty term keeps every event |
| EventUtils.EmptyTermOnlyFiltersByDate | src/__tests__/unit/easy.eventUtils.spec.ts:112-178 | with the empty term, only the view's date filter applies |
| EventUtils.ToLowerCase | src/entities/event/lib/eventUtils.ts:18 | lower-casing keeps the length |
| EventUtils.ToUpperCase | src/__tests__/unit/easy.eventUtils.spec.ts:180-226 | upper-casing keeps the length |
| EventUtils.LowerOfCase | src/entities/event/lib/eventUtils.ts:18 | lower-casing erases any earlier upper- or lower-casing |
| EventUtils.TermCaseIgnored | src/__tests__/unit/easy.eventUtils.spec.ts:180-226 | upper- or lower-casing the term does not change the match |
| EventUtils.TargetCaseIgnored | src/entities/event/lib/eventUtils.ts:14-19 | upper- or lower-casing the searched text does not change the match |
| EventUtils.InvalidDateNeverShown | src/entities/event/lib/eventUtils.ts:9-10 | an event whose date reads as Invalid Date is never shown, in either view |
| EventUtils.WeekViewExact | src/__tests__/unit/easy.eventUtils.spec.ts:28-49 | in week view, a well-formed event is shown exactly when it matches the search and its date is one of the seven dates of the week |
| EventUtils.MonthViewExact | src/entities/event/lib/eventUtils.ts:42-46 | in month view, a well-formed event is shown exactly when it matches the search and its date has the reference month and the year the constructor reads from the reference year, including the first and last days |
| EventUtils.TwoDigitYearMonthView | src/entities/event/lib/eventUtils.ts:43-44 | with the reference date 0050-03-10, month view hides an event on 0050-03-15 and shows one on 1950-03-15 |
| EventOverlap.FindOverlappingEvents | src/entities/event/lib/eventOverlap.ts:33-37 | keeps, in order, exactly the saved events that overlap the new event, excluding the one with the new event's own id |
| EventOverlap.ParseDateTime | src/entities/event/lib/eventOverlap.ts:6-8 | a date and a time joined by 'T' read as that clock time on that day when both are well-formed and in range, and as Invalid Date otherwise |
| EventOverlap.JoinedDateTime | src/entities/event/lib/eventOverlap.ts:7 | reading the joined string reads the date and the time separately; the 'T' is never taken into a field |
| EventOverlap.ConvertEventToDateRange | src/entities/event/lib/eventOverlap.ts:13-18 | a malformed date makes both ends Invalid, and each end is valid exactly when the date and its own time are |
| EventOverlap.IsOverlapping | src/entities/event/lib/eventOverlap.ts:23-28 | two events whose ranges share an instant overlap; two overlapping non-empty ranges share an instant; overlap needs four valid ends |
| EventOverlap.SharedInstant | src/entities/event/lib/eventOverlap.ts:27 | each range starting before the other ends is implied by a shared instant, and implies one (the later start) when neither range is empty |
| EventOverlap.InvertedRangeOverlaps | src/entities/event/lib/eventOverlap.ts:27 | an event entered as 15:06-14:06 overlaps one at 06:00-15:36 on the same day, though it shares no instant with it |
| EventOverlap.MalformedDateTimes | src/__tests__/unit/easy.eventOverlap.spec.ts:19-33 | a non-existent day, an out-of-range time and an empty date all give Invalid Date |
| EventOverlap.WellFormedDateTime | src/__tests__/unit/easy.eventOverlap.spec.ts:14-17 | "2024-07-01" with "14:30" is 14:30 on 1 July 2024 |
| EventOverlap.RangeOfEvent | src/entities/event/lib/eventOverlap.ts:13-18 | a malformed date makes both ends Invalid; for a well-formed event, both ends lie on its day and are as far apart as its two clock times |
| EventOverlap.OverlapIsSymmetric | src/entities/event/lib/eventOverlap.ts:23-28 | overlap does not depend on the order of the two events |
| EventOverlap.InvalidNeverOverlaps | src/entities/event/lib/eventOverlap.ts:27 | an Invalid Date at any end rules out overlap |
| EventOverlap.SameDayOverlap | src/entities/event/lib/eventOverlap.ts:23-28 | two well-formed events on the same day overlap exactly when each starts strictly before the other ends, in minutes of the day (touching ends do not overlap) |
| EventOverlap.DraftExcludesNothingById | src/entities/event/lib/eventOverlap.ts:35 | a form without an id excludes no saved event because of its id |
| EventOverlap.ExampleClockTimes | src/__tests__/unit/easy.eventOverlap.spec.ts:97-136 | the example clock strings read as the intended clock times |
| EventOverlap.ExampleOverlaps | src/__tests__/unit/easy.eventOverlap.spec.ts:97-144 | 14:06-15:06 and 14:36-15:36 overlap; 14:06-15:06 and 20:36-22:36 do not; 06:00-06:50 overlaps neither |
| EventOverlap.ConflictsAmongTwo | src/entities/event/lib/eventOverlap.ts:34-36 | checked against two saved events, the result keeps each one that conflicts, in order |
| EventOverlap.ExampleConflicts | src/__tests__/unit/easy.eventOverlap.spec.ts:146-220 | saving the 14:36-15:36 event reports only the 14:06-15:06 event; the morning event reports nothing |
| NotificationUtils.GetUpcomingEvents | src/entities/notification/lib/notificationUtils.ts:9-20 | keeps, in order, exactly the events that satisfy the window as written |
| NotificationUtils.IsUpcoming | src/entities/notification/lib/notificationUtils.ts:11-18 | as written, an event is selected exactly when its start is `notificationTime` whole minutes after `now`, that lead time is positive, and its id is not notified |
| NotificationUtils.MinutesLeft | src/entities/notification/lib/notificationUtils.ts:12-16 | comparing the minutes left with zero and with a whole lead time compares the milliseconds left with 0 and with that many minutes |
| NotificationUtils.DueAtOneInstantOnly | src/entities/notification/lib/notificationUtils.ts:15-16 | as written, at most one `now` selects a given event |
| NotificationUtils.UpcomingEventsAreFutureAndNew | src/entities/notification/lib/notificationUtils.ts:14-17 | every selected event starts after `now`, has a valid start, a positive lead time and an id not yet notified |
| NotificationUtils.NotifiedNeverReturned | src/entities/notification/lib/notificationUtils.ts:17 | an id already notified is never selected again, under either window |
| NotificationUtils.ExampleTimes | src/__tests__/unit/easy.notificationUtils.spec.ts:4-57 | the example date-times read as those times on 2024-11-29 |
| NotificationUtils.ExampleStart | src/__tests__/unit/easy.notificationUtils.spec.ts:16-17 | the example event's date and start time read as 14:06 on 2024-11-29 |
| NotificationUtils.ExampleUpcoming | src/__tests__/unit/easy.notificationUtils.spec.ts:4-57 | the 14:06 event with a 60-minute lead time is selected at 13:06, not at 13:05, and not at 14:00 once notified |
| NotificationUtils.AsWrittenMissesOffInstantTicks | src/entities/notification/lib/notificationUtils.ts:15-16 | as written, ticks half a second either side of 13:06:00 both miss the 14:06 event |
| NotificationUtils.AsWrittenNeedsExactTick | src/entities/notification/lib/notificationUtils.ts:15-16 | as written, ticks that all miss the exact reminder instant never select the event |
| NotificationUtils.GetDueEvents | src/entities/notification/lib/notificationUtils.ts:9-20 | keeps, in order, exactly the events that satisfy the intended window |
| NotificationUtils.IsDue | src/entities/notification/lib/notificationUtils.ts:14-16 | with the intended window, an event with a positive lead time is due from its reminder instant, `notificationTime` minutes before its start (inclusive), until one second later (exclusive), if not notified; a lead time of 0 is never due |
| NotificationUtils.UpcomingIsDue | src/entities/notification/lib/notificationUtils.ts:14-17 | every event the code as written selects is also selected by the intended window |
| NotificationUtils.SomeTickIsDue | src/hooks/useNotifications.ts:33 | ticks at most a second apart, running from before the reminder instant until a second after it, include one at which the event is due |
| NotificationUtils.TickInWindow | src/hooks/useNotifications.ts:33 | ticks at most a second apart that start by the opening of a window at least a second long and run past its end have one inside the window |
| NotificationUtils.ExampleDue | src/__tests__/unit/easy.notificationUtils.spec.ts:4-57 | with the intended window the 14:06 event is due at 13:06 and half a second later; it is not due at 13:05, at 13:06 plus one second, at 13:07 or at 13:36 (the test at lines 48-56), and not once notified |
| NotificationUtils.CreateNotificationMessage | src/entities/notification/lib/notificationUtils.ts:25-27 | the message is the lead time in decimal, "분 후 ", the title and " 일정이 시작됩니다.", and each part can be read back |
| NotificationUtils.MessageDeterminesLeadTimeAndTitle | src/entities/notification/lib/notificationUtils.ts:25-27 | two messages are equal only when their lead times and titles are equal |
| NotificationUtils.ExampleMessage | src/__tests__/unit/easy.notificationUtils.spec.ts:59-66 | a 60-minute lead time on "전사 회의" gives "60분 후 전사 회의 일정이 시작됩니다." |
| UseNotifications.RemoveAt | src/hooks/useNotifications.ts:14-16 | removing by index keeps every element except the one at that index, in order; an index outside the list changes nothing |
| UseNotifications.ToNotifications | src/hooks/useNotifications.ts:24-27 | each due event becomes a reminder with its id and its message, in the same order |
| UseNotifications.Ids | src/hooks/useNotifications.ts:30 | the ids of the due events, in the same order |
| UseNotifications.Notifications.constructor | src/hooks/useNotifications.ts:11-12 | the hook starts with no reminders and no notified ids |
| UseNotifications.Notifications.SetNotifications | src/hooks/useNotifications.ts:35 | the exposed setter replaces the reminders and leaves the notified ids alone |
| UseNotifications.Notifications.RemoveNotification | src/hooks/useNotifications.ts:14-16 | dismissing removes exactly the reminder at the index and leaves the notified ids alone |
| UseNotifications.Notifications.CheckUpcomingEvents | src/hooks/useNotifications.ts:18-31 | a check appends one reminder per due event and records their ids, both in event order |
| UseNotifications.NoSecondReminder | src/hooks/useNotifications.ts:18-31 | after a check reminds of an event, no later check, at any time and over any event list, reminds of it again |
| UseNotifications.RemindersMatchDueEvents | src/hooks/useNotifications.ts:22-28 | every reminder a check adds belongs to a due event in the list and carries that event's message |
| UseNotifications.RemoveKeepsOthers | src/hooks/useNotifications.ts:14-16 | dismissing shortens the list by one and keeps the other reminders in order |
| UseCalendarView.Step | src/hooks/useCalendarView.ts:18-21 | 'next' moves forward by one unit and 'prev' back by one |
| UseCalendarView.Navigated | src/hooks/useCalendarView.ts:13-26 | navigation always lands on a valid date |
| UseCalendarView.CalendarView.constructor | src/hooks/useCalendarView.ts:9-10 | the hook starts in month view on today's date |
| UseCalendarView.CalendarView.SetView | src/hooks/useCalendarView.ts:32 | changing the view keeps the date |
| UseCalendarView.CalendarView.SetCurrentDate | src/hooks/useCalendarView.ts:32 | setting the date keeps the view |
| UseCalendarView.CalendarView.Navigate | src/hooks/useCalendarView.ts:13-26 | stepping the day of the month by seven, or setting the day to 1 and stepping the month, gives the navigation target and keeps the view |
| UseCalendarView.WeekStep | src/hooks/useCalendarView.ts:18 | moving the day of the month by seven is moving seven days |
| UseCalendarView.MonthStep | src/hooks/useCalendarView.ts:20-21 | setting day 1 and then moving the month is the month step |
| UseCalendarView.SameDayShifted | src/hooks/useCalendarView.ts:18 | moving the day of the month by `n` lands `n` days away, across month and year ends |
| UseCalendarView.NavigateWeek | src/hooks/useCalendarView.ts:18 | week navigation moves exactly seven days and keeps the weekday |
| UseCalendarView.NavigateMonth | src/hooks/useCalendarView.ts:20-21 | month navigation lands on day 1 of the month one after or one before |
| UseCalendarView.WeekRoundTrip | src/hooks/useCalendarView.ts:18 | next then previous in week view returns to the same date |
| UseCalendarView.MonthRoundTrip | src/hooks/useCalendarView.ts:20-21 | next then previous in month view returns to the first of the starting month |
| UseCalendarView.ExampleWeekNavigation | src/__tests__/hooks/easy.useCalendarView.spec.ts:52-69 | from 2024-10-01 the week navigation reaches 2024-10-08 and 2024-09-24 |
| UseCalendarView.ExampleNextMonth | src/__tests__/hooks/easy.useCalendarView.spec.ts:71-77 | from 2024-10-01 the next month is 2024-11-01 |
| UseCalendarView.ExamplePreviousMonth | src/__tests__/hooks/easy.useCalendarView.spec.ts:79-85 | from 2024-10-01 the previous month is 2024-09-01 |
| UseCalendarView.MonthNavigationAcrossYears | src/hooks/useCalendarView.ts:20-21 | from December the next month is January of the next year, and from January the previous month is December of the previous year |

## Left out

- Time zones. Time values are in one fixed zone. JavaScript reads "YYYY-MM-DD" as UTC but "YYYY-MM-DDTHH:mm" as local time; the model treats both in the same zone. The week and month bounds are therefore compared as local midnights.
- Other date string forms. Strings other than "YYYY-MM-DD" and "YYYY-MM-DDTHH:mm" (seconds, offsets, extended years, and the lenient forms some engines accept) read as Invalid Date.
- DateStrings.ParseDate: the day is checked against the month's length, so "2024-02-30" reads as Invalid Date. The Date Time String Format of ECMA-262 (section 21.4) only bounds the day to 01..31, and V8 rolls "2024-02-30" over to 2024-03-01. The model does not capture that roll-over.
- DateStrings.FormatDate: only four-digit years are formatted.
- Case mapping. `toLowerCase` and `toUpperCase` map only ASCII letters. Unicode case mapping is not modelled; Hangul has no case.
- EventUtils.GetFilteredEvents: the final `return searchedEvents` branch is not modelled. The view is typed as only 'week' or 'month', so the branch cannot be reached.
- Floating point. The minutes left until an event are an exact real quotient, where JavaScript rounds the quotient to a double. For time differences below 2^53 ms (about 285,000 years) the rounded quotient compares with 0 and with an integer lead time exactly as the real one does: the quotient is below 2^38, where a double's spacing is under 1/30000, so rounding cannot cross a whole number that is at least 1/60000 away.
- The clock and the timer. `now` is a parameter of the check. `useInterval`'s one-second timer is a sequence of tick times at most a second apart (`NotificationUtils.SomeTickIsDue`); a timer delayed by more than a second can skip the one-second window, and that is not modelled. React's state batching and stale closures over `notifiedEvents` are not modelled.
- UseNotifications.Notifications.CheckUpcomingEvents: uses the intended reminder window (`GetDueEvents`) instead of the window as written (`GetUpcomingEvents`); see Findings.
- UseCalendarView.CalendarView.SetCurrentDate: requires a valid date, so an Invalid Date passed to the setter is not modelled.
- UseCalendarView.CalendarView.constructor: `currentDate` is a calendar date. The time of day that `new Date()` carries is not modelled; the next line gives its one consequence for the views.
- EventUtils.WeekBounds: the week's bounds are taken as the midnights (`DayStart`) of its first and last dates. `getWeekDates`'s body is not part of this model; it is specified from tests (easy.dateUtils.spec.ts:114-211) that pass midnight dates. If it kept `currentDate`'s time of day, an event on the week's Sunday, whose Date is midnight, would fall before the lower bound and be hidden from the week view. The model does not capture that.
- Holidays. `fetchHolidays` and the holiday state of the calendar view hook are an external lookup and are not modelled.
- `useSearch.ts` and the type declarations are not part of this model. Only the event fields the core reads are kept in `Events`.
- The bodies of `getWeekDates`, `isDateInRange` and `getDaysInMonth` in `dateUtils.ts` are specified from their unit tests in `easy.dateUtils.spec.ts`, not from their code.
- Calendar.MakeDayInRange: states MakeDay, not the `Date` constructor; the constructor's year step (0 to 99 read as 1900 to 1999) is `Calendar.ConstructorYear`, applied in `EventUtils.MonthBounds`.
- Calendar.MakeDay: the TimeClip limit of ECMA-262 (time values beyond ±8.64e15 ms, about 273,790 years from 1970, are Invalid Date) is not modelled, so `setDate` and `setMonth` always give a valid date here; `Calendar.AddDays` likewise.

## Findings

| source | as written | input that shows it | evidently intended | confidence | as-written member | corrected member |
|---|---|---|---|---|---|---|
| src/entities/notification/lib/notificationUtils.ts:14-16 | the minutes left must be both at most and at least the lead time, so only the single millisecond at exactly `notificationTime` minutes before the start qualifies | an event on 2024-11-29 at 14:06 with a 60-minute lead time, checked by the one-second timer at 13:05:59.500 and at 13:06:00.500: neither tick selects it, so no reminder is ever shown | selected during the first second from the reminder instant, one tick of the once-a-second timer: the comments at lines 15-16 ("within the notification time", "not exceeding the notification time") and the test titles at easy.notificationUtils.spec.ts:5 ("exactly arrived") and :48 ("notification time has passed", checked 30 minutes before the start) both point to the reminder instant and nothing after it; so some tick of a timer that ticks at least once a second always falls in the window | high (not executed) | NotificationUtils.AsWrittenMissesOffInstantTicks | NotificationUtils.SomeTickIsDue |
