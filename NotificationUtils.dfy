/** Reminder selection and reminder text. As written, an event is selected when
    the minutes left until its start, computed as a fraction, are positive, at
    most its lead time and at least its lead time, and its id has not been
    notified yet; the last two comparisons together leave a single instant.
    The intended window, the first second from the reminder instant, is
    modelled beside it and is the one the reminder hook uses. */
module NotificationUtils {
  import opened Optional
  import opened Sequences
  import opened Decimal
  import opened Calendar
  import opened DateStrings
  import opened Events
  import opened EventOverlap

  const Second: int := 1000
  const Minute: int := Second * 60

  /** The Date read from the event's date and start time. */
  function EventStart(e: Event): Instant {
    ParseDateTime(e.form.date, e.form.startTime)
  }

  /** The filter predicate, with `now` as a time value in milliseconds. The minutes
      left are a real quotient; an Invalid start makes every comparison false. The two
      bounds together leave a single instant: the event starts `notificationTime` whole
      minutes from now, that lead time is not zero, and the event has not been notified. */
  function IsUpcoming(e: Event, now: int, notifiedEvents: seq<string>): (r: bool)
    ensures r <==>
      e.form.notificationTime > 0
      && EventStart(e) == At(now + e.form.notificationTime * Minute)
      && e.id !in notifiedEvents
  {
    var eventStart := EventStart(e);
    eventStart.At?
    && (MinutesLeft(eventStart.ms - now, e.form.notificationTime);
        var timeDiff := (eventStart.ms - now) as real / Minute as real;
        timeDiff > 0.0
        && timeDiff <= e.form.notificationTime as real
        && timeDiff >= e.form.notificationTime as real
        && e.id !in notifiedEvents)
  }

  /** Comparing the minutes left, a real quotient of `d` milliseconds, with zero and with
      a whole number of minutes `n` compares `d` with 0 and with `n` minutes. */
  lemma MinutesLeft(d: int, n: nat)
    ensures (d as real / Minute as real > 0.0) <==> d > 0
    ensures (d as real / Minute as real <= n as real) <==> d <= n * Minute
    ensures (d as real / Minute as real >= n as real) <==> d >= n * Minute
    ensures (d as real / Minute as real > n as real - Second as real / Minute as real) <==> d > n * Minute - Second
  {
    assert Minute == 60000 && Second == 1000;
    assert (d as real / 60000.0 <= n as real) <==> d <= n * 60000;
    assert (d as real / 60000.0 >= n as real) <==> d >= n * 60000;
    assert (d as real / 60000.0 > n as real - 1000.0 / 60000.0) <==> d > n * 60000 - 1000;
  }

  /** The events, in order, whose reminder is due at `now`. */
  function GetUpcomingEvents(events: seq<Event>, now: int, notifiedEvents: seq<string>): (r: seq<Event>)
    ensures IsSubsequence(r, events)
    ensures forall e :: e in r ==> e in events && IsUpcoming(e, now, notifiedEvents)
    ensures forall e :: e in events && IsUpcoming(e, now, notifiedEvents) ==> e in r
  {
    Filter(events, (e: Event) => IsUpcoming(e, now, notifiedEvents))
  }

  /** For a given event and notified list, at most one `now` makes the reminder due. */
  lemma {:induction false} DueAtOneInstantOnly(e: Event, now1: int, now2: int, notifiedEvents: seq<string>)
    requires IsUpcoming(e, now1, notifiedEvents) && IsUpcoming(e, now2, notifiedEvents)
    ensures now1 == now2
  {
  }

  /** Every event returned starts after `now`, reads as a valid date-time and has an id
      outside `notifiedEvents`; a zero lead time never produces a reminder. */
  lemma {:induction false} UpcomingEventsAreFutureAndNew(events: seq<Event>, now: int, notifiedEvents: seq<string>)
    ensures forall e :: e in GetUpcomingEvents(events, now, notifiedEvents) ==>
      EventStart(e).At? && EventStart(e).ms > now && e.id !in notifiedEvents && e.form.notificationTime > 0
  {
  }

  /** Once an event's id is in the notified list no check ever returns it again. */
  lemma NotifiedNeverReturned(events: seq<Event>, now: int, notifiedEvents: seq<string>, e: Event)
    requires e.id in notifiedEvents
    ensures e !in GetUpcomingEvents(events, now, notifiedEvents)
    ensures e !in GetDueEvents(events, now, notifiedEvents)
  {
  }

  /** The four date-times the reminder examples use, all on 2024-11-29. */
  lemma ExampleTimes()
    ensures ParseDateTime("2024-11-29", "14:06") == At(TimeValue(Date(2024, 11, 29), Clock(14, 6)))
    ensures ParseDateTime("2024-11-29", "13:06") == At(TimeValue(Date(2024, 11, 29), Clock(13, 6)))
    ensures ParseDateTime("2024-11-29", "13:05") == At(TimeValue(Date(2024, 11, 29), Clock(13, 5)))
    ensures ParseDateTime("2024-11-29", "14:00") == At(TimeValue(Date(2024, 11, 29), Clock(14, 0)))
  {
    assert ParseDateFields("2024-11-29") == Some(Date(2024, 11, 29));
    assert ParseClockFields("14:06") == Some(Clock(14, 6));
    assert ParseClockFields("13:06") == Some(Clock(13, 6));
    assert ParseClockFields("13:05") == Some(Clock(13, 5));
    assert ParseClockFields("14:00") == Some(Clock(14, 0));
  }

  /** The start of the examples' event: 14:06 on 2024-11-29. */
  lemma ExampleStart(e: Event)
    requires e.form.date == "2024-11-29" && e.form.startTime == "14:06"
    ensures EventStart(e) == At(TimeValue(Date(2024, 11, 29), Clock(14, 6)))
  {
    assert ParseDateFields("2024-11-29") == Some(Date(2024, 11, 29));
    assert ParseClockFields("14:06") == Some(Clock(14, 6));
  }

  /** An event at 14:06 with a 60-minute lead time is due at 13:06 but not at 13:05,
      and not at 14:00 once its id has been notified (times on 2024-11-29, as
      `ExampleTimes` reads them). */
  lemma {:induction false} ExampleUpcoming(e: Event)
    requires e.form.date == "2024-11-29" && e.form.startTime == "14:06" && e.form.notificationTime == 60
    ensures IsUpcoming(e, TimeValue(Date(2024, 11, 29), Clock(13, 6)), [])
    ensures !IsUpcoming(e, TimeValue(Date(2024, 11, 29), Clock(13, 5)), [])
    ensures !IsUpcoming(e, TimeValue(Date(2024, 11, 29), Clock(14, 0)), [e.id])
  {
    ExampleStart(e);
  }

  /** Two timer ticks half a second either side of the reminder instant of the 14:06 event
      both miss it: as written, the event is never reminded of. */
  lemma {:induction false} AsWrittenMissesOffInstantTicks(e: Event)
    requires e.form.date == "2024-11-29" && e.form.startTime == "14:06" && e.form.notificationTime == 60
    ensures !IsUpcoming(e, TimeValue(Date(2024, 11, 29), Clock(13, 6)) - 500, [])
    ensures !IsUpcoming(e, TimeValue(Date(2024, 11, 29), Clock(13, 6)) + 500, [])
  {
    ExampleStart(e);
  }

  /** As written, a tick reminds only when it lands exactly on the reminder instant. */
  lemma {:induction false} AsWrittenNeedsExactTick(e: Event, ticks: seq<int>, notifiedEvents: seq<string>)
    requires EventStart(e).At?
    requires forall i :: 0 <= i < |ticks| ==> ticks[i] != EventStart(e).ms - e.form.notificationTime * Minute
    ensures forall i :: 0 <= i < |ticks| ==> !IsUpcoming(e, ticks[i], notifiedEvents)
  {
  }

  /** The filter predicate the comparisons were meant to express: the event has not
      started yet, its reminder instant `notificationTime` minutes before the start has
      been reached (line 15, "within the notification time") and has not been passed by
      more than one tick of the once-a-second timer (line 16, "not exceeding the
      notification time"), and it has not been notified. The window is one second wide,
      opening at the reminder instant; a lead time of 0 leaves it empty. */
  function IsDue(e: Event, now: int, notifiedEvents: seq<string>): (r: bool)
    ensures r <==>
      EventStart(e).At? && e.form.notificationTime > 0
      && EventStart(e).ms - e.form.notificationTime * Minute <= now
      && now < EventStart(e).ms - e.form.notificationTime * Minute + Second
      && e.id !in notifiedEvents
  {
    var eventStart := EventStart(e);
    eventStart.At?
    && (MinutesLeft(eventStart.ms - now, e.form.notificationTime);
        var timeDiff := (eventStart.ms - now) as real / Minute as real;
        timeDiff > 0.0
        && timeDiff <= e.form.notificationTime as real
        && timeDiff > e.form.notificationTime as real - Second as real / Minute as real
        && e.id !in notifiedEvents)
  }

  /** The events, in order, whose reminder is due at `now` with the intended window. */
  function GetDueEvents(events: seq<Event>, now: int, notifiedEvents: seq<string>): (r: seq<Event>)
    ensures IsSubsequence(r, events)
    ensures forall e :: e in r ==> e in events && IsDue(e, now, notifiedEvents)
    ensures forall e :: e in events && IsDue(e, now, notifiedEvents) ==> e in r
  {
    Filter(events, (e: Event) => IsDue(e, now, notifiedEvents))
  }

  /** Every reminder the code as written gives is also given by the intended window. */
  lemma {:induction false} UpcomingIsDue(e: Event, now: int, notifiedEvents: seq<string>)
    requires IsUpcoming(e, now, notifiedEvents)
    ensures IsDue(e, now, notifiedEvents)
  {
  }

  /** A timer that ticks at least once a second from before the reminder instant until a
      second after it reminds of every event with a lead time of at least a minute. */
  lemma {:induction false} SomeTickIsDue(e: Event, ticks: seq<int>, notifiedEvents: seq<string>)
    requires EventStart(e).At? && e.form.notificationTime > 0 && e.id !in notifiedEvents
    requires |ticks| > 0 && forall i :: 0 <= i < |ticks| - 1 ==> ticks[i] < ticks[i + 1] <= ticks[i] + Second
    requires ticks[0] <= EventStart(e).ms - e.form.notificationTime * Minute
    requires ticks[|ticks| - 1] >= EventStart(e).ms - e.form.notificationTime * Minute + Second
    ensures exists i :: 0 <= i < |ticks| && IsDue(e, ticks[i], notifiedEvents)
  {
    var from := EventStart(e).ms - e.form.notificationTime * Minute;
    var i := TickInWindow(ticks, from, from + Second);
    assert IsDue(e, ticks[i], notifiedEvents);
  }

  /** Ticks at most a second apart that start by `from` and run until `end`, a window at
      least a second long, have one inside [from, end). */
  lemma {:induction false} TickInWindow(ticks: seq<int>, from: int, end: int) returns (i: nat)
    requires from + Second <= end
    requires |ticks| > 0 && forall k :: 0 <= k < |ticks| - 1 ==> ticks[k] < ticks[k + 1] <= ticks[k] + Second
    requires ticks[0] <= from && ticks[|ticks| - 1] >= end
    ensures i < |ticks| && from <= ticks[i] < end
    decreases |ticks|
  {
    if ticks[0] == from {
      i := 0;
    } else if ticks[1] >= from {
      assert ticks[1] <= ticks[0] + Second;
      i := 1;
    } else {
      var j := TickInWindow(ticks[1..], from, end);
      assert ticks[1..][j] == ticks[j + 1];
      i := j + 1;
    }
  }

  /** With the intended window a tick at the reminder instant of the 14:06 event, or half
      a second after it, reminds of it; a tick a minute early, a minute late or half an
      hour late does not, nor does one after it was notified. */
  lemma {:induction false} ExampleDue(e: Event)
    requires e.form.date == "2024-11-29" && e.form.startTime == "14:06" && e.form.notificationTime == 60
    ensures IsDue(e, TimeValue(Date(2024, 11, 29), Clock(13, 6)), [])
    ensures IsDue(e, TimeValue(Date(2024, 11, 29), Clock(13, 6)) + 500, [])
    ensures !IsDue(e, TimeValue(Date(2024, 11, 29), Clock(13, 5)), [])
    ensures !IsDue(e, TimeValue(Date(2024, 11, 29), Clock(13, 7)), [])
    ensures !IsDue(e, TimeValue(Date(2024, 11, 29), Clock(13, 36)), [])
    ensures !IsDue(e, TimeValue(Date(2024, 11, 29), Clock(13, 6)) + Second, [])
    ensures !IsDue(e, TimeValue(Date(2024, 11, 29), Clock(13, 6)), [e.id])
  {
    ExampleStart(e);
  }

  const MinutesLater: string := "분 후 "
  const StartsSoon: string := " 일정이 시작됩니다."

  /** The lead time in minutes, then "분 후 ", the title and " 일정이 시작됩니다.": the
      message opens with the lead time in decimal, followed by a non-digit, and the title
      is what lies between the two fixed phrases. */
  function CreateNotificationMessage(e: Event): (m: string)
    ensures var k := |NatToString(e.form.notificationTime)|;
      k + |MinutesLater| + |StartsSoon| <= |m|
      && AllDigits(m[..k]) && DigitsValue(m[..k]) == e.form.notificationTime
      && !IsDigit(m[k])
      && m[k..k + |MinutesLater|] == MinutesLater
      && m[k + |MinutesLater|..|m| - |StartsSoon|] == e.form.title
      && m[|m| - |StartsSoon|..] == StartsSoon
  {
    var digits := NatToString(e.form.notificationTime);
    var m := digits + MinutesLater + e.form.title + StartsSoon;
    var k := |digits|;
    assert m == digits + (MinutesLater + e.form.title + StartsSoon);
    assert m[..k] == digits;
    assert m[k] == MinutesLater[0];
    assert m[k..k + |MinutesLater|] == MinutesLater;
    assert m[k + |MinutesLater|..|m| - |StartsSoon|] == e.form.title;
    assert m[|m| - |StartsSoon|..] == StartsSoon;
    m
  }

  /** Two reminders read alike only when they announce the same lead time and title. */
  lemma {:induction false} MessageDeterminesLeadTimeAndTitle(a: Event, b: Event)
    requires CreateNotificationMessage(a) == CreateNotificationMessage(b)
    ensures a.form.notificationTime == b.form.notificationTime && a.form.title == b.form.title
  {
    var m := CreateNotificationMessage(a);
    var ka := |NatToString(a.form.notificationTime)|;
    var kb := |NatToString(b.form.notificationTime)|;
    if ka < kb {
      assert false;
    } else if kb < ka {
      assert false;
    }
  }

  /** The reminder for a 60-minute lead time on "전사 회의". */
  lemma ExampleMessage(e: Event)
    requires e.form.notificationTime == 60 && e.form.title == "전사 회의"
    ensures CreateNotificationMessage(e) == "60분 후 전사 회의 일정이 시작됩니다."
  {
    assert NatToString(60) == "60";
  }
}
