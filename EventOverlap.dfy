/** Scheduling-conflict detection: an event's time range is built from its
    date and its two clock times, two ranges overlap when each starts
    strictly before the other ends, and a new event is checked against the
    saved ones. */
module EventOverlap {
  import opened Optional
  import opened Sequences
  import opened Calendar
  import opened DateStrings
  import opened Events

  datatype DateRange = DateRange(start: Instant, end: Instant)

  /** The Date read from the date and the time joined by a 'T': valid exactly when the
      date is a "YYYY-MM-DD" that exists and the time an "HH:mm" within range, and then
      that clock time on that day. */
  function ParseDateTime(date: string, time: string): (t: Instant)
    ensures t == match (ParseDateFields(date), ParseClockFields(time))
      case (Some(d), Some(c)) => At(TimeValue(d, c))
      case _ => Invalid
  {
    JoinedDateTime(date, time);
    ParseDate(date + "T" + time)
  }

  /** The event's start and end instants on its date; a malformed date makes both
      Invalid, and each end is valid exactly when the date and its own time are. */
  function ConvertEventToDateRange(f: EventForm): (r: DateRange)
    ensures ParseDateFields(f.date).None? ==> r == DateRange(Invalid, Invalid)
    ensures r.start.At? <==> ParseDateFields(f.date).Some? && ParseClockFields(f.startTime).Some?
    ensures r.end.At? <==> ParseDateFields(f.date).Some? && ParseClockFields(f.endTime).Some?
  {
    DateRange(ParseDateTime(f.date, f.startTime), ParseDateTime(f.date, f.endTime))
  }

  /** Millisecond `t` lies in the half-open range [start, end). */
  predicate Covers(range: DateRange, t: int) {
    Le(range.start, At(t)) && Lt(At(t), range.end)
  }

  /** A range that starts strictly before it ends. */
  predicate NonEmpty(range: DateRange) {
    Lt(range.start, range.end)
  }

  /** Each range starts strictly before the other ends. Two ranges that share an instant
      always overlap; two overlapping ranges share an instant when neither is empty (an
      inverted range, ending before it starts, can overlap without sharing one); and
      overlapping ranges have four valid ends. */
  function IsOverlapping(a: EventForm, b: EventForm): (r: bool)
    ensures (exists t :: Covers(ConvertEventToDateRange(a), t) && Covers(ConvertEventToDateRange(b), t)) ==> r
    ensures r && NonEmpty(ConvertEventToDateRange(a)) && NonEmpty(ConvertEventToDateRange(b)) ==>
      exists t :: Covers(ConvertEventToDateRange(a), t) && Covers(ConvertEventToDateRange(b), t)
    ensures r ==> ConvertEventToDateRange(a).start.At? && ConvertEventToDateRange(a).end.At?
                  && ConvertEventToDateRange(b).start.At? && ConvertEventToDateRange(b).end.At?
  {
    var r1 := ConvertEventToDateRange(a);
    var r2 := ConvertEventToDateRange(b);
    SharedInstant(r1, r2);
    Lt(r1.start, r2.end) && Lt(r2.start, r1.end)
  }

  /** Two ranges that share an instant each start before the other ends, and two
      non-empty ranges that each start before the other ends share the later start. */
  lemma SharedInstant(r1: DateRange, r2: DateRange)
    ensures (exists t :: Covers(r1, t) && Covers(r2, t)) ==> Lt(r1.start, r2.end) && Lt(r2.start, r1.end)
    ensures Lt(r1.start, r2.end) && Lt(r2.start, r1.end) && NonEmpty(r1) && NonEmpty(r2) ==>
      exists t :: Covers(r1, t) && Covers(r2, t)
  {
    if Lt(r1.start, r2.end) && Lt(r2.start, r1.end) && NonEmpty(r1) && NonEmpty(r2) {
      var t := if r1.start.ms < r2.start.ms then r2.start.ms else r1.start.ms;
      assert Covers(r1, t) && Covers(r2, t);
    }
  }

  /** An event entered as 15:06-14:06 overlaps one at 06:00-15:36 on the same day as
      written, though it ends before it starts and so shares no instant with it. */
  lemma {:induction false} InvertedRangeOverlaps(a: EventForm, b: EventForm)
    requires ParseDateFields(a.date).Some? && b.date == a.date
    requires a.startTime == "15:06" && a.endTime == "14:06"
    requires b.startTime == "06:00" && b.endTime == "15:36"
    ensures IsOverlapping(a, b) && !NonEmpty(ConvertEventToDateRange(a))
  {
    ExampleClockTimes();
    var d := ParseDateFields(a.date).value;
    var late := At(TimeValue(d, Clock(15, 6)));
    var early := At(TimeValue(d, Clock(14, 6)));
    assert ConvertEventToDateRange(a) == DateRange(late, early);
    assert ConvertEventToDateRange(b) == DateRange(At(TimeValue(d, Clock(6, 0))), At(TimeValue(d, Clock(15, 36))));
  }

  /** The event being saved: either an existing event being edited, or a new form
      that has no id yet, so its id matches no saved event. */
  datatype NewEvent = Saved(event: Event) | Draft(form: EventForm) {

    function Id(): Option<string> {
      match this
      case Saved(e) => Some(e.id)
      case Draft(_) => None
    }

    function Form(): EventForm {
      match this
      case Saved(e) => e.form
      case Draft(f) => f
    }
  }

  /** A saved event other than the one being edited whose range overlaps it. */
  predicate ConflictsWith(e: Event, newEvent: NewEvent) {
    Some(e.id) != newEvent.Id() && IsOverlapping(e.form, newEvent.Form())
  }

  /** The saved events, in order, that clash with `newEvent`, leaving out `newEvent` itself. */
  function FindOverlappingEvents(newEvent: NewEvent, events: seq<Event>): (r: seq<Event>)
    ensures IsSubsequence(r, events)
    ensures forall e :: e in r ==> e in events && IsOverlapping(e.form, newEvent.Form())
    ensures forall e :: e in r ==> newEvent.Saved? ==> e.id != newEvent.event.id
    ensures forall e :: (e in events && IsOverlapping(e.form, newEvent.Form())
                         && (newEvent.Saved? ==> e.id != newEvent.event.id)) ==> e in r
  {
    Filter(events, (e: Event) => ConflictsWith(e, newEvent))
  }

  /** Joining a date and a time with a 'T' and reading the result reads the two parts
      separately; the separator can never be taken for part of a field. */
  lemma {:induction false} JoinedDateTime(date: string, time: string)
    ensures ParseDate(date + "T" + time) ==
      match (ParseDateFields(date), ParseClockFields(time))
      case (Some(d), Some(c)) => At(TimeValue(d, c))
      case _ => Invalid
  {
    var s := date + "T" + time;
    if |date| == 10 {
      assert s[..10] == date && s[10] == 'T';
      if |time| == 5 {
        assert s[11..] == time;
      }
    } else if |s| == 16 && s[10] == 'T' {
      if |date| < 10 {
        NoSeparatorInside(s[..10]);
        assert s[..10][|date|] == 'T';
      } else {
        NoSeparatorInside(s[11..]);
        assert s[11..][|date| - 11] == 'T';
      }
    } else if |s| == 10 {
      NoSeparatorInside(s);
      assert s[|date|] == 'T';
    }
  }

  /** A non-existent day, an out-of-range time and an empty date all read as Invalid Date. */
  lemma MalformedDateTimes()
    ensures ParseDateTime("2024-07-99", "14:30") == Invalid
    ensures ParseDateTime("2024-07-01", "99:99") == Invalid
    ensures ParseDateTime("", "14:30") == Invalid
    ensures ParseDateTime("2024-11-33", "14:06") == Invalid
    ensures ParseDateTime("2024-11-01", "54:06") == Invalid
  {
  }

  /** "2024-07-01" with "14:30" is 14:30 on 1 July 2024. */
  lemma WellFormedDateTime()
    ensures ParseDateTime("2024-07-01", "14:30") == At(TimeValue(Date(2024, 7, 1), Clock(14, 30)))
  {
  }

  /** Minutes since midnight of a clock time. */
  function MinuteOfDay(c: Clock): int {
    60 * c.hour + c.minute
  }

  /** For a well-formed event, both ends fall on the event's date and the range is as
      long as the difference between the two clock times; a malformed date makes
      both ends Invalid. */
  lemma {:induction false} RangeOfEvent(f: EventForm)
    ensures ParseDateFields(f.date).None? ==>
      ConvertEventToDateRange(f) == DateRange(Invalid, Invalid)
    ensures ParseDateFields(f.date).Some? && ParseClockFields(f.startTime).Some? && ParseClockFields(f.endTime).Some? ==>
      var day := ParseDateFields(f.date).value;
      var r := ConvertEventToDateRange(f);
      r.start.At? && r.end.At?
      && DayStart(day).ms <= r.start.ms <= DayStart(day).ms + MsPerDay
      && DayStart(day).ms <= r.end.ms <= DayStart(day).ms + MsPerDay
      && r.end.ms - r.start.ms ==
         (MinuteOfDay(ParseClockFields(f.endTime).value) - MinuteOfDay(ParseClockFields(f.startTime).value)) * MsPerMinute
  {
  }

  /** Overlap is the same relation whichever event comes first. */
  lemma OverlapIsSymmetric(a: EventForm, b: EventForm)
    ensures IsOverlapping(a, b) == IsOverlapping(b, a)
  {
  }

  /** Overlap needs four valid instants: an Invalid Date anywhere rules it out. */
  lemma InvalidNeverOverlaps(a: EventForm, b: EventForm)
    requires ConvertEventToDateRange(a).start == Invalid || ConvertEventToDateRange(a).end == Invalid
          || ConvertEventToDateRange(b).start == Invalid || ConvertEventToDateRange(b).end == Invalid
    ensures !IsOverlapping(a, b)
  {
  }

  /** Two events on the same well-formed date overlap exactly when their clock
      intervals do: one ending when the other starts is no conflict. */
  lemma {:induction false} SameDayOverlap(a: EventForm, b: EventForm)
    requires a.date == b.date && ParseDateFields(a.date).Some?
    requires ParseClockFields(a.startTime).Some? && ParseClockFields(a.endTime).Some?
    requires ParseClockFields(b.startTime).Some? && ParseClockFields(b.endTime).Some?
    ensures IsOverlapping(a, b) <==>
      MinuteOfDay(ParseClockFields(a.startTime).value) < MinuteOfDay(ParseClockFields(b.endTime).value)
      && MinuteOfDay(ParseClockFields(b.startTime).value) < MinuteOfDay(ParseClockFields(a.endTime).value)
  {
  }

  /** A draft has no id, so nothing is left out because of its id. */
  lemma {:induction false} DraftExcludesNothingById(f: EventForm, events: seq<Event>)
    ensures FindOverlappingEvents(Draft(f), events) == Filter(events, (e: Event) => IsOverlapping(e.form, f))
  {
    FilterCongruent(events, (e: Event) => ConflictsWith(e, Draft(f)), (e: Event) => IsOverlapping(e.form, f));
  }

  /** The clock times the overlap examples use. */
  lemma ExampleClockTimes()
    ensures ParseClockFields("14:06") == Some(Clock(14, 6)) && ParseClockFields("15:06") == Some(Clock(15, 6))
    ensures ParseClockFields("14:36") == Some(Clock(14, 36)) && ParseClockFields("15:36") == Some(Clock(15, 36))
    ensures ParseClockFields("20:36") == Some(Clock(20, 36)) && ParseClockFields("22:36") == Some(Clock(22, 36))
    ensures ParseClockFields("06:00") == Some(Clock(6, 0)) && ParseClockFields("06:50") == Some(Clock(6, 50))
  {
  }

  /** The meetings 14:06-15:06 and 14:36-15:36 on one day clash; 14:06-15:06 and
      20:36-22:36 do not, and neither does a morning run at 06:00-06:50. */
  lemma {:induction false} ExampleOverlaps(a: EventForm, b: EventForm, c: EventForm, run: EventForm)
    requires ParseDateFields(a.date).Some? && b.date == a.date && c.date == a.date && run.date == a.date
    requires a.startTime == "14:06" && a.endTime == "15:06"
    requires b.startTime == "14:36" && b.endTime == "15:36"
    requires c.startTime == "20:36" && c.endTime == "22:36"
    requires run.startTime == "06:00" && run.endTime == "06:50"
    ensures IsOverlapping(a, b) && !IsOverlapping(a, c)
    ensures !IsOverlapping(run, a) && !IsOverlapping(run, c)
  {
    ExampleClockTimes();
    SameDayOverlap(a, b);
    SameDayOverlap(a, c);
    SameDayOverlap(run, a);
    SameDayOverlap(run, c);
  }

  /** Checking a new event against two saved events keeps each one that conflicts with it,
      in order. */
  lemma {:induction false} ConflictsAmongTwo(newEvent: NewEvent, x: Event, y: Event)
    ensures FindOverlappingEvents(newEvent, [x, y]) ==
      (if ConflictsWith(x, newEvent) then [x] else []) + (if ConflictsWith(y, newEvent) then [y] else [])
  {
    var p := (e: Event) => ConflictsWith(e, newEvent);
    assert [x, y][1..] == [y] && [y][1..] == [];
    assert Filter([y], p) == if p(y) then [y] else [];
  }

  /** Saving the 14:36-15:36 meeting against the saved 14:06-15:06 meeting and the
      20:36-22:36 study reports only the first; the morning run reports nothing. */
  lemma {:induction false} ExampleConflicts(a: Event, c: Event, b: Event, run: Event)
    requires ParseDateFields(a.form.date).Some? && b.form.date == a.form.date
    requires c.form.date == a.form.date && run.form.date == a.form.date
    requires a.form.startTime == "14:06" && a.form.endTime == "15:06"
    requires b.form.startTime == "14:36" && b.form.endTime == "15:36"
    requires c.form.startTime == "20:36" && c.form.endTime == "22:36"
    requires run.form.startTime == "06:00" && run.form.endTime == "06:50"
    requires b.id != a.id
    ensures FindOverlappingEvents(Saved(b), [a, c]) == [a]
    ensures FindOverlappingEvents(Saved(run), [a, c]) == []
  {
    ExampleOverlaps(a.form, b.form, c.form, run.form);
    ExampleClockTimes();
    SameDayOverlap(c.form, b.form);
    OverlapIsSymmetric(a.form, b.form);
    OverlapIsSymmetric(a.form, run.form);
    OverlapIsSymmetric(c.form, run.form);
    assert ConflictsWith(a, Saved(b)) && !ConflictsWith(c, Saved(b));
    assert !ConflictsWith(a, Saved(run)) && !ConflictsWith(c, Saved(run));
    ConflictsAmongTwo(Saved(b), a, c);
    ConflictsAmongTwo(Saved(run), a, c);
  }
}
