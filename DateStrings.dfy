/** JavaScript `Date` values as integer time values (milliseconds since
    1970-01-01T00:00 in one fixed zone) with an Invalid value standing for
    "Invalid Date" (NaN), and the two forms of the ECMAScript Date Time String
    Format (ECMA-262, section 21.4, Date Objects) the calendar feeds to
    `new Date(string)`: "YYYY-MM-DD" and "YYYY-MM-DDTHH:mm". */
module DateStrings {
  import opened Optional
  import opened Decimal
  import opened Calendar

  const MsPerMinute: int := 60000
  const MsPerDay: int := 86400000

  /** A time value, or the NaN of an Invalid Date. */
  datatype Instant = Invalid | At(ms: int)

  /** `a < b` on two Date objects: every comparison with NaN is false. */
  predicate Lt(a: Instant, b: Instant) {
    a.At? && b.At? && a.ms < b.ms
  }

  /** `a <= b` on two Date objects: every comparison with NaN is false. */
  predicate Le(a: Instant, b: Instant) {
    a.At? && b.At? && a.ms <= b.ms
  }

  /** The "HH:mm" part of a date-time string. */
  datatype Clock = Clock(hour: int, minute: int)

  /** ECMA-262 allows hours 00..24, with 24 only as "24:00" (the end of the day). */
  predicate ValidClock(c: Clock) {
    0 <= c.hour <= 24 && 0 <= c.minute <= 59 && (c.hour == 24 ==> c.minute == 0)
  }

  /** Local midnight at the start of a civil date. */
  function DayStart(d: Date): (t: Instant)
    requires 1 <= d.month <= 12
    ensures t.At?
  {
    At(DayNumber(d) * MsPerDay)
  }

  /** The time value of a date and a clock time. */
  function TimeValue(d: Date, c: Clock): int
    requires 1 <= d.month <= 12
  {
    DayNumber(d) * MsPerDay + (60 * c.hour + c.minute) * MsPerMinute
  }

  predicate DateShaped(s: string) {
    |s| == 10
    && IsDigit(s[0]) && IsDigit(s[1]) && IsDigit(s[2]) && IsDigit(s[3]) && s[4] == '-'
    && IsDigit(s[5]) && IsDigit(s[6]) && s[7] == '-' && IsDigit(s[8]) && IsDigit(s[9])
  }

  predicate ClockShaped(s: string) {
    |s| == 5 && IsDigit(s[0]) && IsDigit(s[1]) && s[2] == ':' && IsDigit(s[3]) && IsDigit(s[4])
  }

  /** Reads "YYYY-MM-DD"; None when the shape is wrong or the day does not exist. */
  function ParseDateFields(s: string): Option<Date> {
    if !DateShaped(s) then None
    else
      var d := Date(100 * TwoDigits(s[0], s[1]) + TwoDigits(s[2], s[3]), TwoDigits(s[5], s[6]), TwoDigits(s[8], s[9]));
      if ValidDate(d) then Some(d) else None
  }

  /** Reads "HH:mm"; None when the shape is wrong or the time is out of range. */
  function ParseClockFields(s: string): Option<Clock> {
    if !ClockShaped(s) then None
    else
      var c := Clock(TwoDigits(s[0], s[1]), TwoDigits(s[3], s[4]));
      if ValidClock(c) then Some(c) else None
  }

  /** `new Date(s)` on a date-only or a date-time string; Invalid for anything else. */
  function ParseDate(s: string): (t: Instant)
    ensures t.At? ==> |s| == 10 || (|s| == 16 && s[10] == 'T')
    ensures |s| == 10 ==> (t.At? <==> ParseDateFields(s).Some?)
    ensures ParseDateFields(s).Some? ==> t == DayStart(ParseDateFields(s).value)
  {
    if |s| == 10 then
      match ParseDateFields(s)
      case Some(d) => DayStart(d)
      case None => Invalid
    else if |s| == 16 && s[10] == 'T' then
      match (ParseDateFields(s[..10]), ParseClockFields(s[11..]))
      case (Some(d), Some(c)) => At(TimeValue(d, c))
      case _ => Invalid
    else Invalid
  }

  /** "YYYY-MM-DD" with zero padding, for four-digit years. */
  function FormatDate(d: Date): (s: string)
    requires ValidDate(d) && 0 <= d.year <= 9999
    ensures DateShaped(s)
  {
    Pad4(d.year) + "-" + Pad2(d.month) + "-" + Pad2(d.day)
  }

  /** "HH:mm" with zero padding. */
  function FormatClock(c: Clock): (s: string)
    requires ValidClock(c)
    ensures ClockShaped(s)
  {
    Pad2(c.hour) + ":" + Pad2(c.minute)
  }

  lemma Pad2OfDigits(a: char, b: char)
    requires IsDigit(a) && IsDigit(b)
    ensures Pad2(TwoDigits(a, b)) == [a, b]
  {
    assert TwoDigits(a, b) / 10 == DigitValue(a);
    assert TwoDigits(a, b) % 10 == DigitValue(b);
  }

  /** Reading a formatted date gives the date back. */
  lemma ParseFormatDate(d: Date)
    requires ValidDate(d) && 0 <= d.year <= 9999
    ensures ParseDateFields(FormatDate(d)) == Some(d)
  {
  }

  /** A date string that reads successfully is exactly the formatting of what it reads as. */
  lemma {:induction false} FormatParseDate(s: string)
    requires ParseDateFields(s).Some?
    ensures var d := ParseDateFields(s).value; 0 <= d.year <= 9999 && FormatDate(d) == s
  {
    var d := ParseDateFields(s).value;
    Pad2OfDigits(s[0], s[1]);
    Pad2OfDigits(s[2], s[3]);
    Pad2OfDigits(s[5], s[6]);
    Pad2OfDigits(s[8], s[9]);
    assert d.year / 100 == TwoDigits(s[0], s[1]) && d.year % 100 == TwoDigits(s[2], s[3]);
    assert Pad4(d.year) == s[..4];
    assert Pad2(d.month) == s[5..7];
    assert Pad2(d.day) == s[8..];
    assert s == s[..4] + "-" + s[5..7] + "-" + s[8..];
  }

  /** Reading a formatted clock time gives it back. */
  lemma ParseFormatClock(c: Clock)
    requires ValidClock(c)
    ensures ParseClockFields(FormatClock(c)) == Some(c)
  {
  }

  /** A clock string that reads successfully is exactly the formatting of what it reads as. */
  lemma {:induction false} FormatParseClock(s: string)
    requires ParseClockFields(s).Some?
    ensures FormatClock(ParseClockFields(s).value) == s
  {
    Pad2OfDigits(s[0], s[1]);
    Pad2OfDigits(s[3], s[4]);
    assert FormatClock(ParseClockFields(s).value) == s;
  }

  /** A date-only string reads as local midnight of that date. */
  lemma ParseDateOnly(d: Date)
    requires ValidDate(d) && 0 <= d.year <= 9999
    ensures ParseDate(FormatDate(d)) == DayStart(d)
  {
    ParseFormatDate(d);
  }

  /** No 'T' can stand inside the date or the clock part. */
  lemma NoSeparatorInside(s: string)
    ensures DateShaped(s) ==> forall i :: 0 <= i < |s| ==> s[i] != 'T'
    ensures ClockShaped(s) ==> forall i :: 0 <= i < |s| ==> s[i] != 'T'
  {
  }
}
