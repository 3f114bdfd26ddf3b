/** The calendar's event records. An `EventForm` is what the user fills in;
    an `Event` is a saved form together with the id it was stored under. */
module Events {

  /** The `repeat.type` tag: 'none', 'daily', 'weekly', 'monthly' or 'yearly'. */
  datatype RepeatType = NoRepeat | Daily | Weekly | Monthly | Yearly

  datatype RepeatInfo = RepeatInfo(kind: RepeatType, interval: nat)

  /** `date` is meant to be "YYYY-MM-DD" and the two times "HH:mm"; nothing checks it,
      and malformed strings turn into Invalid Dates downstream.
      `notificationTime` is the lead time of the reminder, in minutes. */
  datatype EventForm = EventForm(
    title: string,
    date: string,
    startTime: string,
    endTime: string,
    description: string,
    location: string,
    category: string,
    repeat: RepeatInfo,
    notificationTime: nat)

  datatype Event = Event(id: string, form: EventForm)

  /** The calendar's display granularity. */
  datatype View = Week | Month
}
