/** The reminder hook's state: the reminders on screen and the ids of the
    events already reminded of. A periodic check appends the reminders that
    have come due; the user dismisses a reminder by its position. */
module UseNotifications {
  import opened Sequences
  import opened Events
  import opened NotificationUtils

  datatype Notification = Notification(id: string, message: string)

  /** Every element except the one at position `index`, kept in order. */
  function RemoveAt<T>(s: seq<T>, index: int): (r: seq<T>)
    ensures 0 <= index < |s| ==> r == s[..index] + s[index + 1..]
    ensures !(0 <= index < |s|) ==> r == s
    decreases |s|
  {
    if s == [] then []
    else
      var rest := RemoveAt(s[1..], index - 1);
      if index == 0 then rest else [s[0]] + rest
  }

  /** The reminder shown for each event that came due. */
  function ToNotifications(events: seq<Event>): (r: seq<Notification>)
    ensures |r| == |events|
    ensures forall k :: 0 <= k < |events| ==>
      r[k] == Notification(events[k].id, CreateNotificationMessage(events[k]))
  {
    seq(|events|, k requires 0 <= k < |events| => Notification(events[k].id, CreateNotificationMessage(events[k])))
  }

  function Ids(events: seq<Event>): (r: seq<string>)
    ensures |r| == |events|
    ensures forall k :: 0 <= k < |events| ==> r[k] == events[k].id
  {
    seq(|events|, k requires 0 <= k < |events| => events[k].id)
  }

  class Notifications {
    var notifications: seq<Notification>
    var notifiedEvents: seq<string>

    constructor()
      ensures notifications == [] && notifiedEvents == []
    {
      notifications := [];
      notifiedEvents := [];
    }

    /** Replaces the list of reminders, as the exposed state setter does. */
    method SetNotifications(ns: seq<Notification>)
      modifies this
      ensures notifications == ns && notifiedEvents == old(notifiedEvents)
    {
      notifications := ns;
    }

    /** Dismisses the reminder at `index`; an index outside the list changes nothing. */
    method RemoveNotification(index: int)
      modifies this
      ensures notifications == RemoveAt(old(notifications), index)
      ensures notifiedEvents == old(notifiedEvents)
    {
      notifications := RemoveAt(notifications, index);
    }

    /** One tick of the timer at time value `now`: reminds of every event that has
        come due and records its id so that it is not reminded of again. The
        intended window, the first second from the reminder instant, is used
        here; the window as written is kept beside it as `GetUpcomingEvents`. */
    method CheckUpcomingEvents(events: seq<Event>, now: int)
      modifies this
      ensures var upcomingEvents := GetDueEvents(events, now, old(notifiedEvents));
        notifications == old(notifications) + ToNotifications(upcomingEvents)
        && notifiedEvents == old(notifiedEvents) + Ids(upcomingEvents)
    {
      var upcomingEvents := GetDueEvents(events, now, notifiedEvents);
      notifications := notifications + ToNotifications(upcomingEvents);
      notifiedEvents := notifiedEvents + Ids(upcomingEvents);
    }
  }

  /** After a check has reminded of an event, no later check over any list of events,
      at any time, reminds of it again. */
  lemma {:induction false} NoSecondReminder(events: seq<Event>, now: int, notifiedEvents: seq<string>,
                                            laterEvents: seq<Event>, later: int, e: Event)
    requires e in GetDueEvents(events, now, notifiedEvents)
    ensures e !in GetDueEvents(laterEvents, later, notifiedEvents + Ids(GetDueEvents(events, now, notifiedEvents)))
  {
    var up := GetDueEvents(events, now, notifiedEvents);
    var k :| 0 <= k < |up| && up[k] == e;
    assert Ids(up)[k] == e.id;
    NotifiedNeverReturned(laterEvents, later, notifiedEvents + Ids(up), e);
  }

  /** Every reminder added by a check names an event that came due, with its message. */
  lemma {:induction false} RemindersMatchDueEvents(events: seq<Event>, now: int, notifiedEvents: seq<string>, n: Notification)
    requires n in ToNotifications(GetDueEvents(events, now, notifiedEvents))
    ensures exists e :: (e in events && IsDue(e, now, notifiedEvents)
                         && n == Notification(e.id, CreateNotificationMessage(e)))
  {
    var up := GetDueEvents(events, now, notifiedEvents);
    var k :| 0 <= k < |up| && ToNotifications(up)[k] == n;
    assert up[k] in up;
  }

  /** Dismissing one reminder keeps all the others in their order. */
  lemma {:induction false} RemoveKeepsOthers<T>(s: seq<T>, index: int)
    requires 0 <= index < |s|
    ensures |RemoveAt(s, index)| == |s| - 1
    ensures IsSubsequence(RemoveAt(s, index), s)
    decreases |s|
  {
    if index > 0 {
      RemoveKeepsOthers(s[1..], index - 1);
      assert RemoveAt(s, index)[1..] == RemoveAt(s[1..], index - 1);
    } else {
      SubsequenceReflexive(s[1..]);
    }
  }
}
