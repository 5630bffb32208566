/** The scheduled-message controller of server/controllers/scheduledMessageController.js:
    creating a scheduled message inside its time window, listing a user's pending ones,
    cancelling, rescheduling and sending one by hand. Each operation is a method on the
    store, proved against a function that gives its reply and the new collection. */
module Scheduling {
  import opened Common
  import opened Models
  import opened Store
  import Sweep

  /** The one-second margin a new scheduled time must lie beyond now. */
  const SecondMs: int := 1000
  /** The farthest a message may be scheduled ahead: 365 days. */
  const YearMs: int := 365 * 24 * 60 * 60 * 1000

  const MissingFields := "Missing required fields: from, to, message, scheduledTime"
  const TooSoon := "Scheduled time must be at least 1 second in the future"
  const TooFar := "Cannot schedule messages more than 1 year in the future"
  /** The start of the reply when the store rejects the new record; the store's own
      error text that follows it is not modelled. */
  const CreateFailed := "Error scheduling message: "
  const Scheduled := "Message scheduled successfully"
  const NotFound := "Scheduled message not found"
  const Unauthorized := "Unauthorized"
  const CancelledMsg := "Scheduled message cancelled"
  const NotInFuture := "New scheduled time must be in the future"
  const NotPending := "Can only reschedule pending messages"
  const Rescheduled := "Message rescheduled successfully"
  const InvalidScheduled := "Invalid scheduled message"

  /** Every field of the request is present and truthy (an absent field is None; the
      empty message and the scheduled time 0 are falsy). */
  predicate Complete(from: Option<Id>, to: Option<Id>, message: Option<string>, t: Option<Time>) {
    from.Some? && to.Some? && message.Some? && message.value != "" && t.Some? && t.value != 0
  }

  /** The window a new scheduled time must fall in: more than one second after now and
      at most a year after it. */
  predicate InWindow(t: Time, now: Time)
    ensures InWindow(t, now) ==> t > now + SecondMs && !(t > now + YearMs)
    ensures t <= now + SecondMs || t > now + YearMs ==> !InWindow(t, now)
  {
    now + SecondMs < t <= now + YearMs
  }

  // ---------------------------------------------------------------------------
  // scheduleMessage
  // ---------------------------------------------------------------------------

  /** The reply of scheduleMessage at `now` when the next id is `id`. The checks run in
      order (missing field, too soon, too far); the record stores the trimmed text, and a
      text that trims to nothing fails the schema's `required` when the record is created. */
  function ScheduleReply(from: Option<Id>, to: Option<Id>, message: Option<string>, t: Option<Time>,
                         now: Time, id: Id): (r: Response<ScheduledMessage>)
    ensures !Complete(from, to, message, t) ==> r == Failure(MissingFields)
    ensures Complete(from, to, message, t) && t.value <= now + SecondMs ==> r == Failure(TooSoon)
    ensures Complete(from, to, message, t) && t.value > now + YearMs ==> r == Failure(TooFar)
    ensures Complete(from, to, message, t) && InWindow(t.value, now) && Trim(message.value) == "" ==> r == Failure(CreateFailed)
    ensures r.Success? <==> Complete(from, to, message, t) && InWindow(t.value, now) && Trim(message.value) != ""
    ensures r.Success? ==> r.data == NewScheduledMessage(id, Trim(message.value), from.value, to.value, t.value)
  {
    if !Complete(from, to, message, t) then Failure(MissingFields)
    else if t.value <= now + SecondMs then Failure(TooSoon)
    else if t.value > now + YearMs then Failure(TooFar)
    else
      var text := Trim(message.value);
      if !ScheduledTextValid(text) then Failure(CreateFailed)
      else Success(NewScheduledMessage(id, text, from.value, to.value, t.value))
  }

  /** A message of white space only, of any kind `trim` removes (an ideographic space
      included), passes the field checks but is refused when the record is created. */
  lemma BlankTextFails(from: Id, to: Id, message: string, t: Time, now: Time, id: Id)
    requires message != "" && t != 0 && InWindow(t, now)
    requires forall k :: 0 <= k < |message| ==> IsSpace(message[k])
    ensures ScheduleReply(Some(from), Some(to), Some(message), Some(t), now, id) == Failure(CreateFailed)
  {
    BlankTrimsToEmpty(message);
  }

  /** A scheduled time of 0 is falsy, so it is reported as a missing field. */
  lemma ZeroTimeIsMissing(from: Option<Id>, to: Option<Id>, message: Option<string>, now: Time, id: Id)
    ensures ScheduleReply(from, to, message, Some(0), now, id) == Failure(MissingFields)
  {
  }

  /** `scheduleMessage`: validate the request and, when it passes, store a new pending record. */
  method ScheduleMessage(db: Database, from: Option<Id>, to: Option<Id>, message: Option<string>, t: Option<Time>, now: Time)
    returns (r: Response<ScheduledMessage>)
    requires db.Valid()
    modifies db`scheduled, db`nextId
    ensures db.Valid()
    ensures r == ScheduleReply(from, to, message, t, now, old(db.nextId))
    ensures r.Success? ==> db.scheduled == old(db.scheduled) + [r.data] && db.nextId == old(db.nextId) + 1
    ensures r.Failure? ==> db.scheduled == old(db.scheduled) && db.nextId == old(db.nextId)
  {
    if from.None? || to.None? || message.None? || message.value == "" || t.None? || t.value == 0 {
      return Failure(MissingFields);
    }
    if t.value <= now + SecondMs {
      return Failure(TooSoon);
    }
    if t.value > now + YearMs {
      return Failure(TooFar);
    }
    var text := Trim(message.value);
    if text == "" {
      return Failure(CreateFailed);
    }
    var record := NewScheduledMessage(db.nextId, text, from.value, to.value, t.value);
    db.scheduled := db.scheduled + [record];
    db.nextId := db.nextId + 1;
    KeysBelowRaise(db.messages, MessageKey, db.nextId - 1, db.nextId);
    KeysBelowRaise(db.groups, GroupKey, db.nextId - 1, db.nextId);
    KeysBelowRaise(db.groupMessages, GroupMessageKey, db.nextId - 1, db.nextId);
    KeysBelowRaise(db.users, UserKey, db.nextId - 1, db.nextId);
    return Success(record);
  }

  /** A freshly scheduled record is pending and not due for at least another second, so
      no sweep up to then delivers it; it becomes due once its time has come. */
  lemma ScheduledNotDueYet(from: Option<Id>, to: Option<Id>, message: Option<string>, t: Option<Time>,
                           now: Time, id: Id, later: Time)
    requires ScheduleReply(from, to, message, t, now, id).Success?
    ensures var rec := ScheduleReply(from, to, message, t, now, id).data;
            rec.status == Pending && (Sweep.IsDue(rec, later) <==> later >= t.value)
            && (later <= now + SecondMs ==> !Sweep.IsDue(rec, later))
  {
  }

  // ---------------------------------------------------------------------------
  // getScheduledMessages
  // ---------------------------------------------------------------------------

  /** The records `user` scheduled that are still pending, in store order. */
  function PendingFrom(s: seq<ScheduledMessage>, user: Id): (r: seq<ScheduledMessage>)
    ensures forall x :: x in r <==> x in s && x.from == user && x.status == Pending
    ensures |r| <= |s|
  {
    if s == [] then []
    else
      var rest := PendingFrom(s[..|s| - 1], user);
      var last := s[|s| - 1];
      assert s == s[..|s| - 1] + [last];
      if last.from == user && last.status == Pending then rest + [last] else rest
  }

  function ScheduledTimeKey(m: ScheduledMessage): int {
    m.scheduledTime
  }

  /** `getScheduledMessages`: the user's pending records by ascending scheduled time,
      each exactly as often as it is stored. */
  function GetScheduledMessages(s: seq<ScheduledMessage>, user: Id): (r: seq<ScheduledMessage>)
    ensures SortedBy(r, ScheduledTimeKey)
    ensures multiset(r) == multiset(PendingFrom(s, user))
  {
    SortBy(PendingFrom(s, user), ScheduledTimeKey)
  }

  /** The listing holds exactly the user's pending records. */
  lemma GetScheduledMembers(s: seq<ScheduledMessage>, user: Id, x: ScheduledMessage)
    ensures x in GetScheduledMessages(s, user) <==> x in s && x.from == user && x.status == Pending
  {
    SameElements(GetScheduledMessages(s, user), PendingFrom(s, user));
  }

  /** What a sender schedules shows up in their listing right away. */
  lemma ScheduledIsListed(s: seq<ScheduledMessage>, from: Option<Id>, to: Option<Id>, message: Option<string>,
                          t: Option<Time>, now: Time, id: Id)
    requires ScheduleReply(from, to, message, t, now, id).Success?
    ensures var rec := ScheduleReply(from, to, message, t, now, id).data;
            rec in GetScheduledMessages(s + [rec], from.value)
  {
    var rec := ScheduleReply(from, to, message, t, now, id).data;
    GetScheduledMembers(s + [rec], from.value, rec);
  }

  // ---------------------------------------------------------------------------
  // cancelScheduledMessage, rescheduleMessage
  // ---------------------------------------------------------------------------

  /** The reply and the new collection of `cancelScheduledMessage`: an unknown id or a
      requester other than the sender is refused with nothing changed; otherwise the
      record becomes cancelled, whatever its status was. */
  function CancelOutcome(s: seq<ScheduledMessage>, msgId: Id, userId: Id): (o: (Response<string>, seq<ScheduledMessage>))
    ensures |o.1| == |s|
    ensures o.0.Failure? ==> o.1 == s
    ensures o.0.Success? <==> exists i :: 0 <= i < |s| && s[i].id == msgId && s[i].from == userId
                                         && (forall k :: 0 <= k < i ==> s[k].id != msgId)
    ensures o.0.Success? ==> exists i :: 0 <= i < |s| && s[i].id == msgId && o.1 == s[i := s[i].(status := Cancelled)]
  {
    match Find(s, ScheduledKey, msgId)
    case None => (Failure(NotFound), s)
    case Some(i) =>
      if s[i].from != userId then (Failure(Unauthorized), s)
      else (Success(CancelledMsg), s[i := s[i].(status := Cancelled)])
  }

  /** `cancelScheduledMessage`: load the record, check the requester, mark it cancelled. */
  method CancelScheduledMessage(db: Database, msgId: Id, userId: Id) returns (r: Response<string>)
    requires db.Valid()
    modifies db`scheduled
    ensures db.Valid()
    ensures (r, db.scheduled) == CancelOutcome(old(db.scheduled), msgId, userId)
  {
    var found := Find(db.scheduled, ScheduledKey, msgId);
    if found.None? {
      return Failure(NotFound);
    }
    var i := found.value;
    var record := db.scheduled[i];
    if record.from != userId {
      return Failure(Unauthorized);
    }
    record := record.(status := Cancelled);
    db.scheduled := db.scheduled[i := record];
    return Success(CancelledMsg);
  }

  /** After a successful cancel the record it changed is never due again, so no later
      sweep delivers it. */
  lemma CancelStopsDelivery(s: seq<ScheduledMessage>, msgId: Id, userId: Id, k: nat, now: Time)
    requires CancelOutcome(s, msgId, userId).0.Success? && k < |s|
    ensures var s' := CancelOutcome(s, msgId, userId).1;
            s'[k] != s[k] ==> s'[k].status == Cancelled && k !in Sweep.DueIndices(s', now)
  {
  }

  /** Cancel does not look at the status: a record already sent is marked cancelled too,
      and keeps its sent flag and time. */
  lemma CancelIgnoresStatus(s: seq<ScheduledMessage>, i: nat, now: Time)
    requires i < |s| && (forall k :: 0 <= k < i ==> s[k].id != s[i].id)
    ensures var o := CancelOutcome(MarkSentOne(s, i, now), s[i].id, s[i].from);
            o.0 == Success(CancelledMsg) && o.1[i].status == Cancelled && o.1[i].isSent && o.1[i].sentAt == Some(now)
  {
    var s1 := MarkSentOne(s, i, now);
    FindFirst(s1, ScheduledKey, s[i].id, i);
  }

  /** The collection with record i delivered at `now`. */
  function MarkSentOne(s: seq<ScheduledMessage>, i: nat, now: Time): (r: seq<ScheduledMessage>)
    requires i < |s|
    ensures |r| == |s| && r[i] == MarkedSent(s[i], now)
  {
    s[i := MarkedSent(s[i], now)]
  }

  /** The reply and the new collection of `rescheduleMessage`: a new time not after now is
      refused before the lookup; then an unknown id, a requester other than the sender and
      a record that is not pending are refused; otherwise only the scheduled time changes. */
  function RescheduleOutcome(s: seq<ScheduledMessage>, msgId: Id, userId: Id, newTime: Time, now: Time)
    : (o: (Response<ScheduledMessage>, seq<ScheduledMessage>))
    ensures |o.1| == |s|
    ensures o.0.Failure? ==> o.1 == s
    ensures newTime <= now ==> o.0 == Failure(NotInFuture)
    ensures o.0.Success? <==> newTime > now && exists i :: 0 <= i < |s| && s[i].id == msgId && s[i].from == userId
                                                           && s[i].status == Pending && (forall k :: 0 <= k < i ==> s[k].id != msgId)
    ensures o.0.Success? ==> exists i :: 0 <= i < |s| && s[i].id == msgId && o.0.data == s[i].(scheduledTime := newTime)
                                         && o.1 == s[i := o.0.data]
  {
    if newTime <= now then (Failure(NotInFuture), s)
    else
      match Find(s, ScheduledKey, msgId)
      case None => (Failure(NotFound), s)
      case Some(i) =>
        if s[i].from != userId then (Failure(Unauthorized), s)
        else if s[i].status != Pending then (Failure(NotPending), s)
        else
          var rec := s[i].(scheduledTime := newTime);
          (Success(rec), s[i := rec])
  }

  /** `rescheduleMessage`: check the new time, load the record, check requester and status,
      move it. */
  method RescheduleMessage(db: Database, msgId: Id, userId: Id, newTime: Time, now: Time)
    returns (r: Response<ScheduledMessage>)
    requires db.Valid()
    modifies db`scheduled
    ensures db.Valid()
    ensures (r, db.scheduled) == RescheduleOutcome(old(db.scheduled), msgId, userId, newTime, now)
  {
    if newTime <= now {
      return Failure(NotInFuture);
    }
    var found := Find(db.scheduled, ScheduledKey, msgId);
    if found.None? {
      return Failure(NotFound);
    }
    var i := found.value;
    var record := db.scheduled[i];
    if record.from != userId {
      return Failure(Unauthorized);
    }
    if record.status != Pending {
      return Failure(NotPending);
    }
    record := record.(scheduledTime := newTime);
    db.scheduled := db.scheduled[i := record];
    return Success(record);
  }

  /** A rescheduled record stays pending and becomes due exactly when the new time comes. */
  lemma RescheduledDueAtNewTime(s: seq<ScheduledMessage>, msgId: Id, userId: Id, newTime: Time, now: Time, later: Time)
    requires RescheduleOutcome(s, msgId, userId, newTime, now).0.Success?
    ensures var rec := RescheduleOutcome(s, msgId, userId, newTime, now).0.data;
            rec.status == Pending && (Sweep.IsDue(rec, later) <==> later >= newTime)
  {
  }

  /** Rescheduling checks only that the new time is after now: neither the one-second
      margin nor the one-year limit of scheduleMessage applies. */
  lemma RescheduleSkipsWindow(s: seq<ScheduledMessage>, i: nat, now: Time)
    requires i < |s| && s[i].status == Pending && (forall k :: 0 <= k < i ==> s[k].id != s[i].id)
    ensures RescheduleOutcome(s, s[i].id, s[i].from, now + 1, now).0.Success? && !InWindow(now + 1, now)
    ensures RescheduleOutcome(s, s[i].id, s[i].from, now + YearMs + 1, now).0.Success? && !InWindow(now + YearMs + 1, now)
  {
    FindFirst(s, ScheduledKey, s[i].id, i);
  }

  // ---------------------------------------------------------------------------
  // sendScheduledMessage
  // ---------------------------------------------------------------------------

  /** The reply and the new collection of `sendScheduledMessage` when the next id is `id`:
      an unknown or non-pending record is refused; otherwise the record's message is
      created and the record is marked sent, exactly as the sweep does. */
  function SendOutcome(s: seq<ScheduledMessage>, msgId: Id, id: Id, now: Time): (o: (Response<Message>, seq<ScheduledMessage>))
    ensures |o.1| == |s|
    ensures o.0.Failure? ==> o == (Failure(InvalidScheduled), s)
    ensures o.0.Success? <==> exists i :: 0 <= i < |s| && s[i].id == msgId && s[i].status == Pending
                                         && (forall k :: 0 <= k < i ==> s[k].id != msgId)
    ensures o.0.Success? ==> exists i :: 0 <= i < |s| && s[i].id == msgId && o.0.data == Promote(s[i], id, now)
                                         && o.1 == s[i := MarkedSent(s[i], now)]
  {
    match Find(s, ScheduledKey, msgId)
    case None => (Failure(InvalidScheduled), s)
    case Some(i) =>
      if s[i].status != Pending then (Failure(InvalidScheduled), s)
      else (Success(Promote(s[i], id, now)), s[i := MarkedSent(s[i], now)])
  }

  /** The reply of `sendScheduledMessage` when the request body carries `io` (`ioGiven`
      when it is truthy): a JSON body cannot carry a socket server, so once the record has
      been delivered `io.to` throws and the request ends in the error handler. */
  function SendReply(s: seq<ScheduledMessage>, msgId: Id, id: Id, now: Time, ioGiven: bool): (r: Response<Message>)
    ensures r.Success? <==> !ioGiven && SendOutcome(s, msgId, id, now).0.Success?
    ensures r.Success? ==> r == SendOutcome(s, msgId, id, now).0
    ensures ioGiven && SendOutcome(s, msgId, id, now).0.Success? ==> r == Failure(HandlerError)
    ensures SendOutcome(s, msgId, id, now).0.Failure? ==> r == Failure(InvalidScheduled)
  {
    var o := SendOutcome(s, msgId, id, now);
    if ioGiven && o.0.Success? then Failure(HandlerError) else o.0
  }

  /** `sendScheduledMessage`: create the message of a pending record and mark it sent;
      the reply is the one SendReply gives, while the store changes whenever the record
      was delivered, whether or not the reply reports it. */
  method SendScheduledMessage(db: Database, msgId: Id, now: Time, ioGiven: bool) returns (r: Response<Message>)
    requires db.Valid()
    modifies db`scheduled, db`messages, db`nextId
    ensures db.Valid()
    ensures r == SendReply(old(db.scheduled), msgId, old(db.nextId), now, ioGiven)
    ensures db.scheduled == SendOutcome(old(db.scheduled), msgId, old(db.nextId), now).1
    ensures var o := SendOutcome(old(db.scheduled), msgId, old(db.nextId), now).0;
            o.Success? ==> db.messages == old(db.messages) + [o.data] && db.nextId == old(db.nextId) + 1
    ensures SendOutcome(old(db.scheduled), msgId, old(db.nextId), now).0.Failure? ==>
              db.messages == old(db.messages) && db.nextId == old(db.nextId)
  {
    var found := Find(db.scheduled, ScheduledKey, msgId);
    if found.None? || db.scheduled[found.value].status != Pending {
      return Failure(InvalidScheduled);
    }
    var i := found.value;
    var record := db.scheduled[i];
    var message := Promote(record, db.nextId, now);
    db.messages := db.messages + [message];
    db.nextId := db.nextId + 1;
    db.scheduled := db.scheduled[i := MarkedSent(record, now)];
    KeysBelowRaise(db.groups, GroupKey, db.nextId - 1, db.nextId);
    KeysBelowRaise(db.groupMessages, GroupMessageKey, db.nextId - 1, db.nextId);
    KeysBelowRaise(db.users, UserKey, db.nextId - 1, db.nextId);
    if ioGiven {
      return Failure(HandlerError);
    }
    return Success(message);
  }

  /** With `io` in the body, a request that delivers the record is reported as an error,
      yet the record is marked sent: the client sees a failure for a message that was
      stored, and asking again is refused because the record is no longer pending. */
  lemma ErrorAfterDelivery(s: seq<ScheduledMessage>, msgId: Id, id: Id, now: Time, id2: Id, later: Time)
    requires SendOutcome(s, msgId, id, now).0.Success?
    ensures SendReply(s, msgId, id, now, true) == Failure(HandlerError)
    ensures SendOutcome(s, msgId, id, now).1 != s
    ensures SendReply(SendOutcome(s, msgId, id, now).1, msgId, id2, later, false) == Failure(InvalidScheduled)
  {
    var i :| 0 <= i < |s| && s[i].id == msgId && s[i].status == Pending && (forall k :: 0 <= k < i ==> s[k].id != msgId);
    var s' := SendOutcome(s, msgId, id, now).1;
    assert s'[i] == MarkedSent(s[i], now) && s'[i].status != Pending;
    assert s'[i] != s[i];
    var j := Find(s', ScheduledKey, msgId);
    assert j == Some(i) by {
      assert forall k :: 0 <= k < i ==> s'[k] == s[k];
    }
  }

  /** A record sent by hand is never due again, so no sweep delivers it a second time. */
  lemma SentByHandNotRedelivered(s: seq<ScheduledMessage>, msgId: Id, id: Id, now: Time, k: nat, later: Time)
    requires SendOutcome(s, msgId, id, now).0.Success? && k < |s|
    ensures var s' := SendOutcome(s, msgId, id, now).1;
            s'[k] != s[k] ==> s'[k].status == Sent && k !in Sweep.DueIndices(s', later)
  {
  }
}
