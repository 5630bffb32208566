/** The direct-message controller of server/controllers/messageController.js: the
    conversation query with its per-viewer projection, storing a new message, editing and
    deleting one's own message in place, and clearing a conversation. */
module Messaging {
  import opened Common
  import opened Models
  import opened Store

  const NotFound := "Message not found"
  const Unauthorized := "Unauthorized"
  const EditDeleted := "Cannot edit deleted message"
  const Edited := "Message edited successfully"
  /** The text a deleted message keeps in place of its own. */
  const DeletedText := "This message was deleted"

  // ---------------------------------------------------------------------------
  // getMessages
  // ---------------------------------------------------------------------------

  /** The messages of the conversation of a and b, in store order. */
  function Conversation(ms: seq<Message>, a: Id, b: Id): (r: seq<Message>)
    ensures forall x :: x in r <==> x in ms && Between(x, a, b)
    ensures |r| <= |ms|
  {
    if ms == [] then []
    else
      var rest := Conversation(ms[..|ms| - 1], a, b);
      var last := ms[|ms| - 1];
      assert ms == ms[..|ms| - 1] + [last];
      if Between(last, a, b) then rest + [last] else rest
  }

  function CreatedAtKey(m: Message): int {
    m.createdAt
  }

  /** The conversation of `from` and `to` as getMessages returns it: one view per message
      of the pair, oldest first, every view the projection for `from` of a stored message of
      the pair, and every stored message of the pair listed. */
  function GetMessages(ms: seq<Message>, from: Id, to: Id): (r: seq<MessageView>)
    ensures |r| == |Conversation(ms, from, to)|
    ensures forall i, j :: 0 <= i < j < |r| ==> r[i].createdAt <= r[j].createdAt
    ensures forall i :: 0 <= i < |r| ==> exists x :: x in ms && Between(x, from, to) && r[i] == Project(x, from)
    ensures forall x :: x in ms && Between(x, from, to) ==> Project(x, from) in r
  {
    var c := Conversation(ms, from, to);
    var sorted := SortBy(c, CreatedAtKey);
    var r := seq(|sorted|, i requires 0 <= i < |sorted| => Project(sorted[i], from));
    ProjectedInOrder(sorted, from, r);
    ProjectedFromConversation(ms, from, to, sorted, r);
    r
  }

  /** Projecting a list sorted by creation time keeps the views in that order. */
  lemma ProjectedInOrder(sorted: seq<Message>, viewer: Id, r: seq<MessageView>)
    requires SortedBy(sorted, CreatedAtKey)
    requires |r| == |sorted| && forall i :: 0 <= i < |r| ==> r[i] == Project(sorted[i], viewer)
    ensures forall i, j :: 0 <= i < j < |r| ==> r[i].createdAt <= r[j].createdAt
  {
    forall i, j | 0 <= i < j < |r| ensures r[i].createdAt <= r[j].createdAt {
      assert CreatedAtKey(sorted[i]) <= CreatedAtKey(sorted[j]);
    }
  }

  /** Projecting a permutation of the conversation gives exactly the views of its messages. */
  lemma ProjectedFromConversation(ms: seq<Message>, from: Id, to: Id, sorted: seq<Message>, r: seq<MessageView>)
    requires multiset(sorted) == multiset(Conversation(ms, from, to))
    requires |r| == |sorted| && forall i :: 0 <= i < |r| ==> r[i] == Project(sorted[i], from)
    ensures forall i :: 0 <= i < |r| ==> exists x :: x in ms && Between(x, from, to) && r[i] == Project(x, from)
    ensures forall x :: x in ms && Between(x, from, to) ==> Project(x, from) in r
  {
    var c := Conversation(ms, from, to);
    SameElements(sorted, c);
    forall i | 0 <= i < |r| ensures exists x :: x in ms && Between(x, from, to) && r[i] == Project(x, from) {
      assert sorted[i] in c;
    }
    forall x | x in ms && Between(x, from, to) ensures Project(x, from) in r {
      var k :| 0 <= k < |sorted| && sorted[k] == x;
      assert r[k] == Project(x, from);
    }
  }

  // ---------------------------------------------------------------------------
  // addMessage
  // ---------------------------------------------------------------------------

  /** The message addMessage stores for a payload: its normalised body, the pair as
      users, `from` as sender, every flag at its default. */
  function AddedMessage(from: Id, to: Id, p: Payload, id: Id, now: Time): (m: Message)
    ensures m == NewMessage(id, NormalizeBody(p), [from, to], from, now)
    ensures Between(m, from, to) && Between(m, to, from) && Unflagged(m)
  {
    NewMessage(id, NormalizeBody(p), [from, to], from, now)
  }

  /** `addMessage`: store the message and answer with it. */
  method AddMessage(db: Database, from: Id, to: Id, p: Payload, now: Time) returns (m: Message)
    requires db.Valid()
    modifies db`messages, db`nextId
    ensures db.Valid()
    ensures m == AddedMessage(from, to, p, old(db.nextId), now)
    ensures db.messages == old(db.messages) + [m] && db.nextId == old(db.nextId) + 1
  {
    m := AddedMessage(from, to, p, db.nextId, now);
    db.messages := db.messages + [m];
    db.nextId := db.nextId + 1;
    KeysBelowRaise(db.scheduled, ScheduledKey, db.nextId - 1, db.nextId);
    KeysBelowRaise(db.groups, GroupKey, db.nextId - 1, db.nextId);
    KeysBelowRaise(db.groupMessages, GroupMessageKey, db.nextId - 1, db.nextId);
    KeysBelowRaise(db.users, UserKey, db.nextId - 1, db.nextId);
  }

  /** A stored message shows up in the conversation for both participants: as the
      sender's own for `from`, and as received for `to` when the two differ. */
  lemma AddedIsListed(ms: seq<Message>, from: Id, to: Id, p: Payload, id: Id, now: Time)
    ensures var m := AddedMessage(from, to, p, id, now);
            && Project(m, from) in GetMessages(ms + [m], from, to) && Project(m, from).fromSelf
            && Project(m, to) in GetMessages(ms + [m], to, from) && (from != to ==> !Project(m, to).fromSelf)
  {
    var m := AddedMessage(from, to, p, id, now);
    assert m in ms + [m];
  }

  // ---------------------------------------------------------------------------
  // editMessage, deleteMessage
  // ---------------------------------------------------------------------------

  /** A message after its sender edits it at `now`: new text, marked edited with the
      time; the file, the read flag and the deleted flag stay. */
  function EditedMessage(m: Message, text: string, now: Time): (r: Message)
    ensures r.body.text == Some(text) && r.isEdited && r.editedAt == Some(now)
    ensures r.(body := m.body, isEdited := m.isEdited, editedAt := m.editedAt) == m
    ensures r.body.fileUrl == m.body.fileUrl
  {
    m.(body := m.body.(text := Some(text)), isEdited := true, editedAt := Some(now))
  }

  /** A deleted message: kept in place, flagged deleted, its text replaced; no deletion
      time is recorded. */
  function Tombstone(m: Message): (r: Message)
    ensures r.isDeleted && r.body.text == Some(DeletedText) && r.deletedAt == m.deletedAt
    ensures r.(body := m.body, isDeleted := m.isDeleted) == m
    ensures r.body.fileUrl == m.body.fileUrl
  {
    m.(body := m.body.(text := Some(DeletedText)), isDeleted := true)
  }

  /** The reply and new collection of `editMessage`: an unknown id, a requester other than
      the sender and a deleted message are refused, in that order, with nothing changed. */
  function EditOutcome(ms: seq<Message>, msgId: Id, text: string, userId: Id, now: Time)
    : (o: (Response<string>, seq<Message>))
    ensures |o.1| == |ms|
    ensures o.0.Failure? ==> o.1 == ms
    ensures o.0.Success? <==> exists i :: 0 <= i < |ms| && ms[i].id == msgId && ms[i].sender == userId && !ms[i].isDeleted
                                         && (forall k :: 0 <= k < i ==> ms[k].id != msgId)
    ensures o.0.Success? ==> exists i :: 0 <= i < |ms| && ms[i].id == msgId && o.1 == ms[i := EditedMessage(ms[i], text, now)]
  {
    match Find(ms, MessageKey, msgId)
    case None => (Failure(NotFound), ms)
    case Some(i) =>
      if ms[i].sender != userId then (Failure(Unauthorized), ms)
      else if ms[i].isDeleted then (Failure(EditDeleted), ms)
      else (Success(Edited), ms[i := EditedMessage(ms[i], text, now)])
  }

  /** `editMessage`: load the message, check sender and state, update it in place. */
  method EditMessage(db: Database, msgId: Id, text: string, userId: Id, now: Time) returns (r: Response<string>)
    requires db.Valid()
    modifies db`messages
    ensures db.Valid()
    ensures (r, db.messages) == EditOutcome(old(db.messages), msgId, text, userId, now)
  {
    var found := Find(db.messages, MessageKey, msgId);
    if found.None? {
      return Failure(NotFound);
    }
    var i := found.value;
    var message := db.messages[i];
    if message.sender != userId {
      return Failure(Unauthorized);
    }
    if message.isDeleted {
      return Failure(EditDeleted);
    }
    message := EditedMessage(message, text, now);
    db.messages := db.messages[i := message];
    return Success(Edited);
  }

  /** The reply and new collection of `deleteMessage`: an unknown id or a requester other
      than the sender is refused with nothing changed; otherwise the message is replaced
      by its tombstone where it stands (the reply carries the tombstone). */
  function DeleteOutcome(ms: seq<Message>, msgId: Id, userId: Id): (o: (Response<Message>, seq<Message>))
    ensures |o.1| == |ms|
    ensures o.0.Failure? ==> o.1 == ms
    ensures o.0.Success? <==> exists i :: 0 <= i < |ms| && ms[i].id == msgId && ms[i].sender == userId
                                         && (forall k :: 0 <= k < i ==> ms[k].id != msgId)
    ensures o.0.Success? ==> exists i :: 0 <= i < |ms| && ms[i].id == msgId && o.0.data == Tombstone(ms[i])
                                         && o.1 == ms[i := Tombstone(ms[i])]
  {
    match Find(ms, MessageKey, msgId)
    case None => (Failure(NotFound), ms)
    case Some(i) =>
      if ms[i].sender != userId then (Failure(Unauthorized), ms)
      else (Success(Tombstone(ms[i])), ms[i := Tombstone(ms[i])])
  }

  /** `deleteMessage`: load the message, check the sender, tombstone it in place. */
  method DeleteMessage(db: Database, msgId: Id, userId: Id) returns (r: Response<Message>)
    requires db.Valid()
    modifies db`messages
    ensures db.Valid()
    ensures (r, db.messages) == DeleteOutcome(old(db.messages), msgId, userId)
  {
    var found := Find(db.messages, MessageKey, msgId);
    if found.None? {
      return Failure(NotFound);
    }
    var i := found.value;
    var message := db.messages[i];
    if message.sender != userId {
      return Failure(Unauthorized);
    }
    message := Tombstone(message);
    db.messages := db.messages[i := message];
    return Success(message);
  }

  /** Deleting twice leaves the same collection as deleting once. */
  lemma DeleteIdempotent(ms: seq<Message>, msgId: Id, userId: Id)
    requires DeleteOutcome(ms, msgId, userId).0.Success?
    ensures var ms1 := DeleteOutcome(ms, msgId, userId).1;
            DeleteOutcome(ms1, msgId, userId) == (Success(DeleteOutcome(ms, msgId, userId).0.data), ms1)
  {
    var i := Find(ms, MessageKey, msgId).value;
    var ms1 := DeleteOutcome(ms, msgId, userId).1;
    FindFirst(ms1, MessageKey, msgId, i);
    assert ms1[i := Tombstone(ms1[i])] == ms1;
  }

  /** A deleted message can no longer be edited, even by its sender. */
  lemma NoEditAfterDelete(ms: seq<Message>, msgId: Id, userId: Id, text: string, now: Time)
    requires DeleteOutcome(ms, msgId, userId).0.Success?
    ensures var ms1 := DeleteOutcome(ms, msgId, userId).1;
            EditOutcome(ms1, msgId, text, userId, now) == (Failure(EditDeleted), ms1)
  {
    var i := Find(ms, MessageKey, msgId).value;
    var ms1 := DeleteOutcome(ms, msgId, userId).1;
    FindFirst(ms1, MessageKey, msgId, i);
  }

  // ---------------------------------------------------------------------------
  // clearChat
  // ---------------------------------------------------------------------------

  /** The messages outside the conversation of a and b, in store order. */
  function Without(ms: seq<Message>, a: Id, b: Id): (r: seq<Message>)
    ensures forall x :: x in r <==> x in ms && !Between(x, a, b)
  {
    if ms == [] then []
    else
      var rest := Without(ms[..|ms| - 1], a, b);
      var last := ms[|ms| - 1];
      assert ms == ms[..|ms| - 1] + [last];
      if Between(last, a, b) then rest else rest + [last]
  }

  /** The store keeps the other conversations and loses exactly the messages of this one,
      which is the count the reply reports. */
  lemma {:induction false} ClearCount(ms: seq<Message>, a: Id, b: Id)
    ensures |Without(ms, a, b)| + |Conversation(ms, a, b)| == |ms|
  {
    if ms != [] {
      ClearCount(ms[..|ms| - 1], a, b);
    }
  }

  /** `clearChat`: delete every message of the conversation and report how many went. */
  method ClearChat(db: Database, from: Id, to: Id) returns (deletedCount: nat)
    requires db.Valid()
    modifies db`messages
    ensures db.Valid()
    ensures db.messages == Without(old(db.messages), from, to)
    ensures deletedCount == |Conversation(old(db.messages), from, to)|
  {
    ClearCount(db.messages, from, to);
    var kept := Without(db.messages, from, to);
    forall i | 0 <= i < |kept| ensures MessageKey(kept[i]) < db.nextId {
      assert kept[i] in db.messages;
    }
    deletedCount := |db.messages| - |Without(db.messages, from, to)|;
    db.messages := Without(db.messages, from, to);
  }

  /** A collection with no message of the pair has an empty conversation. */
  lemma NothingBetween(w: seq<Message>, a: Id, b: Id)
    requires forall x :: x in w ==> !Between(x, a, b)
    ensures Conversation(w, a, b) == []
  {
  }

  /** After clearing, the conversation reads empty from either side. */
  lemma ClearedIsEmpty(ms: seq<Message>, a: Id, b: Id)
    ensures GetMessages(Without(ms, a, b), a, b) == [] && GetMessages(Without(ms, a, b), b, a) == []
  {
    var w := Without(ms, a, b);
    NothingBetween(w, a, b);
    NothingBetween(w, b, a);
  }
}
