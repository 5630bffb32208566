/** The realtime server of server/index.js: the presence registry shared by every
    connection, the handlers each connection registers, and the once-a-minute sweep that
    delivers due scheduled messages. Emitted events are appended to `outbox` in order. */
module Server {
  import opened Common
  import opened Models
  import opened Store
  import opened Registry
  import opened Sweep

  /** The effect of `message-seen` on the store: every message of the conversation of
      `to` and `from` that `to` sent is read afterwards; nothing else changes. */
  function MarkRead(ms: seq<Message>, to: Id, from: Id): (r: seq<Message>)
    ensures |r| == |ms|
    ensures forall i :: 0 <= i < |ms| ==> r[i].isRead == (ms[i].isRead || (Between(ms[i], to, from) && ms[i].sender == to))
    ensures forall i :: 0 <= i < |ms| ==> r[i].(isRead := ms[i].isRead) == ms[i]
  {
    seq(|ms|, i requires 0 <= i < |ms| =>
      if Between(ms[i], to, from) && ms[i].sender == to then ms[i].(isRead := true) else ms[i])
  }

  /** Marking the same conversation read twice changes nothing the second time. */
  lemma MarkReadIdempotent(ms: seq<Message>, to: Id, from: Id)
    ensures MarkRead(MarkRead(ms, to, from), to, from) == MarkRead(ms, to, from)
  {
    var r := MarkRead(ms, to, from);
    var r2 := MarkRead(r, to, from);
    assert forall i :: 0 <= i < |r| ==> r2[i] == r[i];
  }

  /** The messages `from` sent to `to` keep their read flag, whatever it was. */
  lemma MarkReadKeepsReplies(ms: seq<Message>, to: Id, from: Id, i: nat)
    requires i < |ms| && ms[i].sender != to
    ensures MarkRead(ms, to, from)[i] == ms[i]
  {
    var r := MarkRead(ms, to, from);
    assert r[i].(isRead := ms[i].isRead) == ms[i];
  }

  /** When a connection registered more than one user id, disconnecting it unregisters
      only the first of them: the later ones stay mapped to the closed connection. */
  lemma DisconnectKeepsLaterEntries(es: seq<Entry>, sid: SocketId, j: nat)
    requires DistinctKeys(es) && j < |es| && es[j].socket == sid
    ensures var i := Find(es, EntrySocket, sid).value;
            i <= j && (i < j ==> Lookup(RemoveAt(es, i), es[j].user) == Some(sid))
  {
    var i := Find(es, EntrySocket, sid).value;
    if i < j {
      RemoveAtKeys(es, i);
      var r := RemoveAt(es, i);
      assert r[j - 1] == es[j];
      assert Lookup(r, es[j].user).Some?;
      FindFirst(r, EntryUser, es[j].user, Find(r, EntryUser, es[j].user).value);
    }
  }

  class ChatServer {
    const db: Database
    /** `global.onlineUsers`: user id to the connection that registered it. */
    var onlineUsers: seq<Entry>
    /** `global.chatSocket`: the connection that connected last. */
    var chatSocket: Option<SocketId>
    /** Every event emitted so far, in order. */
    var outbox: seq<Emit>

    ghost predicate Valid()
      reads this
    {
      DistinctKeys(onlineUsers)
    }

    constructor (db: Database)
      ensures this.db == db && onlineUsers == [] && chatSocket.None? && outbox == []
      ensures Valid()
    {
      this.db := db;
      onlineUsers, chatSocket, outbox := [], None, [];
    }

    /** A new connection `sid`: it becomes the connection the sweep pushes from. */
    method Connect(sid: SocketId)
      modifies this`chatSocket
      ensures chatSocket == Some(sid)
    {
      chatSocket := Some(sid);
    }

    /** `add-user`: register `user` on `sid` and tell every connection it is online. */
    method AddUser(sid: SocketId, user: Id)
      requires Valid()
      modifies this`onlineUsers, this`outbox
      ensures Valid()
      ensures onlineUsers == Set(old(onlineUsers), user, sid)
      ensures Lookup(onlineUsers, user) == Some(sid)
      ensures outbox == old(outbox) + [Emit(Everyone, UserOnline(user))]
    {
      SetKeys(onlineUsers, user, sid);
      SetThenLookup(onlineUsers, user, sid);
      onlineUsers := Set(onlineUsers, user, sid);
      outbox := outbox + [Emit(Everyone, UserOnline(user))];
    }

    /** `get-online-users`: the registered ids, in registration order, to the requester. */
    method GetOnlineUsers(sid: SocketId)
      modifies this`outbox
      ensures outbox == old(outbox) + [Emit(ToSelf(sid), OnlineUsers(Keys(onlineUsers)))]
    {
      outbox := outbox + [Emit(ToSelf(sid), OnlineUsers(Keys(onlineUsers)))];
    }

    /** `send-msg`: relay a message notification to the recipient. */
    method SendMsg(sid: SocketId, to: Id, from: Id, msg: string, senderName: string)
      modifies this`outbox
      ensures outbox == old(outbox) + Relayed(onlineUsers, to, MsgReceive(from, msg, senderName, None), sid)
    {
      outbox := outbox + Relayed(onlineUsers, to, MsgReceive(from, msg, senderName, None), sid);
    }

    /** `message-seen`: the viewer `from` has read the conversation with `to`. The store
        update's failure is caught, and the notification goes out either way. */
    method MessageSeen(sid: SocketId, to: Id, from: Id, storeFails: bool)
      modifies db`messages, this`outbox
      ensures db.messages == if storeFails then old(db.messages) else MarkRead(old(db.messages), to, from)
      ensures outbox == old(outbox) + Relayed(onlineUsers, to, MsgSeen(from), sid)
    {
      if !storeFails {
        db.messages := MarkRead(db.messages, to, from);
      }
      outbox := outbox + Relayed(onlineUsers, to, MsgSeen(from), sid);
    }

    /** `clear-chat-request`. */
    method ClearChatRequestRelay(sid: SocketId, to: Id, from: Id)
      modifies this`outbox
      ensures outbox == old(outbox) + Relayed(onlineUsers, to, ClearChatRequest(from), sid)
    {
      outbox := outbox + Relayed(onlineUsers, to, ClearChatRequest(from), sid);
    }

    /** `clear-chat-accept`: only the notification; the messages are deleted by the client's
        own call to the clear-chat endpoint. */
    method ClearChatAccept(sid: SocketId, to: Id)
      modifies this`outbox
      ensures outbox == old(outbox) + Relayed(onlineUsers, to, ClearChatAccepted, sid)
    {
      outbox := outbox + Relayed(onlineUsers, to, ClearChatAccepted, sid);
    }

    /** `clear-chat-reject`. */
    method ClearChatReject(sid: SocketId, to: Id)
      modifies this`outbox
      ensures outbox == old(outbox) + Relayed(onlineUsers, to, ClearChatRejected, sid)
    {
      outbox := outbox + Relayed(onlineUsers, to, ClearChatRejected, sid);
    }

    /** `edit-msg`. */
    method EditMsg(sid: SocketId, to: Id, msgId: Id, text: string)
      modifies this`outbox
      ensures outbox == old(outbox) + Relayed(onlineUsers, to, MsgEdited(msgId, text), sid)
    {
      outbox := outbox + Relayed(onlineUsers, to, MsgEdited(msgId, text), sid);
    }

    /** `delete-msg`. */
    method DeleteMsg(sid: SocketId, to: Id, msgId: Id)
      modifies this`outbox
      ensures outbox == old(outbox) + Relayed(onlineUsers, to, MsgDeleted(msgId), sid)
    {
      outbox := outbox + Relayed(onlineUsers, to, MsgDeleted(msgId), sid);
    }

    /** `typing`. */
    method Typing(sid: SocketId, to: Id, from: Id)
      modifies this`outbox
      ensures outbox == old(outbox) + Relayed(onlineUsers, to, UserTyping(from), sid)
    {
      outbox := outbox + Relayed(onlineUsers, to, UserTyping(from), sid);
    }

    /** `stop-typing`. */
    method StopTyping(sid: SocketId, to: Id, from: Id)
      modifies this`outbox
      ensures outbox == old(outbox) + Relayed(onlineUsers, to, UserStopTyping(from), sid)
    {
      outbox := outbox + Relayed(onlineUsers, to, UserStopTyping(from), sid);
    }

    /** `send-group-msg`: broadcast to every other connection; receivers filter by group. */
    method SendGroupMsg(sid: SocketId, groupId: Id, senderId: Id, sender: string, senderAvatar: string, msg: string, id: Id)
      modifies this`outbox
      ensures outbox == old(outbox) + [Emit(AllBut(sid), GroupMsgReceive(groupId, senderId, sender, senderAvatar, msg, id))]
    {
      outbox := outbox + [Emit(AllBut(sid), GroupMsgReceive(groupId, senderId, sender, senderAvatar, msg, id))];
    }

    /** `disconnect`: the first entry, in registration order, whose connection is `sid` is
        removed and its user announced offline; the search stops there. */
    method Disconnect(sid: SocketId)
      requires Valid()
      modifies this`onlineUsers, this`outbox
      ensures Valid()
      ensures match Find(old(onlineUsers), EntrySocket, sid)
              case None => onlineUsers == old(onlineUsers) && outbox == old(outbox)
              case Some(i) => onlineUsers == RemoveAt(old(onlineUsers), i)
                              && outbox == old(outbox) + [Emit(Everyone, UserOffline(old(onlineUsers)[i].user))]
    {
      var i := 0;
      while i < |onlineUsers|
        invariant 0 <= i <= |onlineUsers|
        invariant forall k :: 0 <= k < i ==> onlineUsers[k].socket != sid
      {
        if onlineUsers[i].socket == sid {
          FindFirst(onlineUsers, EntrySocket, sid, i);
          RemoveAtKeys(onlineUsers, i);
          var user := onlineUsers[i].user;
          onlineUsers := RemoveAt(onlineUsers, i);
          outbox := outbox + [Emit(Everyone, UserOffline(user))];
          return;
        }
        i := i + 1;
      }
    }

    /** The part of the state a tick writes. */
    ghost function TickView(): TickState
      reads this, db
    {
      TickState(db.scheduled, db.messages, db.nextId, outbox)
    }

    /** One run of the cron job at `now`. The due records are those of the query, in store
        order; each is delivered in turn, and the first exception ends the run (`fault`
        says where a store call throws). Every id stays below the next id. */
    method Tick(now: Time, fault: Fault)
      requires db.Valid()
      modifies db`messages, db`scheduled, db`nextId, this`outbox
      ensures db.Valid()
      ensures db.users == old(db.users) && onlineUsers == old(onlineUsers) && chatSocket == old(chatSocket)
      ensures TickView() == TickOutcome(old(TickView()), db.users, onlineUsers, chatSocket, now, fault)
    {
      ghost var st := TickView();
      RunDue(now, fault);
      TickKeepsIds(st, db.groups, db.groupMessages, db.users, onlineUsers, chatSocket, now, fault);
    }

    /** The loop of the cron job over the due records. */
    method RunDue(now: Time, fault: Fault)
      modifies db`messages, db`scheduled, db`nextId, this`outbox
      ensures TickView() == TickOutcome(old(TickView()), old(db.users), old(onlineUsers), old(chatSocket), now, fault)
    {
      ghost var st := TickView();
      var users, es, cs := db.users, onlineUsers, chatSocket;
      var due := DueIndices(db.scheduled, now);
      ProgressStart(st, users, es, cs, now);
      var j := 0;
      while j < |due|
        invariant 0 <= j <= |due|
        invariant StopFrom(st.scheduled, users, due, fault, j) == Completed(st.scheduled, users, now, fault)
        invariant TickView() == Progress(st, users, es, cs, now, due, j, j)
      {
        var stopped := DeliverNext(st, users, es, cs, now, fault, due, j);
        if stopped {
          return;
        }
        j := j + 1;
      }
      ProgressEnd(st, users, es, cs, now, fault);
    }

    /** One iteration of the tick's loop: the message of the j-th due record is created,
        the record is marked sent and saved, and the push goes out; or the iteration
        throws and the run stops where it is. */
    method DeliverNext(ghost st: TickState, users: seq<User>, es: seq<Entry>, cs: Option<SocketId>,
                       now: Time, fault: Fault, due: seq<nat>, j: nat) returns (stopped: bool)
      requires due == DueIndices(st.scheduled, now) && j < |due|
      requires StopFrom(st.scheduled, users, due, fault, j) == Completed(st.scheduled, users, now, fault)
      requires TickView() == Progress(st, users, es, cs, now, due, j, j)
      modifies db`messages, db`scheduled, db`nextId, this`outbox
      ensures stopped ==> TickView() == TickOutcome(st, users, es, cs, now, fault)
      ensures !stopped ==> StopFrom(st.scheduled, users, due, fault, j + 1) == Completed(st.scheduled, users, now, fault)
                           && TickView() == Progress(st, users, es, cs, now, due, j + 1, j + 1)
    {
      CreateStep(st, users, es, cs, now, due, j);
      var r := db.scheduled[due[j]];
      if Orphaned(r, users) || fault == CreateFails(j) {
        assert Completed(st.scheduled, users, now, fault) == j == CreatedCount(st.scheduled, users, now, fault);
        return true;
      }
      var id := db.nextId;
      db.messages := db.messages + [Promote(r, id, now)];
      db.nextId := db.nextId + 1;
      if fault == SaveFails(j) {
        assert Completed(st.scheduled, users, now, fault) == j && CreatedCount(st.scheduled, users, now, fault) == j + 1;
        return true;
      }
      SaveStep(st, users, es, cs, now, due, j, r, id);
      db.scheduled := db.scheduled[due[j] := MarkedSent(r, now)];
      outbox := outbox + Push(r, id, users, es, cs);
      return false;
    }
  }
}
