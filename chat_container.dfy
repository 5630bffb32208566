/** The open conversation panel (cHat/src/components/ChatContainer.jsx): the list of
    message bubbles it keeps, how socket events and the user's own actions update that
    list in place, the clear-chat handshake flags, and the guards of the context menu and
    of swipe-to-reply. */
module ChatWindow {
  import opened Common
  import opened Models
  import Messaging

  /** A bubble after an edit: the new text, marked edited, and the edit time when the
      edit is the user's own (`stamp`); a relayed edit keeps the old edit time. */
  function EditView(v: MessageView, text: string, stamp: Option<Time>): (e: MessageView)
    ensures e.id == v.id && e.fromSelf == v.fromSelf && e.fileUrl == v.fileUrl
    ensures e.isDeleted == v.isDeleted && e.isRead == v.isRead && e.createdAt == v.createdAt
    ensures e.text == Some(text) && e.isEdited
    ensures e.editedAt == (if stamp.Some? then stamp else v.editedAt)
  {
    v.(text := Some(text), isEdited := true, editedAt := if stamp.Some? then stamp else v.editedAt)
  }

  /** Every bubble of the stored message with the id edited, every other bubble (a bubble
      with a temporary id included) left as it is. */
  function EditAll(ms: seq<MessageView>, id: Id, text: string, stamp: Option<Time>): (r: seq<MessageView>)
    ensures |r| == |ms|
    ensures forall k :: 0 <= k < |ms| ==> r[k].id == ms[k].id
    ensures forall k :: 0 <= k < |ms| && ms[k].id != Stored(id) ==> r[k] == ms[k]
    ensures forall k :: 0 <= k < |ms| && ms[k].id == Stored(id) ==> r[k] == EditView(ms[k], text, stamp)
  {
    seq(|ms|, k requires 0 <= k < |ms| => if ms[k].id == Stored(id) then EditView(ms[k], text, stamp) else ms[k])
  }

  /** A deleted bubble: it stays where it is, with the deletion text and marked deleted;
      its id, file, edit flag and times are those of the live bubble. */
  function TombstoneView(v: MessageView): (t: MessageView)
    ensures t.(text := v.text, isDeleted := v.isDeleted) == v
    ensures t.text == Some(Messaging.DeletedText) && t.isDeleted
  {
    v.(text := Some(Messaging.DeletedText), isDeleted := true)
  }

  /** Every bubble of the stored message with the id tombstoned: nothing is removed and
      nothing moves. */
  function Tombstoned(ms: seq<MessageView>, id: Id): (r: seq<MessageView>)
    ensures |r| == |ms|
    ensures forall k :: 0 <= k < |ms| ==> r[k].id == ms[k].id
    ensures forall k :: 0 <= k < |ms| && ms[k].id != Stored(id) ==> r[k] == ms[k]
    ensures forall k :: 0 <= k < |ms| && ms[k].id == Stored(id) ==> r[k] == TombstoneView(ms[k])
  {
    seq(|ms|, k requires 0 <= k < |ms| => if ms[k].id == Stored(id) then TombstoneView(ms[k]) else ms[k])
  }

  /** The other side has seen the conversation: every own bubble is marked read, received
      bubbles are left alone, and no bubble becomes unread. */
  function SeenAll(ms: seq<MessageView>): (r: seq<MessageView>)
    ensures |r| == |ms|
    ensures forall k :: 0 <= k < |ms| && ms[k].fromSelf ==> r[k] == ms[k].(isRead := true)
    ensures forall k :: 0 <= k < |ms| && !ms[k].fromSelf ==> r[k] == ms[k]
    ensures forall k :: 0 <= k < |ms| && ms[k].isRead ==> r[k].isRead
  {
    seq(|ms|, k requires 0 <= k < |ms| => if ms[k].fromSelf then ms[k].(isRead := true) else ms[k])
  }

  /** The bubble an incoming message becomes: received, unread, unedited, with the
      arrival time standing in for both its temporary id and its creation time. */
  function Arrival(text: string, now: Time): (v: MessageView)
    ensures !v.fromSelf && !v.isRead && !v.isEdited && !v.isDeleted
    ensures v.text == Some(text) && v.createdAt == now
    ensures v.id.Temp?
  {
    MessageView(Temp(now), false, Some(text), None, false, false, false, None, now)
  }

  /** The bubble of the user's own message once the server has stored it. */
  function OwnBubble(stored: Message): (v: MessageView)
    ensures v.id == Stored(stored.id) && v.fromSelf && v.createdAt == stored.createdAt
    ensures v.text == OrNull(stored.body.text) && v.fileUrl == OrNull(stored.body.fileUrl)
    ensures !v.isRead && !v.isEdited && !v.isDeleted
  {
    MessageView(Stored(stored.id), true, OrNull(stored.body.text), OrNull(stored.body.fileUrl), false, false, false, None, stored.createdAt)
  }

  /** The context menu (edit, delete) opens only on the user's own live bubbles. */
  predicate CanOpenContextMenu(v: MessageView)
    ensures CanOpenContextMenu(v) ==> v.fromSelf
    ensures v.isDeleted ==> !CanOpenContextMenu(v)
  {
    v.fromSelf && !v.isDeleted
  }

  const MinSwipeDistance := 50

  /** Swipe-to-reply fires on a phone-sized screen, on a received live bubble, when the
      finger moved more than 50 pixels to the left. */
  predicate SwipeReplies(isMobile: bool, v: MessageView, touchStartX: int, touchEndX: int)
    ensures SwipeReplies(isMobile, v, touchStartX, touchEndX) ==> isMobile && !v.fromSelf && !v.isDeleted
    ensures touchStartX - touchEndX <= MinSwipeDistance ==> !SwipeReplies(isMobile, v, touchStartX, touchEndX)
  {
    isMobile && !v.isDeleted && touchEndX - touchStartX < -MinSwipeDistance && !v.fromSelf
  }

  /** No bubble offers both gestures: the context menu is for own bubbles, the swipe for
      received ones, and a tombstone offers neither. */
  lemma GesturesExclusive(isMobile: bool, v: MessageView, touchStartX: int, touchEndX: int)
    ensures !(CanOpenContextMenu(v) && SwipeReplies(isMobile, v, touchStartX, touchEndX))
    ensures v.isDeleted ==> !CanOpenContextMenu(v) && !SwipeReplies(isMobile, v, touchStartX, touchEndX)
  {
  }

  /** After a deletion no bubble with that id can be edited or deleted again from the
      context menu, nor replied to. */
  lemma {:induction false} TombstoneIsInert(ms: seq<MessageView>, id: Id, k: nat, isMobile: bool, touchStartX: int, touchEndX: int)
    requires k < |ms| && ms[k].id == Stored(id)
    ensures !CanOpenContextMenu(Tombstoned(ms, id)[k])
    ensures !SwipeReplies(isMobile, Tombstoned(ms, id)[k], touchStartX, touchEndX)
  {
    assert Tombstoned(ms, id)[k] == TombstoneView(ms[k]);
  }

  /** A bubble built from a socket event keeps its temporary id, so no relayed edit or
      deletion ever reaches it: it keeps its text and stays live until the conversation
      is reloaded. */
  lemma {:induction false} RelayedSkipsArrivals(ms: seq<MessageView>, text: string, now: Time, id: Id, newText: string)
    ensures var ms' := ms + [Arrival(text, now)];
            EditAll(ms', id, newText, None)[|ms|] == Arrival(text, now)
            && Tombstoned(ms', id)[|ms|] == Arrival(text, now)
  {
  }

  /** Deleting twice is deleting once, whether the local and the relayed deletion both
      arrive or not. */
  lemma TombstoneIdempotent(ms: seq<MessageView>, id: Id)
    ensures Tombstoned(Tombstoned(ms, id), id) == Tombstoned(ms, id)
  {
  }

  /** A second seen notification changes nothing. */
  lemma SeenIdempotent(ms: seq<MessageView>)
    ensures SeenAll(SeenAll(ms)) == SeenAll(ms)
  {
  }

  /** The state of the panel for the conversation with `currentChat`. `listening` holds,
      in registration order, every chat for which the listener effect has registered its
      `msg-recieve`, `msg-seen` and typing handlers on the socket: the effect runs again
      on every change of chat and never removes what it registered, so the handlers of
      the chats opened earlier stay on the socket and still compare against their own
      chat. */
  class ChatView {
    var currentChat: Id
    var listening: seq<Id>
    var messages: seq<MessageView>
    var isTyping: bool
    var clearChatRequested: bool
    var clearChatPending: bool
    var replyingTo: Option<MessageView>

    /** The open chat always has its handlers registered. */
    predicate Valid()
      reads this
    {
      currentChat in listening
    }

    /** A fresh panel: no bubbles, no flags, the first chat's handlers registered. */
    constructor (chat: Id)
      ensures currentChat == chat && listening == [chat] && messages == [] && replyingTo.None?
      ensures !isTyping && !clearChatRequested && !clearChatPending
      ensures Valid()
    {
      currentChat := chat;
      listening := [chat];
      messages := [];
      isTyping := false;
      clearChatRequested := false;
      clearChatPending := false;
      replyingTo := None;
    }

    /** Switching to a conversation loads the bubbles the server returns for it and
        registers the new chat's handlers beside the old ones; the flags are not reset. */
    method Open(chat: Id, loaded: seq<MessageView>)
      modifies this
      ensures currentChat == chat && messages == loaded
      ensures listening == old(listening) + [chat]
      ensures isTyping == old(isTyping) && replyingTo == old(replyingTo)
      ensures clearChatRequested == old(clearChatRequested) && clearChatPending == old(clearChatPending)
      ensures Valid()
    {
      currentChat := chat;
      listening := listening + [chat];
      messages := loaded;
    }

    /** Switching to a conversation when the listener effect returns a cleanup that
        removes the handlers it registered, as the clear-chat effect does: only the new
        chat's handlers remain, so every handler compares against the open chat. */
    method OpenCleaned(chat: Id, loaded: seq<MessageView>)
      modifies this
      ensures currentChat == chat && messages == loaded && listening == [chat]
      ensures forall u :: u in listening <==> u == currentChat
      ensures isTyping == old(isTyping) && replyingTo == old(replyingTo)
      ensures clearChatRequested == old(clearChatRequested) && clearChatPending == old(clearChatPending)
      ensures Valid()
    {
      currentChat := chat;
      listening := [chat];
      messages := loaded;
    }

    /** `msg-recieve`: a message from a chat whose handler is registered (the open one,
        or one opened earlier) is appended at the end; one from anybody else leaves the
        list alone. */
    method Receive(from: Id, text: string, now: Time)
      modifies `messages
      ensures from in listening ==> messages == old(messages) + [Arrival(text, now)]
      ensures from !in listening ==> messages == old(messages)
      ensures Valid() && from == currentChat ==> messages == old(messages) + [Arrival(text, now)]
    {
      if from in listening {
        messages := messages + [Arrival(text, now)];
      }
    }

    /** The user's own message, once stored, is appended at the end. */
    method SendOwn(stored: Message)
      modifies `messages
      ensures messages == old(messages) + [OwnBubble(stored)]
    {
      messages := messages + [OwnBubble(stored)];
    }

    /** The user's own edit: applied in place, stamped with the time, only when the server
        accepted it. */
    method EditOwn(id: Id, text: string, now: Time, accepted: bool)
      modifies `messages
      ensures messages == if accepted then EditAll(old(messages), id, text, Some(now)) else old(messages)
    {
      if accepted {
        messages := EditAll(messages, id, text, Some(now));
      }
    }

    /** `msg-edited`: the relayed edit is applied in place, keeping the edit time. */
    method EditRelayed(id: Id, text: string)
      modifies `messages
      ensures messages == EditAll(old(messages), id, text, None)
    {
      messages := EditAll(messages, id, text, None);
    }

    /** The user's own deletion: the bubble is tombstoned in place when the server
        accepted it. */
    method DeleteOwn(id: Id, accepted: bool)
      modifies `messages
      ensures messages == if accepted then Tombstoned(old(messages), id) else old(messages)
    {
      if accepted {
        messages := Tombstoned(messages, id);
      }
    }

    /** `msg-deleted`: the relayed deletion tombstones the bubble in place. */
    method DeleteRelayed(id: Id)
      modifies `messages
      ensures messages == Tombstoned(old(messages), id)
    {
      messages := Tombstoned(messages, id);
    }

    /** `msg-seen`: when a partner whose handler is registered has seen their chat,
        every own bubble of the open list is marked read; a notification from anybody
        else changes nothing. */
    method Seen(from: Id)
      modifies `messages
      ensures messages == if from in listening then SeenAll(old(messages)) else old(messages)
      ensures Valid() && from == currentChat ==> messages == SeenAll(old(messages))
    {
      if from in listening {
        messages := SeenAll(messages);
      }
    }

    /** `user-typing` and `user-stop-typing`: a partner whose handler is registered moves
        the typing indicator; anybody else is ignored. */
    method Typing(from: Id, typing: bool)
      modifies `isTyping
      ensures isTyping == if from in listening then typing else old(isTyping)
      ensures Valid() && from == currentChat ==> isTyping == typing
    {
      if from in listening {
        isTyping := typing;
      }
    }

    /** The user asks the partner to clear the conversation. */
    method RequestClear()
      modifies `clearChatRequested
      ensures clearChatRequested
    {
      clearChatRequested := true;
    }

    /** `clear-chat-request`: a request from the open conversation's partner awaits an
        answer; one from anybody else is ignored. */
    method ClearRequested(from: Id)
      modifies `clearChatPending
      ensures clearChatPending == (from == currentChat || old(clearChatPending))
    {
      if from == currentChat {
        clearChatPending := true;
      }
    }

    /** The user accepts the partner's request: once the server has deleted the
        conversation the list empties and the request is answered; if the server call
        failed nothing changes. */
    method AcceptClear(deleted: bool)
      modifies `messages, `clearChatPending
      ensures deleted ==> messages == [] && !clearChatPending
      ensures !deleted ==> messages == old(messages) && clearChatPending == old(clearChatPending)
    {
      if deleted {
        messages := [];
        clearChatPending := false;
      }
    }

    /** The user rejects the partner's request: the request is answered, the list kept. */
    method RejectClear()
      modifies `clearChatPending
      ensures !clearChatPending
    {
      clearChatPending := false;
    }

    /** `clear-chat-accepted`: the partner accepted the user's request; the list empties. */
    method ClearAccepted()
      modifies `messages, `clearChatRequested
      ensures messages == [] && !clearChatRequested
    {
      messages := [];
      clearChatRequested := false;
    }

    /** `clear-chat-rejected`: the partner refused; the request is over, the list kept. */
    method ClearRejected()
      modifies `clearChatRequested
      ensures !clearChatRequested
    {
      clearChatRequested := false;
    }

    /** The end of a touch on a bubble: a qualifying swipe starts a reply to it. */
    method TouchEnd(isMobile: bool, v: MessageView, touchStartX: int, touchEndX: int)
      modifies `replyingTo
      ensures replyingTo == if SwipeReplies(isMobile, v, touchStartX, touchEndX) then Some(v) else old(replyingTo)
    {
      if isMobile && !v.isDeleted {
        var swipeDistance := touchEndX - touchStartX;
        if swipeDistance < -MinSwipeDistance && !v.fromSelf {
          replyingTo := Some(v);
        }
      }
    }
  }

  /** The panel as written, after switching from chat `a` to chat `b`: a seen
      notification from `a` marks `b`'s own bubbles read, a message from `a` is appended
      to `b`'s list, and `a` typing shows the indicator in `b`'s panel. */
  method StaleHandlersReachOpenChat(a: Id, b: Id, own: MessageView, text: string, now: Time)
    returns (shown: seq<MessageView>, typing: bool)
    requires a != b && own.fromSelf
    ensures shown == [own.(isRead := true), Arrival(text, now)]
    ensures typing
  {
    var view := new ChatView(a);
    view.Open(b, [own]);
    view.Seen(a);
    view.Receive(a, text, now);
    view.Typing(a, true);
    shown := view.messages;
    typing := view.isTyping;
  }

  /** The same events when switching chats removes the old handlers: `b`'s panel is
      left exactly as it was loaded. */
  method CleanedHandlersIgnoreOldChat(a: Id, b: Id, own: MessageView, text: string, now: Time)
    returns (shown: seq<MessageView>, typing: bool)
    requires a != b && own.fromSelf
    ensures shown == [own]
    ensures !typing
  {
    var view := new ChatView(a);
    view.OpenCleaned(b, [own]);
    view.Seen(a);
    view.Receive(a, text, now);
    view.Typing(a, true);
    shown := view.messages;
    typing := view.isTyping;
  }
}
