/** The presence registry of the realtime server (the `onlineUsers` Map of
    server/index.js) and the events the server emits. A JavaScript Map keeps its keys
    in insertion order and `set` on an existing key replaces the value in place, so
    the registry is an association list with distinct keys. */
module Registry {
  import opened Common

  /** One `onlineUsers` entry: a user id and the socket it registered from. */
  datatype Entry = Entry(user: Id, socket: SocketId)

  function EntryUser(e: Entry): Id { e.user }
  function EntrySocket(e: Entry): SocketId { e.socket }

  /** The Map invariant: no user id is a key twice. */
  predicate DistinctKeys(es: seq<Entry>) {
    forall i, j :: 0 <= i < j < |es| ==> es[i].user != es[j].user
  }

  /** `onlineUsers.get(u)`. */
  function Lookup(es: seq<Entry>, u: Id): (r: Option<SocketId>)
    ensures r.Some? <==> exists i :: 0 <= i < |es| && es[i].user == u
    ensures r.Some? ==> Entry(u, r.value) in es
  {
    match Find(es, EntryUser, u)
    case None => None
    case Some(i) => Some(es[i].socket)
  }

  /** `onlineUsers.set(u, s)`: the value of an existing key is replaced where it stands,
      a new key goes at the end; the map then holds the pair, every other entry keeps its
      place, and it grows by one exactly when u was not a key. */
  function Set(es: seq<Entry>, u: Id, s: SocketId): (r: seq<Entry>)
    ensures |r| == if u in Keys(es) then |es| else |es| + 1
    ensures Entry(u, s) in r
    ensures forall k :: 0 <= k < |es| && es[k].user != u ==> r[k] == es[k]
  {
    match Find(es, EntryUser, u)
    case Some(i) =>
      assert Keys(es)[i] == u;
      var r := es[i := Entry(u, s)];
      assert r[i] == Entry(u, s);
      r
    case None =>
      var r := es + [Entry(u, s)];
      assert r[|es|] == Entry(u, s);
      r
  }

  /** `Array.from(onlineUsers.keys())`. */
  function Keys(es: seq<Entry>): (r: seq<Id>)
    ensures |r| == |es| && forall i :: 0 <= i < |es| ==> r[i] == es[i].user
  {
    seq(|es|, i requires 0 <= i < |es| => es[i].user)
  }

  /** After registering, the user maps to the new socket. */
  lemma SetThenLookup(es: seq<Entry>, u: Id, s: SocketId)
    ensures Lookup(Set(es, u, s), u) == Some(s)
  {
    var r := Set(es, u, s);
    match Find(es, EntryUser, u)
    case Some(i) =>
      assert Find(r, EntryUser, u) == Some(i) by {
        assert forall k :: 0 <= k < i ==> r[k] == es[k];
        FindFirst(r, EntryUser, u, i);
      }
    case None =>
      assert Find(r, EntryUser, u) == Some(|es|) by {
        FindFirst(r, EntryUser, u, |es|);
      }
  }

  /** Registering one user leaves every other user's entry as it was. */
  lemma SetLeavesOthers(es: seq<Entry>, u: Id, s: SocketId, v: Id)
    requires v != u
    ensures Lookup(Set(es, u, s), v) == Lookup(es, v)
  {
    var r := Set(es, u, s);
    assert forall k :: 0 <= k < |es| ==> r[k].user == es[k].user || (r[k].user == u && es[k].user == u);
    match Find(es, EntryUser, v)
    case Some(i) =>
      FindFirst(r, EntryUser, v, i);
    case None =>
      assert Find(r, EntryUser, v).None?;
  }

  /** Registering keeps the keys distinct, and adds the key at the end only when it is new. */
  lemma SetKeys(es: seq<Entry>, u: Id, s: SocketId)
    requires DistinctKeys(es)
    ensures DistinctKeys(Set(es, u, s))
    ensures Keys(Set(es, u, s)) == if u in Keys(es) then Keys(es) else Keys(es) + [u]
  {
    var r := Set(es, u, s);
    match Find(es, EntryUser, u)
    case Some(i) =>
      assert Keys(r) == Keys(es);
    case None =>
      assert u !in Keys(es);
      assert Keys(r) == Keys(es) + [u];
  }

  /** Removing an entry of a Map removes exactly that key. */
  lemma RemoveAtKeys(es: seq<Entry>, i: nat)
    requires DistinctKeys(es) && i < |es|
    ensures DistinctKeys(RemoveAt(es, i))
    ensures Lookup(RemoveAt(es, i), es[i].user).None?
    ensures forall v :: v != es[i].user ==> Lookup(RemoveAt(es, i), v) == Lookup(es, v)
  {
    var r := RemoveAt(es, i);
    forall v | v != es[i].user ensures Lookup(r, v) == Lookup(es, v) {
      match Find(es, EntryUser, v)
      case Some(j) =>
        if j < i {
          FindFirst(r, EntryUser, v, j);
        } else {
          FindFirst(r, EntryUser, v, j - 1);
        }
      case None =>
    }
  }

  // ---------------------------------------------------------------------------
  // Emitted events
  // ---------------------------------------------------------------------------

  /** Who receives an emitted event: every connection (`io.emit`), the requesting
      connection itself (`socket.emit`), the connection `room` unless it is the emitting
      one `except` (`socket.to(room).emit`), or every connection but the emitting one
      (`socket.broadcast.emit`). */
  datatype Target = Everyone | ToSelf(socket: SocketId) | ToRoom(room: SocketId, except: SocketId) | AllBut(socket: SocketId)

  /** Whether the connection s receives an event sent to t. */
  predicate Reaches(t: Target, s: SocketId) {
    match t
    case Everyone => true
    case ToSelf(x) => s == x
    case ToRoom(room, except) => s == room && s != except
    case AllBut(x) => s != x
  }

  /** The server-to-client events and their payloads. */
  datatype Event =
    | UserOnline(userId: Id)
    | UserOffline(userId: Id)
    | OnlineUsers(users: seq<Id>)
    | MsgReceive(from: Id, msg: string, senderName: string, storedId: Option<Id>)
    | MsgSeen(from: Id)
    | ClearChatRequest(from: Id)
    | ClearChatAccepted
    | ClearChatRejected
    | MsgEdited(msgId: Id, text: string)
    | MsgDeleted(msgId: Id)
    | UserTyping(from: Id)
    | UserStopTyping(from: Id)
    | GroupMsgReceive(groupId: Id, senderId: Id, sender: string, senderAvatar: string, msg: string, msgId: Id)

  datatype Emit = Emit(target: Target, event: Event)

  /** The one-to-one relay of a handler running on connection `sender`: the event goes to
      the recipient's registered connection, and nowhere when the recipient is not registered. */
  function Relayed(es: seq<Entry>, to: Id, ev: Event, sender: SocketId): (r: seq<Emit>)
    ensures |r| <= 1
    ensures |r| == 1 <==> Lookup(es, to).Some?
    ensures |r| == 1 ==> r[0].event == ev
  {
    match Lookup(es, to)
    case Some(s) => [Emit(ToRoom(s, sender), ev)]
    case None => []
  }

  /** A relayed event reaches exactly the recipient's registered connection, and only
      when that connection is not the sender's own. */
  lemma RelayedReaches(es: seq<Entry>, to: Id, ev: Event, sender: SocketId, s: SocketId)
    ensures (exists e :: e in Relayed(es, to, ev, sender) && Reaches(e.target, s))
            <==> Lookup(es, to) == Some(s) && s != sender
  {
    var r := Relayed(es, to, ev, sender);
    if Lookup(es, to) == Some(s) && s != sender {
      assert r[0] in r && Reaches(r[0].target, s);
    }
  }
}
