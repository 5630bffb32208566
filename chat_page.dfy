/** The state reducers of the chat page (cHat/src/pages/Chat.jsx): the list of online
    user ids kept from presence events, and the contact list with its unread counters and
    its most-recent-first ordering. */
module ChatPage {
  import opened Common
  import Accounts

  /** A presence event the page receives. */
  datatype PresenceEvent =
    | UserOnline(user: Id)          // `user-online`
    | UserOffline(user: Id)         // `user-offline`
    | OnlineUsers(users: seq<Id>)   // `online-users`, the answer to `get-online-users`

  /** `user-online` adds the id as a set union would: no id is listed twice, the new id is
      listed, and the ids already listed stay listed, in their order. */
  function AddOnline(prev: seq<Id>, u: Id): (r: seq<Id>)
    ensures NoDuplicates(r) && u in r
    ensures forall x :: x in r <==> x in prev || x == u
    ensures NoDuplicates(prev) && u in prev ==> r == prev
    ensures NoDuplicates(prev) && u !in prev ==> r == prev + [u]
  {
    var r := Dedup(prev + [u]);
    assert (prev + [u])[|prev|] == u;
    assert forall k :: 0 <= k < |prev| ==> (prev + [u])[k] == prev[k];
    if NoDuplicates(prev) && u !in prev then
      assert NoDuplicates(prev + [u]);
      r
    else r
  }

  /** `user-offline` removes every occurrence of the id and keeps every other id. */
  function DropOnline(prev: seq<Id>, u: Id): (r: seq<Id>)
    ensures u !in r
    ensures forall x :: x in r <==> x in prev && x != u
    ensures u !in prev ==> r == prev
  {
    RemoveAll(prev, u)
  }

  /** The event names x as online: a `user-online` for x or a snapshot listing x. */
  predicate Announces(e: PresenceEvent, x: Id) {
    match e
    case UserOnline(u) => x == u
    case UserOffline(_) => false
    case OnlineUsers(users) => x in users
  }

  /** The online list after one event: `user-online` lists its id, `user-offline` unlists
      its id, `online-users` replaces the list wholesale; an id is listed afterwards only
      if it was listed before or the event names it. */
  function Step(prev: seq<Id>, e: PresenceEvent): (r: seq<Id>)
    ensures e.UserOnline? ==> e.user in r && forall x :: x in prev ==> x in r
    ensures e.UserOffline? ==> e.user !in r && forall x :: x in prev && x != e.user ==> x in r
    ensures e.OnlineUsers? ==> r == e.users
    ensures forall x :: x in r ==> (x in prev && !(e.UserOffline? && e.user == x)) || Announces(e, x)
  {
    match e
    case UserOnline(u) => AddOnline(prev, u)
    case UserOffline(u) => DropOnline(prev, u)
    case OnlineUsers(users) => users
  }

  /** The online list after a run of events, oldest first: an id is listed at the end
      only if it was listed at the start or some event of the run named it. */
  function Replay(prev: seq<Id>, es: seq<PresenceEvent>): (r: seq<Id>)
    ensures es == [] ==> r == prev
    ensures forall x :: x in r ==> x in prev || exists k :: 0 <= k < |es| && Announces(es[k], x)
    decreases |es|
  {
    if es == [] then prev
    else
      var r := Replay(Step(prev, es[0]), es[1..]);
      assert forall k :: 0 <= k < |es[1..]| ==> es[1..][k] == es[k + 1];
      r
  }

  /** A snapshot lists no id twice. */
  predicate Snapshot(e: PresenceEvent) {
    e.OnlineUsers? ==> NoDuplicates(e.users)
  }

  /** The online list never lists an id twice, as long as the server's snapshots do not. */
  lemma {:induction false} ReplayKeepsNoDuplicates(prev: seq<Id>, es: seq<PresenceEvent>)
    requires NoDuplicates(prev)
    requires forall k :: 0 <= k < |es| ==> Snapshot(es[k])
    ensures NoDuplicates(Replay(prev, es))
    decreases |es|
  {
    if es != [] {
      assert Snapshot(es[0]);
      var next := Step(prev, es[0]);
      assert NoDuplicates(next) by {
        match es[0]
        case UserOnline(u) =>
        case UserOffline(u) =>
          RemoveKeepsNoDuplicates(prev, u);
        case OnlineUsers(users) =>
      }
      forall k | 0 <= k < |es[1..]| ensures Snapshot(es[1..][k]) {
        assert es[1..][k] == es[k + 1];
      }
      ReplayKeepsNoDuplicates(next, es[1..]);
    }
  }

  /** Removing every occurrence of a value keeps a duplicate-free list duplicate-free. */
  lemma {:induction false} RemoveKeepsNoDuplicates(s: seq<Id>, x: Id)
    requires NoDuplicates(s)
    ensures NoDuplicates(RemoveAll(s, x))
  {
    if s != [] {
      var init := s[..|s| - 1];
      var last := s[|s| - 1];
      assert NoDuplicates(init) by {
        forall i, j | 0 <= i < j < |init| ensures init[i] != init[j] {
          assert init[i] == s[i] && init[j] == s[j];
        }
      }
      RemoveKeepsNoDuplicates(init, x);
      if last != x {
        var rest := RemoveAll(init, x);
        assert last !in init by {
          forall k | 0 <= k < |init| ensures init[k] != last {
            assert init[k] == s[k];
          }
        }
        assert RemoveAll(s, x) == rest + [last];
      }
    }
  }

  /** Whatever the list was before a snapshot, it is the snapshot afterwards: the history
      before an `online-users` answer is forgotten. */
  lemma SnapshotForgetsHistory(prev1: seq<Id>, prev2: seq<Id>, users: seq<Id>, es: seq<PresenceEvent>)
    ensures Replay(prev1, [OnlineUsers(users)] + es) == Replay(prev2, [OnlineUsers(users)] + es)
  {
    var run := [OnlineUsers(users)] + es;
    assert run[0] == OnlineUsers(users) && run[1..] == es;
  }

  /** A contact row of the page: the fields of the server's contact list that the page
      uses, plus the unread counter it keeps itself (absent counts as 0). */
  datatype Entry = Entry(id: Id, username: string, avatarImage: string,
                         lastMessageTime: Option<Time>, unreadCount: nat)

  /** The sort time of a row: its last message time, or 0 when it has none. */
  function TimeOf(c: Entry): Time {
    if c.lastMessageTime.Some? then c.lastMessageTime.value else 0
  }

  function RecencyKey(c: Entry): int { -TimeOf(c) }

  /** The comparator `timeB - timeA` sorts rows by descending last message time. */
  function SortContacts(cs: seq<Entry>): (r: seq<Entry>)
    ensures forall i, j :: 0 <= i < j < |r| ==> TimeOf(r[i]) >= TimeOf(r[j])
    ensures multiset(r) == multiset(cs)
  {
    var r := SortBy(cs, RecencyKey);
    assert forall i, j :: 0 <= i < j < |r| ==> RecencyKey(r[i]) <= RecencyKey(r[j]);
    r
  }

  /** The row the page keeps for a contact of the server's list: the reply has no unread
      counter, so the row starts with none. */
  function Row(c: Accounts.Contact): Entry {
    Entry(c.id, c.username, c.avatarImage, c.lastMessageTime, 0)
  }

  /** The rows of the server's list, in its order. */
  function Rows(reply: seq<Accounts.Contact>): (rows: seq<Entry>)
    ensures |rows| == |reply| && forall k :: 0 <= k < |rows| ==> rows[k] == Row(reply[k])
    ensures forall c :: c in reply ==> Row(c) in rows
    ensures forall x :: x in rows ==> exists c :: c in reply && x == Row(c)
  {
    var rows := seq(|reply|, k requires 0 <= k < |reply| => Row(reply[k]));
    assert forall c :: c in reply ==> Row(c) in rows by {
      forall c | c in reply ensures Row(c) in rows {
        var k :| 0 <= k < |reply| && reply[k] == c;
        assert rows[k] == Row(c);
      }
    }
    rows
  }

  /** Loading the contact list, on mount and on every `refetchContacts`: the server's
      list sorted most recent first, one row per contact and nothing else, and every
      unread counter at 0 whatever the page had counted before. */
  function Loaded(reply: seq<Accounts.Contact>): (r: seq<Entry>)
    ensures |r| == |reply|
    ensures forall i, j :: 0 <= i < j < |r| ==> TimeOf(r[i]) >= TimeOf(r[j])
    ensures forall k :: 0 <= k < |r| ==> r[k].unreadCount == 0
    ensures forall c :: c in reply ==> Row(c) in r
    ensures forall x :: x in r ==> exists c :: c in reply && x == Row(c)
  {
    var rows := Rows(reply);
    var r := SortContacts(rows);
    assert |r| == |multiset(r)| == |multiset(rows)| == |rows|;
    SameElements(r, rows);
    assert forall k :: 0 <= k < |r| ==> r[k].unreadCount == 0 by {
      forall k | 0 <= k < |r| ensures r[k].unreadCount == 0 {
        assert r[k] in rows;
      }
    }
    r
  }

  /** Opening a chat clears that contact's unread counter. */
  function OpenChat(cs: seq<Entry>, chat: Id): (r: seq<Entry>)
    ensures |r| == |cs|
    ensures forall k :: 0 <= k < |r| ==> r[k].id == cs[k].id && r[k].lastMessageTime == cs[k].lastMessageTime
    ensures forall k :: 0 <= k < |r| ==> (r[k].unreadCount == 0 <==> cs[k].id == chat || cs[k].unreadCount == 0)
    ensures forall k :: 0 <= k < |r| && cs[k].id != chat ==> r[k] == cs[k]
    ensures forall k :: 0 <= k < |r| && cs[k].id == chat ==> r[k] == cs[k].(unreadCount := 0)
  {
    seq(|cs|, k requires 0 <= k < |cs| => if cs[k].id == chat then cs[k].(unreadCount := 0) else cs[k])
  }

  /** Opening the same chat twice is opening it once. */
  lemma OpenChatIdempotent(cs: seq<Entry>, chat: Id)
    ensures OpenChat(OpenChat(cs, chat), chat) == OpenChat(cs, chat)
  {
  }

  /** The row of the sender of an arriving message: one more unread message, last message
      time now. */
  function Bumped(c: Entry, now: Time): (b: Entry)
    ensures b.id == c.id && b.username == c.username && b.avatarImage == c.avatarImage
    ensures b.unreadCount == c.unreadCount + 1 && TimeOf(b) == now
  {
    c.(unreadCount := c.unreadCount + 1, lastMessageTime := Some(now))
  }

  /** The rows with the sender's rows bumped, before sorting. */
  function BumpSender(cs: seq<Entry>, from: Id, now: Time): (r: seq<Entry>)
    ensures |r| == |cs|
    ensures forall k :: 0 <= k < |cs| ==> r[k] == (if cs[k].id == from then Bumped(cs[k], now) else cs[k])
  {
    seq(|cs|, k requires 0 <= k < |cs| => if cs[k].id == from then Bumped(cs[k], now) else cs[k])
  }

  /** The `msg-recieve` handler: a message from the open chat leaves the rows alone;
      a message from anyone else bumps the sender's rows and re-sorts. */
  function Incoming(cs: seq<Entry>, currentChat: Option<Id>, from: Id, now: Time): (r: seq<Entry>)
    ensures currentChat == Some(from) ==> r == cs
    ensures currentChat != Some(from) ==> multiset(r) == multiset(BumpSender(cs, from, now))
    ensures currentChat != Some(from) ==> forall i, j :: 0 <= i < j < |r| ==> TimeOf(r[i]) >= TimeOf(r[j])
  {
    if currentChat == Some(from) then cs else SortContacts(BumpSender(cs, from, now))
  }

  /** What an arriving message from another contact does to the rows: each of the
      sender's rows comes back with exactly one more unread message, every other row comes
      back unchanged, and there is nothing else. */
  lemma IncomingBumpsOnlySender(cs: seq<Entry>, currentChat: Option<Id>, from: Id, now: Time)
    requires currentChat != Some(from)
    ensures forall k :: 0 <= k < |cs| && cs[k].id == from ==> Bumped(cs[k], now) in Incoming(cs, currentChat, from, now)
    ensures forall k :: 0 <= k < |cs| && cs[k].id != from ==> cs[k] in Incoming(cs, currentChat, from, now)
    ensures forall x :: x in Incoming(cs, currentChat, from, now) ==>
              exists k :: 0 <= k < |cs| && x == (if cs[k].id == from then Bumped(cs[k], now) else cs[k])
  {
    var b := BumpSender(cs, from, now);
    var r := Incoming(cs, currentChat, from, now);
    SameElements(r, b);
    forall k | 0 <= k < |cs| ensures b[k] in r { }
    forall x | x in r
      ensures exists k :: 0 <= k < |cs| && x == (if cs[k].id == from then Bumped(cs[k], now) else cs[k])
    {
      var k :| 0 <= k < |b| && b[k] == x;
    }
  }

  /** The sender's row moves to the top: after a message from another contact, the first
      row has the latest last-message time, now, provided no row has a later one. */
  lemma SenderMovesToTop(cs: seq<Entry>, currentChat: Option<Id>, from: Id, now: Time, k: nat)
    requires currentChat != Some(from) && k < |cs| && cs[k].id == from
    requires forall j :: 0 <= j < |cs| ==> TimeOf(cs[j]) <= now
    ensures |Incoming(cs, currentChat, from, now)| > 0
    ensures TimeOf(Incoming(cs, currentChat, from, now)[0]) == now
  {
    var r := Incoming(cs, currentChat, from, now);
    IncomingBumpsOnlySender(cs, currentChat, from, now);
    var i :| 0 <= i < |r| && r[i] == Bumped(cs[k], now);
    var x := r[0];
    assert x in r;
    assert TimeOf(x) <= now;
  }

  /** An arriving message from another contact is counted, but the refetch the handler
      schedules 100 ms later replaces the rows with the server's list, which carries no
      counter: once it lands the sender's counter is back at 0. */
  lemma RefetchResetsCount(cs: seq<Entry>, currentChat: Option<Id>, from: Id, now: Time, k: nat,
                           reply: seq<Accounts.Contact>)
    requires currentChat != Some(from) && k < |cs| && cs[k].id == from
    ensures exists x :: x in Incoming(cs, currentChat, from, now) && x.id == from && x.unreadCount >= 1
    ensures forall x :: x in Loaded(reply) && x.id == from ==> x.unreadCount == 0
  {
    IncomingBumpsOnlySender(cs, currentChat, from, now);
    assert Bumped(cs[k], now) in Incoming(cs, currentChat, from, now);
  }

  /** The body of the browser notification: the first 100 characters of the message. */
  function NotificationBody(msg: string): (r: string)
    ensures |r| <= 100 && r <= msg
    ensures |msg| <= 100 ==> r == msg
    ensures |msg| > 100 ==> |r| == 100
  {
    if |msg| <= 100 then msg else msg[..100]
  }
}
