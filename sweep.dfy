/** The specification of one tick of the scheduled-message sweep (the cron job of
    server/index.js). A tick queries the pending records that are due, and for each in
    turn creates the real message, marks the record sent, and pushes the message to the
    recipient when the recipient is online. The whole loop sits in one try block, so the
    first exception ends the tick: the records after it stay pending until a later tick. */
module Sweep {
  import opened Common
  import opened Models
  import opened Store
  import opened Registry

  /** Where a store call throws during a tick, counted in iterations of the tick's loop:
      `Message.create` of iteration `at`, or the `save` of the record after it. */
  datatype Fault = NoFault | CreateFails(at: nat) | SaveFails(at: nat)

  /** The query `{ scheduledTime: { $lte: now }, status: 'pending' }`. */
  predicate IsDue(r: ScheduledMessage, now: Time) {
    r.status == Pending && r.scheduledTime <= now
  }

  predicate Increasing(d: seq<nat>) {
    forall a, b :: 0 <= a < b < |d| ==> d[a] < d[b]
  }

  predicate IndicesOf<T>(d: seq<nat>, s: seq<T>) {
    forall k :: 0 <= k < |d| ==> d[k] < |s|
  }

  /** The positions of the due records, in store order: exactly the due ones, each once. */
  function DueIndices(s: seq<ScheduledMessage>, now: Time): (d: seq<nat>)
    ensures IndicesOf(d, s) && Increasing(d)
    ensures forall k :: 0 <= k < |d| ==> IsDue(s[d[k]], now)
    ensures (forall i :: 0 <= i < |s| ==> !IsDue(s[i], now)) ==> d == []
  {
    if s == [] then []
    else
      var d := DueIndices(s[..|s| - 1], now);
      assert forall i :: 0 <= i < |s| - 1 ==> s[..|s| - 1][i] == s[i];
      if IsDue(s[|s| - 1], now) then d + [|s| - 1] else d
  }

  /** Every due record's position is among the due indices. */
  lemma {:induction false} DueIndicesComplete(s: seq<ScheduledMessage>, now: Time, i: nat)
    requires i < |s| && IsDue(s[i], now)
    ensures i in DueIndices(s, now)
  {
    var s' := s[..|s| - 1];
    if i < |s| - 1 {
      assert s'[i] == s[i];
      DueIndicesComplete(s', now, i);
    }
  }

  /** The sender or the recipient account no longer exists: `populate` leaves null in its
      place and reading its `_id` throws before anything is created. */
  predicate Orphaned(r: ScheduledMessage, users: seq<User>) {
    !HasUser(users, r.from) || !HasUser(users, r.to)
  }

  /** Some account has id u (what `populate` finds). */
  predicate HasUser(users: seq<User>, u: Id) {
    exists i | 0 <= i < |users| :: users[i].id == u
  }

  /** Iteration j of the tick throws. */
  predicate Throws(s: seq<ScheduledMessage>, users: seq<User>, d: seq<nat>, fault: Fault, j: nat)
    requires IndicesOf(d, s) && j < |d|
  {
    Orphaned(s[d[j]], users) || fault == CreateFails(j) || fault == SaveFails(j)
  }

  /** The first iteration at or after j that throws, or |d| when none does. */
  function StopFrom(s: seq<ScheduledMessage>, users: seq<User>, d: seq<nat>, fault: Fault, j: nat): (n: nat)
    requires IndicesOf(d, s) && j <= |d|
    ensures j <= n <= |d|
    decreases |d| - j
  {
    if j == |d| then j
    else if Throws(s, users, d, fault, j) then j
    else StopFrom(s, users, d, fault, j + 1)
  }

  /** How many due records a tick promotes completely. */
  function Completed(s: seq<ScheduledMessage>, users: seq<User>, now: Time, fault: Fault): nat {
    StopFrom(s, users, DueIndices(s, now), fault, 0)
  }

  /** How many messages a tick creates: one per completed record, plus one more when the
      tick ends because saving the record failed after its message was created. */
  function CreatedCount(s: seq<ScheduledMessage>, users: seq<User>, now: Time, fault: Fault): (c: nat)
    ensures Completed(s, users, now, fault) <= c <= Completed(s, users, now, fault) + 1
    ensures c <= |DueIndices(s, now)|
  {
    var d := DueIndices(s, now);
    var n := Completed(s, users, now, fault);
    if n < |d| && !Orphaned(s[d[n]], users) && fault == SaveFails(n) then n + 1 else n
  }

  /** The store after the records at positions L are marked sent at `now`. */
  function MarkSent(s: seq<ScheduledMessage>, L: seq<nat>, now: Time): (r: seq<ScheduledMessage>)
    requires IndicesOf(L, s)
    ensures |r| == |s|
  {
    if L == [] then s
    else
      var last := L[|L| - 1];
      MarkSent(s, L[..|L| - 1], now)[last := MarkedSent(s[last], now)]
  }

  /** Marking the records at positions L sent changes exactly those records, each to its
      sent state. */
  lemma {:induction false} MarkSentAt(s: seq<ScheduledMessage>, L: seq<nat>, now: Time, i: nat)
    requires IndicesOf(L, s) && i < |s|
    ensures MarkSent(s, L, now)[i] == if i in L then MarkedSent(s[i], now) else s[i]
  {
    if L != [] {
      var L' := L[..|L| - 1];
      assert L == L' + [L[|L| - 1]];
      MarkSentAt(s, L', now, i);
    }
  }

  /** The messages created for the records at positions L, with consecutive fresh ids. */
  function Promotions(s: seq<ScheduledMessage>, L: seq<nat>, id0: Id, now: Time): (r: seq<Message>)
    requires IndicesOf(L, s)
    ensures |r| == |L|
  {
    if L == [] then []
    else Promotions(s, L[..|L| - 1], id0, now) + [Promote(s[L[|L| - 1]], id0 + |L| - 1, now)]
  }

  /** The k-th created message promotes the k-th record of L and carries id id0 + k. */
  lemma {:induction false} PromotionsAt(s: seq<ScheduledMessage>, L: seq<nat>, id0: Id, now: Time, k: nat)
    requires IndicesOf(L, s) && k < |L|
    ensures Promotions(s, L, id0, now)[k] == Promote(s[L[k]], id0 + k, now)
  {
    if k < |L| - 1 {
      var L' := L[..|L| - 1];
      assert L'[k] == L[k];
      PromotionsAt(s, L', id0, now, k);
    }
  }

  /** The label a scheduled delivery carries: the sender's username and " (Scheduled)". */
  function ScheduledSenderName(users: seq<User>, from: Id): string {
    match Find(users, UserKey, from)
    case Some(i) => users[i].username + " (Scheduled)"
    case None => " (Scheduled)"
  }

  /** The push for one promoted record: to the recipient's socket from the connection that
      connected last (`global.chatSocket`), and only when both exist. */
  function Push(r: ScheduledMessage, id: Id, users: seq<User>, es: seq<Entry>, chatSocket: Option<SocketId>): (p: seq<Emit>)
    ensures |p| <= 1
    ensures |p| == 1 <==> Lookup(es, r.to).Some? && chatSocket.Some?
    ensures |p| == 1 ==> p[0].event == MsgReceive(r.from, r.text, ScheduledSenderName(users, r.from), Some(id))
  {
    if chatSocket.Some? then Relayed(es, r.to, MsgReceive(r.from, r.text, ScheduledSenderName(users, r.from), Some(id)), chatSocket.value)
    else []
  }

  /** The push reaches a connection exactly when it is the recipient's registered
      connection and not the connection the sweep pushes from. */
  lemma PushReaches(r: ScheduledMessage, id: Id, users: seq<User>, es: seq<Entry>, chatSocket: Option<SocketId>, s: SocketId)
    ensures var p := Push(r, id, users, es, chatSocket);
            (exists e :: e in p && Reaches(e.target, s))
            <==> chatSocket.Some? && Lookup(es, r.to) == Some(s) && s != chatSocket.value
  {
    if chatSocket.Some? {
      RelayedReaches(es, r.to, MsgReceive(r.from, r.text, ScheduledSenderName(users, r.from), Some(id)), chatSocket.value, s);
    }
  }

  /** The push for each record at positions d, the k-th with message id id0 + k. */
  function PushList(s: seq<ScheduledMessage>, d: seq<nat>, id0: Id, users: seq<User>, es: seq<Entry>,
                    chatSocket: Option<SocketId>): (r: seq<seq<Emit>>)
    requires IndicesOf(d, s)
    ensures |r| == |d|
  {
    seq(|d|, k requires 0 <= k < |d| => Push(s[d[k]], id0 + k, users, es, chatSocket))
  }

  /** The pushes for the first n records at positions d, in order. */
  function Pushes(s: seq<ScheduledMessage>, d: seq<nat>, n: nat, id0: Id, users: seq<User>, es: seq<Entry>,
                  chatSocket: Option<SocketId>): seq<Emit>
    requires IndicesOf(d, s) && n <= |d|
  {
    Concat(PushList(s, d, id0, users, es, chatSocket)[..n])
  }

  /** The part of the server state a tick changes: the two collections it writes, the
      next fresh id, and the emitted events. */
  datatype TickState = TickState(scheduled: seq<ScheduledMessage>, messages: seq<Message>, nextId: nat, outbox: seq<Emit>)

  /** The state once the first `done` due records are delivered and `created` messages are
      created (`created` is `done`, or `done + 1` when the save after the last create failed). */
  function Progress(st: TickState, users: seq<User>, es: seq<Entry>, cs: Option<SocketId>, now: Time,
                    d: seq<nat>, done: nat, created: nat): TickState
    requires IndicesOf(d, st.scheduled) && done <= created <= |d|
  {
    TickState(MarkSent(st.scheduled, d[..done], now),
              st.messages + Promotions(st.scheduled, d[..created], st.nextId, now),
              st.nextId + created,
              st.outbox + Pushes(st.scheduled, d, done, st.nextId, users, es, cs))
  }

  /** The state after one tick at `now` from st: no record is added or removed, messages
      and pushes are only appended, at most one message per due record, and each created
      message uses up exactly one fresh id. */
  function TickOutcome(st: TickState, users: seq<User>, es: seq<Entry>, cs: Option<SocketId>, now: Time, fault: Fault): (r: TickState)
    ensures |r.scheduled| == |st.scheduled|
    ensures st.messages <= r.messages && st.outbox <= r.outbox
    ensures st.nextId <= r.nextId <= st.nextId + |DueIndices(st.scheduled, now)|
    ensures |r.messages| - |st.messages| == r.nextId - st.nextId
  {
    Progress(st, users, es, cs, now, DueIndices(st.scheduled, now),
             Completed(st.scheduled, users, now, fault), CreatedCount(st.scheduled, users, now, fault))
  }

  /** Before the first due record is delivered the state is the one the tick started
      from. */
  lemma ProgressStart(st: TickState, users: seq<User>, es: seq<Entry>, cs: Option<SocketId>, now: Time)
    ensures Progress(st, users, es, cs, now, DueIndices(st.scheduled, now), 0, 0) == st
  {
    var d := DueIndices(st.scheduled, now);
    assert d[..0] == [];
    assert PushList(st.scheduled, d, st.nextId, users, es, cs)[..0] == [];
  }

  /** Once every due record is delivered without a throw, the state is the tick's
      outcome. */
  lemma ProgressEnd(st: TickState, users: seq<User>, es: seq<Entry>, cs: Option<SocketId>, now: Time, fault: Fault)
    requires var d := DueIndices(st.scheduled, now);
             StopFrom(st.scheduled, users, d, fault, |d|) == Completed(st.scheduled, users, now, fault)
    ensures var d := DueIndices(st.scheduled, now);
            Progress(st, users, es, cs, now, d, |d|, |d|) == TickOutcome(st, users, es, cs, now, fault)
  {
  }

  /** Creating the message of the next due record: the record is still as the query
      returned it, and the message gets the next fresh id. */
  lemma CreateStep(st: TickState, users: seq<User>, es: seq<Entry>, cs: Option<SocketId>, now: Time, d: seq<nat>, j: nat)
    requires IndicesOf(d, st.scheduled) && Increasing(d) && j < |d|
    ensures var p := Progress(st, users, es, cs, now, d, j, j);
            && p.scheduled[d[j]] == st.scheduled[d[j]]
            && p.nextId == st.nextId + j
            && Progress(st, users, es, cs, now, d, j, j + 1)
               == p.(messages := p.messages + [Promote(st.scheduled[d[j]], p.nextId, now)], nextId := p.nextId + 1)
  {
    assert d[j] !in d[..j];
    MarkSentAt(st.scheduled, d[..j], now, d[j]);
    assert d[..j + 1][..j] == d[..j];
    var pr := Promotions(st.scheduled, d[..j], st.nextId, now);
    assert Promotions(st.scheduled, d[..j + 1], st.nextId, now) == pr + [Promote(st.scheduled[d[j]], st.nextId + j, now)];
  }

  /** Saving the next due record (r, whose message got id `id`) and pushing its message
      completes it. */
  lemma SaveStep(st: TickState, users: seq<User>, es: seq<Entry>, cs: Option<SocketId>, now: Time, d: seq<nat>, j: nat,
                 r: ScheduledMessage, id: Id)
    requires IndicesOf(d, st.scheduled) && j < |d|
    requires r == st.scheduled[d[j]] && id == st.nextId + j
    ensures var p := Progress(st, users, es, cs, now, d, j, j + 1);
            Progress(st, users, es, cs, now, d, j + 1, j + 1)
            == p.(scheduled := p.scheduled[d[j] := MarkedSent(r, now)], outbox := p.outbox + Push(r, id, users, es, cs))
  {
    var a := MarkSent(st.scheduled, d[..j], now);
    var b := MarkSent(st.scheduled, d[..j + 1], now);
    var m := st.messages + Promotions(st.scheduled, d[..j + 1], st.nextId, now);
    var o := st.outbox + Pushes(st.scheduled, d, j, st.nextId, users, es, cs);
    var o' := st.outbox + Pushes(st.scheduled, d, j + 1, st.nextId, users, es, cs);
    assert Progress(st, users, es, cs, now, d, j, j + 1) == TickState(a, m, st.nextId + j + 1, o);
    assert Progress(st, users, es, cs, now, d, j + 1, j + 1) == TickState(b, m, st.nextId + j + 1, o');
    MarkSentStep(st.scheduled, d, j, now);
    PushesStep(st.scheduled, d, j, st.nextId, users, es, cs, r, id);
    AppendAssoc(st.outbox, Pushes(st.scheduled, d, j, st.nextId, users, es, cs), Push(r, id, users, es, cs));
  }

  lemma AppendAssoc<T>(a: seq<T>, b: seq<T>, c: seq<T>)
    ensures a + (b + c) == (a + b) + c
  {
  }

  lemma MarkSentStep(s: seq<ScheduledMessage>, d: seq<nat>, j: nat, now: Time)
    requires IndicesOf(d, s) && j < |d|
    ensures MarkSent(s, d[..j + 1], now) == MarkSent(s, d[..j], now)[d[j] := MarkedSent(s[d[j]], now)]
  {
    assert d[..j + 1][..j] == d[..j];
  }

  lemma PushesStep(s: seq<ScheduledMessage>, d: seq<nat>, j: nat, id0: Id,
                   users: seq<User>, es: seq<Entry>, cs: Option<SocketId>, r: ScheduledMessage, id: Id)
    requires IndicesOf(d, s) && j < |d| && r == s[d[j]] && id == id0 + j
    ensures Pushes(s, d, j + 1, id0, users, es, cs) == Pushes(s, d, j, id0, users, es, cs) + Push(r, id, users, es, cs)
  {
    var P := PushList(s, d, id0, users, es, cs);
    ConcatSnoc(P, j);
    assert P[j] == Push(r, id, users, es, cs);
  }

  /** Delivering records only marks them sent and hands out ids from the next id on, so
      every id in the collections a tick writes stays below the new next id. */
  lemma ProgressKeepsKeys(st: TickState, users: seq<User>, es: seq<Entry>, cs: Option<SocketId>, now: Time,
                          d: seq<nat>, done: nat, created: nat)
    requires IndicesOf(d, st.scheduled) && done <= created <= |d|
    requires KeysBelow(st.scheduled, ScheduledKey, st.nextId) && KeysBelow(st.messages, MessageKey, st.nextId)
    ensures var r := Progress(st, users, es, cs, now, d, done, created);
            && st.nextId <= r.nextId
            && KeysBelow(r.scheduled, ScheduledKey, r.nextId) && KeysBelow(r.messages, MessageKey, r.nextId)
  {
    var ms := MarkSent(st.scheduled, d[..done], now);
    forall i | 0 <= i < |ms| ensures ScheduledKey(ms[i]) < st.nextId + created {
      MarkSentAt(st.scheduled, d[..done], now, i);
    }
    var pr := Promotions(st.scheduled, d[..created], st.nextId, now);
    var m := st.messages + pr;
    forall i | 0 <= i < |m| ensures MessageKey(m[i]) < st.nextId + created {
      if i >= |st.messages| {
        assert m[i] == pr[i - |st.messages|];
        PromotionsAt(st.scheduled, d[..created], st.nextId, now, i - |st.messages|);
      }
    }
  }

  /** A tick keeps every id of the store below the next id. */
  lemma TickKeepsIds(st: TickState, groups: seq<Group>, groupMessages: seq<GroupMessage>, users: seq<User>,
                     es: seq<Entry>, cs: Option<SocketId>, now: Time, fault: Fault)
    requires IdsBelow(st.messages, st.scheduled, groups, groupMessages, users, st.nextId)
    ensures var r := TickOutcome(st, users, es, cs, now, fault);
            IdsBelow(r.messages, r.scheduled, groups, groupMessages, users, r.nextId)
  {
    var r := TickOutcome(st, users, es, cs, now, fault);
    ProgressKeepsKeys(st, users, es, cs, now, DueIndices(st.scheduled, now),
                      Completed(st.scheduled, users, now, fault), CreatedCount(st.scheduled, users, now, fault));
    KeysBelowRaise(groups, GroupKey, st.nextId, r.nextId);
    KeysBelowRaise(groupMessages, GroupMessageKey, st.nextId, r.nextId);
    KeysBelowRaise(users, UserKey, st.nextId, r.nextId);
  }

  // ---------------------------------------------------------------------------
  // Properties of a tick
  // ---------------------------------------------------------------------------

  /** A tick marks sent exactly the due records it completed; it touches nothing else,
      and no record goes back from sent or cancelled. */
  lemma TickTouchesOnlyDue(s: seq<ScheduledMessage>, users: seq<User>, now: Time, fault: Fault, i: nat)
    requires i < |s|
    ensures var d := DueIndices(s, now);
            var r := MarkSent(s, d[..Completed(s, users, now, fault)], now);
            (r[i] != s[i] ==> IsDue(s[i], now) && r[i] == MarkedSent(s[i], now))
            && (s[i].status != Pending ==> r[i] == s[i])
  {
    var d := DueIndices(s, now);
    var n := Completed(s, users, now, fault);
    MarkSentAt(s, d[..n], now, i);
    if i in d[..n] {
      var k :| 0 <= k < n && d[k] == i;
    }
  }

  /** After a tick that completed every due record nothing is due any more, so a second
      tick at the same time creates no message, pushes nothing and changes nothing. */
  lemma SecondTickDoesNothing(s: seq<ScheduledMessage>, users: seq<User>, now: Time, fault: Fault,
                              id1: Id, es: seq<Entry>, chatSocket: Option<SocketId>, fault2: Fault)
    requires Completed(s, users, now, fault) == |DueIndices(s, now)|
    ensures var s1 := MarkSent(s, DueIndices(s, now), now);
            var d1 := DueIndices(s1, now);
            && d1 == []
            && CreatedCount(s1, users, now, fault2) == 0
            && Promotions(s1, d1, id1, now) == []
            && Pushes(s1, d1, |d1|, id1, users, es, chatSocket) == []
            && MarkSent(s1, d1, now) == s1
  {
    var s1 := MarkSent(s, DueIndices(s, now), now);
    forall i | 0 <= i < |s1| ensures !IsDue(s1[i], now) {
      MarkSentAt(s, DueIndices(s, now), now, i);
      if IsDue(s[i], now) {
        DueIndicesComplete(s, now, i);
      }
    }
  }

  /** The due records a tick did not reach are still due afterwards. */
  lemma StoppedTickLeavesRestDue(s: seq<ScheduledMessage>, users: seq<User>, now: Time, fault: Fault, k: nat)
    requires Completed(s, users, now, fault) <= k < |DueIndices(s, now)|
    ensures var d := DueIndices(s, now);
            var r := MarkSent(s, d[..Completed(s, users, now, fault)], now);
            IsDue(r[d[k]], now) && r[d[k]] == s[d[k]]
  {
    var d := DueIndices(s, now);
    var n := Completed(s, users, now, fault);
    assert d[k] !in d[..n];
    MarkSentAt(s, d[..n], now, d[k]);
  }

  /** The first throwing iteration is never after a known throwing one. */
  lemma {:induction false} StopNoLaterThan(s: seq<ScheduledMessage>, users: seq<User>, d: seq<nat>, fault: Fault, i: nat, j: nat)
    requires IndicesOf(d, s) && i <= j < |d| && Throws(s, users, d, fault, j)
    ensures StopFrom(s, users, d, fault, i) <= j
    decreases j - i
  {
    if i < j && !Throws(s, users, d, fault, i) {
      StopNoLaterThan(s, users, d, fault, i + 1, j);
    }
  }

  /** The stopping point is the first iteration from j on that throws: none before it
      throws, and it throws unless the loop ran to the end. */
  lemma {:induction false} StopFromIsFirstThrow(s: seq<ScheduledMessage>, users: seq<User>, d: seq<nat>, fault: Fault, j: nat)
    requires IndicesOf(d, s) && j <= |d|
    ensures var n := StopFrom(s, users, d, fault, j);
            (forall k :: j <= k < n ==> !Throws(s, users, d, fault, k))
            && (n < |d| ==> Throws(s, users, d, fault, n))
    decreases |d| - j
  {
    if j < |d| && !Throws(s, users, d, fault, j) {
      StopFromIsFirstThrow(s, users, d, fault, j + 1);
    }
  }

  /** A due record whose sender or recipient was deleted ends every tick that reaches it:
      no due record after it in store order is delivered by that tick. */
  lemma OrphanBlocksLaterRecords(s: seq<ScheduledMessage>, users: seq<User>, now: Time, fault: Fault, j: nat)
    requires j < |DueIndices(s, now)| && Orphaned(s[DueIndices(s, now)[j]], users)
    ensures Completed(s, users, now, fault) <= j
    ensures CreatedCount(s, users, now, fault) <= j
  {
    var d := DueIndices(s, now);
    StopNoLaterThan(s, users, d, fault, 0, j);
  }

  /** At-least-once delivery: when saving the record fails after its message was created,
      the tick created one message more than it completed, and the record is still due and
      unchanged, so the next tick that reaches it creates a second message from it. */
  lemma SaveFailureDuplicates(s: seq<ScheduledMessage>, users: seq<User>, now: Time, j: nat)
    requires Completed(s, users, now, SaveFails(j)) == j < |DueIndices(s, now)|
    requires !Orphaned(s[DueIndices(s, now)[j]], users)
    ensures var d := DueIndices(s, now);
            var s1 := MarkSent(s, d[..j], now);
            && CreatedCount(s, users, now, SaveFails(j)) == j + 1
            && d[j] in DueIndices(s1, now)
            && s1[d[j]] == s[d[j]]
  {
    StoppedTickLeavesRestDue(s, users, now, SaveFails(j), j);
    var d := DueIndices(s, now);
    DueIndicesComplete(MarkSent(s, d[..j], now), now, d[j]);
  }
}
