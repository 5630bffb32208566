/** The document store the controllers and the realtime server share: one in-memory
    collection per Mongoose model, and the source of fresh document ids. */
module Store {
  import opened Common
  import opened Models

  function MessageKey(m: Message): Id { m.id }
  function ScheduledKey(s: ScheduledMessage): Id { s.id }
  function GroupKey(g: Group): Id { g.id }
  function GroupMessageKey(m: GroupMessage): Id { m.id }
  function UserKey(u: User): Id { u.id }

  /** Every key in s is below `bound`: ids handed out later are fresh. */
  predicate KeysBelow<T>(s: seq<T>, key: T -> Id, bound: nat) {
    forall i :: 0 <= i < |s| ==> key(s[i]) < bound
  }

  /** Raising the bound keeps every key below it. */
  lemma KeysBelowRaise<T>(s: seq<T>, key: T -> Id, a: nat, b: nat)
    requires KeysBelow(s, key, a) && a <= b
    ensures KeysBelow(s, key, b)
  {
  }

  /** Appending a document whose key is the old bound keeps the keys below the next one. */
  lemma KeysBelowAppend<T>(s: seq<T>, key: T -> Id, x: T, bound: nat)
    requires KeysBelow(s, key, bound) && key(x) == bound
    ensures KeysBelow(s + [x], key, bound + 1)
  {
  }

  /** Replacing a document by one whose key is below the bound keeps the keys below it. */
  lemma KeysBelowUpdate<T>(s: seq<T>, key: T -> Id, i: nat, x: T, bound: nat)
    requires KeysBelow(s, key, bound) && i < |s| && key(x) < bound
    ensures KeysBelow(s[i := x], key, bound)
  {
  }

  /** Every id of every collection is below `bound`. */
  predicate IdsBelow(messages: seq<Message>, scheduled: seq<ScheduledMessage>, groups: seq<Group>,
                     groupMessages: seq<GroupMessage>, users: seq<User>, bound: nat)
  {
    && KeysBelow(messages, MessageKey, bound)
    && KeysBelow(scheduled, ScheduledKey, bound)
    && KeysBelow(groups, GroupKey, bound)
    && KeysBelow(groupMessages, GroupMessageKey, bound)
    && KeysBelow(users, UserKey, bound)
  }

  /** The collections of the database. Documents keep their insertion order, which is
      the order an unsorted query returns them in. */
  class Database {
    var messages: seq<Message>
    var scheduled: seq<ScheduledMessage>
    var groups: seq<Group>
    var groupMessages: seq<GroupMessage>
    var users: seq<User>
    /** The next id a created document receives. */
    var nextId: nat

    /** Every id is below the counter, and every stored group passed the schema's
        validation. */
    ghost predicate Valid()
      reads this
    {
      && IdsBelow(messages, scheduled, groups, groupMessages, users, nextId)
      && forall i :: 0 <= i < |groups| ==> GroupValid(groups[i])
    }

    constructor ()
      ensures Valid()
      ensures messages == [] && scheduled == [] && groups == [] && groupMessages == [] && users == []
    {
      messages, scheduled, groups, groupMessages, users := [], [], [], [], [];
      nextId := 0;
    }

    /** Stores a new group under the next id. */
    method InsertGroup(g: Group)
      requires Valid() && g.id == nextId && GroupValid(g)
      modifies `groups, `nextId
      ensures Valid()
      ensures groups == old(groups) + [g] && nextId == old(nextId) + 1
    {
      KeysBelowAppend(groups, GroupKey, g, nextId);
      KeysBelowRaise(messages, MessageKey, nextId, nextId + 1);
      KeysBelowRaise(scheduled, ScheduledKey, nextId, nextId + 1);
      KeysBelowRaise(groupMessages, GroupMessageKey, nextId, nextId + 1);
      KeysBelowRaise(users, UserKey, nextId, nextId + 1);
      groups := groups + [g];
      nextId := nextId + 1;
    }
  }
}
