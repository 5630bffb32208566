/** The contact list panel (cHat/src/components/Contacts.jsx): the search filter over
    display names, the avatar source rule, the online indicator and the unread badge. */
module ContactList {
  import opened Common
  import opened ChatPage
  import Accounts

  /** The name shown for a contact: its local alias when one is set and non-empty,
      otherwise its username. */
  function DisplayName(aliases: map<Id, string>, c: Entry): (name: string)
    ensures c.id in aliases && aliases[c.id] != "" ==> name == aliases[c.id]
    ensures (c.id !in aliases || aliases[c.id] == "") ==> name == c.username
  {
    if c.id in aliases && aliases[c.id] != "" then aliases[c.id] else c.username
  }

  /** The search test: the lower-cased display name contains the lower-cased query. */
  predicate Matches(aliases: map<Id, string>, query: string, c: Entry) {
    Contains(Lower(DisplayName(aliases, c)), Lower(query))
  }

  /** `filteredContacts`: the contacts that match the query, in their order. */
  function FilterContacts(cs: seq<Entry>, aliases: map<Id, string>, query: string): (r: seq<Entry>)
    ensures |r| <= |cs|
    ensures forall x :: x in r <==> x in cs && Matches(aliases, query, x)
  {
    if cs == [] then []
    else
      var rest := FilterContacts(cs[..|cs| - 1], aliases, query);
      var last := cs[|cs| - 1];
      assert cs == cs[..|cs| - 1] + [last];
      if Matches(aliases, query, last) then rest + [last] else rest
  }

  /** The filter keeps order: filtering two lists one after the other is filtering their
      concatenation. */
  lemma {:induction false} FilterDistributes(xs: seq<Entry>, ys: seq<Entry>, aliases: map<Id, string>, query: string)
    ensures FilterContacts(xs + ys, aliases, query) == FilterContacts(xs, aliases, query) + FilterContacts(ys, aliases, query)
    decreases |ys|
  {
    if ys == [] {
      assert xs + ys == xs;
    } else {
      var init := ys[..|ys| - 1];
      var last := ys[|ys| - 1];
      assert (xs + ys)[..|xs + ys| - 1] == xs + init;
      assert (xs + ys)[|xs + ys| - 1] == last;
      FilterDistributes(xs, init, aliases, query);
    }
  }

  /** An empty search keeps every contact, in order. */
  lemma {:induction false} EmptyQueryKeepsAll(cs: seq<Entry>, aliases: map<Id, string>)
    ensures FilterContacts(cs, aliases, "") == cs
  {
    if cs != [] {
      var last := cs[|cs| - 1];
      EmptyQueryMatches(aliases, last);
      EmptyQueryKeepsAll(cs[..|cs| - 1], aliases);
      assert cs == cs[..|cs| - 1] + [last];
    }
  }

  lemma EmptyQueryMatches(aliases: map<Id, string>, c: Entry)
    ensures Matches(aliases, "", c)
  {
    var name := Lower(DisplayName(aliases, c));
    assert Lower("") == "";
    EmptyIsContained(name);
  }

  /** The search ignores letter case in the query. */
  lemma QueryCaseIgnored(cs: seq<Entry>, aliases: map<Id, string>, query: string)
    ensures FilterContacts(cs, aliases, Lower(query)) == FilterContacts(cs, aliases, query)
  {
    LowerIdempotent(query);
    SameFilter(cs, aliases, Lower(query), query);
  }

  /** Two queries with the same lower-cased form select the same contacts. */
  lemma {:induction false} SameFilter(cs: seq<Entry>, aliases: map<Id, string>, q1: string, q2: string)
    requires Lower(q1) == Lower(q2)
    ensures FilterContacts(cs, aliases, q1) == FilterContacts(cs, aliases, q2)
  {
    if cs != [] {
      SameFilter(cs[..|cs| - 1], aliases, q1, q2);
    }
  }

  /** The avatar shown for a contact: its locally chosen avatar when one is set and
      non-empty, otherwise the avatar the server stores. */
  function AvatarOf(customAvatars: map<Id, string>, c: Entry): (a: string)
    ensures c.id in customAvatars && customAvatars[c.id] != "" ==> a == customAvatars[c.id]
    ensures (c.id !in customAvatars || customAvatars[c.id] == "") ==> a == c.avatarImage
  {
    if c.id in customAvatars && customAvatars[c.id] != "" then customAvatars[c.id] else c.avatarImage
  }

  const DataPrefix: string := "data:"
  const SvgPrefix: string := "data:image/svg+xml;base64,"

  /** `getAvatarSrc`: no image for an empty avatar, a data URL kept as it is, and anything
      else taken as base64 SVG and given the SVG data URL prefix. */
  function AvatarSrc(avatar: string): (r: Option<string>)
    ensures avatar == "" <==> r.None?
    ensures avatar != "" && StartsWith(avatar, DataPrefix) ==> r == Some(avatar)
    ensures avatar != "" && !StartsWith(avatar, DataPrefix) ==> r == Some(SvgPrefix + avatar)
    ensures r.Some? ==> StartsWith(r.value, DataPrefix)
  {
    if avatar == "" then None
    else if StartsWith(avatar, DataPrefix) then Some(avatar)
    else
      assert (SvgPrefix + avatar)[..|DataPrefix|] == DataPrefix;
      Some(SvgPrefix + avatar)
  }

  /** A source the rule produced is left alone by the rule: it already is a data URL. */
  lemma AvatarSrcStable(avatar: string)
    requires AvatarSrc(avatar).Some?
    ensures AvatarSrc(AvatarSrc(avatar).value) == AvatarSrc(avatar)
  {
  }

  /** The online indicator of a contact: lit exactly when the id is at some position of
      the online list. */
  predicate IsOnline(online: seq<Id>, id: Id)
    ensures IsOnline(online, id) <==> exists k :: 0 <= k < |online| && online[k] == id
  {
    id in online
  }

  /** A user who comes online shows as online; one who then goes offline shows as
      offline; nobody else's indicator changes on the way. */
  lemma PresenceRoundTrip(prev: seq<Id>, u: Id, x: Id)
    ensures IsOnline(AddOnline(prev, u), u)
    ensures !IsOnline(DropOnline(AddOnline(prev, u), u), u)
    ensures x != u ==> (IsOnline(DropOnline(AddOnline(prev, u), u), x) <==> IsOnline(prev, x))
  {
  }

  const Saturated: string := "99+"

  /** The unread badge: none at zero, the count itself up to 99, and "99+" above. */
  function Badge(unreadCount: nat): (r: Option<string>)
    ensures r.Some? <==> unreadCount > 0
    ensures unreadCount > 99 ==> r == Some(Saturated)
    ensures 0 < unreadCount <= 99 ==> r == Some(NatToString(unreadCount))
    ensures 0 < unreadCount <= 99 ==> DigitsValue(NatToString(unreadCount)) == unreadCount && |NatToString(unreadCount)| <= 2
  {
    if unreadCount == 0 then None
    else if unreadCount > 99 then Some(Saturated)
    else
      NatToStringRoundTrip(unreadCount);
      if unreadCount < 10 then
        NatToStringLength(unreadCount, 0);
        Some(NatToString(unreadCount))
      else
        NatToStringLength(unreadCount, 1);
        Some(NatToString(unreadCount))
  }

  /** Right after the contact list is loaded or refetched no row shows a badge: a
      message counted just before the refetch lands loses its badge. */
  lemma LoadedShowsNoBadge(reply: seq<Accounts.Contact>)
    ensures forall k :: 0 <= k < |Loaded(reply)| ==> Badge(Loaded(reply)[k].unreadCount) == None
  {
  }
}
