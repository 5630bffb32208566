/** The group controller of server/controllers/groupController.js: creating a group,
    the admin-only membership and settings changes, handing the admin role over, leaving,
    deleting a group with its messages, and the group message operations. Each operation
    is a method on the store, proved against a function that gives its reply and the new
    collections; the lemmas show every operation keeps the stored groups well formed. */
module Groups {
  import opened Common
  import opened Models
  import opened Store

  const Required := "Group name and admin ID required"
  /** The start of the reply when the schema rejects a new group; the store's own error
      text that follows it is not modelled. */
  const CreateFailed := "Error creating group: "
  const NotFound := "Group not found"
  const OnlyAdminAdds := "Only admin can add members"
  const AlreadyMember := "User already in group"
  const OnlyAdminRemoves := "Only admin can remove members"
  const OnlyAdminUpdates := "Only admin can update group"
  const UpdateFailed := "Error updating group"
  const OnlyAdminDeletes := "Only admin can delete group"
  const Deleted := "Group deleted successfully"
  const MissingFields := "Missing required fields"
  const NotMember := "You are not a member of this group"
  const OnlyAdminsSend := "Only admins can send messages in this group"
  const SeenMissing := "Missing fields"
  const Seen := "Marked as seen"
  const OnlyCurrentAdmin := "Only current admin can transfer admin role"
  const NewAdminNotMember := "New admin must be a group member"
  const LeaveFailed := "Error leaving group"
  const Left := "Left group successfully"
  /** getGroupMessages answers with at most this many messages. */
  const PageSize: nat := 50

  /** i is the position of the first group with id `gid`, the one `findById` loads. */
  predicate FirstGroup(gs: seq<Group>, gid: Id, i: int) {
    0 <= i < |gs| && gs[i].id == gid && forall k :: 0 <= k < i ==> gs[k].id != gid
  }

  /** The admin belongs to the group, unless the group has no member left. */
  predicate AdminIsMember(g: Group) {
    g.members == [] || g.admin in g.members
  }

  /** What holds of every stored group: it passes the schema. */
  predicate GroupsWellFormed(gs: seq<Group>) {
    forall i :: 0 <= i < |gs| ==> GroupValid(gs[i])
  }

  /** Replacing one stored group by a valid one keeps the collection well formed. */
  lemma ReplaceKeepsWellFormed(gs: seq<Group>, i: nat, g: Group)
    requires GroupsWellFormed(gs) && i < |gs| && GroupValid(g)
    ensures GroupsWellFormed(gs[i := g])
  {
  }

  // ---------------------------------------------------------------------------
  // createGroup
  // ---------------------------------------------------------------------------

  /** The members of a new group: the requested list, with the admin appended when it is
      not listed already. */
  function MembersWithAdmin(members: seq<Id>, admin: Id): (r: seq<Id>)
    ensures admin in r
    ensures admin in members ==> r == members
    ensures admin !in members ==> r == members + [admin]
  {
    if admin in members then members else members + [admin]
  }

  /** The group createGroup builds: name and description trimmed, description "" when
      absent, the avatar flag set exactly when an avatar is given, messaging open to all. */
  function NewGroup(id: Id, name: string, description: Option<string>, members: Option<seq<Id>>,
                    admin: Id, avatar: Option<string>): (g: Group)
    ensures g.id == id && g.admin == admin && !g.onlyAdminsCanMessage
    ensures g.name == Trim(name)
    ensures g.description == if OrNull(description).Some? then Trim(description.value) else ""
    ensures g.isAvatarImageSet <==> OrNull(avatar).Some?
    ensures g.avatarImage == if OrNull(avatar).Some? then avatar.value else ""
    ensures g.members == MembersWithAdmin(if members.Some? then members.value else [], admin)
  {
    var membersList := if members.Some? then members.value else [];
    Group(id, Trim(name), if OrNull(description).Some? then Trim(description.value) else "",
          if OrNull(avatar).Some? then avatar.value else "", OrNull(avatar).Some?,
          admin, MembersWithAdmin(membersList, admin), false)
  }

  /** The reply of createGroup when the next id is `id`: a missing or empty name or a
      missing admin is refused first; a group the schema rejects is refused after. */
  function CreateReply(name: Option<string>, description: Option<string>, members: Option<seq<Id>>,
                       adminId: Option<Id>, avatar: Option<string>, id: Id): (r: Response<Group>)
    ensures OrNull(name).None? || adminId.None? ==> r == Failure(Required)
    ensures r.Success? <==> OrNull(name).Some? && adminId.Some?
                            && GroupValid(NewGroup(id, name.value, description, members, adminId.value, avatar))
    ensures r.Failure? ==> r.msg in {Required, CreateFailed}
    ensures r.Success? ==> r.data == NewGroup(id, name.value, description, members, adminId.value, avatar)
                           && AdminIsMember(r.data) && GroupValid(r.data)
  {
    if OrNull(name).None? || adminId.None? then Failure(Required)
    else
      var g := NewGroup(id, name.value, description, members, adminId.value, avatar);
      if GroupValid(g) then Success(g) else Failure(CreateFailed)
  }

  /** The request handling of createGroup up to the store: check the required fields,
      push the admin onto the member list when missing, build and validate the group. */
  method BuildGroup(name: Option<string>, description: Option<string>, members: Option<seq<Id>>,
                    adminId: Option<Id>, avatar: Option<string>, id: Id) returns (r: Response<Group>)
    ensures r == CreateReply(name, description, members, adminId, avatar, id)
  {
    if OrNull(name).None? || adminId.None? {
      return Failure(Required);
    }
    var membersList := if members.Some? then members.value else [];
    if adminId.value !in membersList {
      membersList := membersList + [adminId.value];
    }
    var g := NewGroup(id, name.value, description, members, adminId.value, avatar);
    assert g.members == membersList;
    if !GroupValid(g) {
      return Failure(CreateFailed);
    }
    return Success(g);
  }

  /** `createGroup`: store the group the request describes, when it is accepted. */
  method CreateGroup(db: Database, name: Option<string>, description: Option<string>, members: Option<seq<Id>>,
                     adminId: Option<Id>, avatar: Option<string>) returns (r: Response<Group>)
    requires db.Valid()
    modifies db`groups, db`nextId
    ensures db.Valid()
    ensures r == CreateReply(name, description, members, adminId, avatar, old(db.nextId))
    ensures r.Success? ==> db.groups == old(db.groups) + [r.data] && db.nextId == old(db.nextId) + 1
    ensures r.Failure? ==> db.groups == old(db.groups) && db.nextId == old(db.nextId)
  {
    r := BuildGroup(name, description, members, adminId, avatar, db.nextId);
    if r.Success? {
      db.InsertGroup(r.data);
    }
  }

  /** The admin of a new group is among its members exactly as often as requested, and
      exactly once when the request did not list it. */
  lemma CreatedAdminOnce(name: Option<string>, description: Option<string>, members: seq<Id>,
                         adminId: Id, avatar: Option<string>, id: Id)
    requires CreateReply(name, description, Some(members), Some(adminId), avatar, id).Success?
    ensures var g := CreateReply(name, description, Some(members), Some(adminId), avatar, id).data;
            multiset(g.members)[adminId] == if adminId in members then multiset(members)[adminId] else 1
  {
    if adminId !in members {
      assert multiset(members)[adminId] == 0;
      assert multiset(members + [adminId]) == multiset(members) + multiset{adminId};
    }
  }

  /** A stored new group keeps the collection well formed. */
  lemma CreateKeepsWellFormed(gs: seq<Group>, name: Option<string>, description: Option<string>,
                              members: Option<seq<Id>>, adminId: Option<Id>, avatar: Option<string>, id: Id)
    requires GroupsWellFormed(gs)
    requires CreateReply(name, description, members, adminId, avatar, id).Success?
    ensures GroupsWellFormed(gs + [CreateReply(name, description, members, adminId, avatar, id).data])
  {
    var g := CreateReply(name, description, members, adminId, avatar, id).data;
    var gs' := gs + [g];
    forall i | 0 <= i < |gs'| ensures GroupValid(gs'[i]) {
      if i < |gs| {
        assert gs'[i] == gs[i];
      }
    }
  }

  // ---------------------------------------------------------------------------
  // addMember, removeMember, changeAdmin, updateGroup
  // ---------------------------------------------------------------------------

  /** The reply and new groups of addMember: an unknown group, a requester other than the
      admin and a user already in the group are refused in that order with nothing changed;
      otherwise the user is appended to the members and nothing else changes. */
  function AddMemberOutcome(gs: seq<Group>, gid: Id, userId: Id, adminId: Id): (o: (Response<Group>, seq<Group>))
    ensures |o.1| == |gs|
    ensures o.0.Failure? ==> o.1 == gs
  {
    match Find(gs, GroupKey, gid)
    case None => (Failure(NotFound), gs)
    case Some(i) =>
      if gs[i].admin != adminId then (Failure(OnlyAdminAdds), gs)
      else if userId in gs[i].members then (Failure(AlreadyMember), gs)
      else
        var g := gs[i].(members := gs[i].members + [userId]);
        (Success(g), gs[i := g])
  }

  /** addMember succeeds exactly for the admin adding a non-member, and then only the
      member list of that group changes, growing by the new member. */
  lemma AddMemberSpec(gs: seq<Group>, gid: Id, userId: Id, adminId: Id)
    ensures var o := AddMemberOutcome(gs, gid, userId, adminId);
            && (o.0.Success? <==> exists i :: FirstGroup(gs, gid, i) && gs[i].admin == adminId && userId !in gs[i].members)
            && (o.0.Success? ==>
                  exists i :: && FirstGroup(gs, gid, i)
                              && o.0.data == gs[i].(members := gs[i].members + [userId])
                              && o.1 == gs[i := o.0.data])
  {
  }

  /** `addMember`: load the group, check the requester and the user, push the user. */
  method AddMember(db: Database, gid: Id, userId: Id, adminId: Id) returns (r: Response<Group>)
    requires db.Valid()
    modifies db`groups
    ensures db.Valid()
    ensures (r, db.groups) == AddMemberOutcome(old(db.groups), gid, userId, adminId)
  {
    var found := Find(db.groups, GroupKey, gid);
    if found.None? {
      return Failure(NotFound);
    }
    var i := found.value;
    var group := db.groups[i];
    if group.admin != adminId {
      return Failure(OnlyAdminAdds);
    }
    if userId in group.members {
      return Failure(AlreadyMember);
    }
    group := group.(members := group.members + [userId]);
    db.groups := db.groups[i := group];
    return Success(group);
  }

  lemma AddMemberKeepsWellFormed(gs: seq<Group>, gid: Id, userId: Id, adminId: Id)
    requires GroupsWellFormed(gs)
    ensures GroupsWellFormed(AddMemberOutcome(gs, gid, userId, adminId).1)
  {
    if AddMemberOutcome(gs, gid, userId, adminId).0.Success? {
      var i := Find(gs, GroupKey, gid).value;
      ReplaceKeepsWellFormed(gs, i, gs[i].(members := gs[i].members + [userId]));
    }
  }

  /** The group after `userId` is filtered out of its members: an admin who is removed
      hands the role to the first remaining member, when there is one. */
  function WithoutMember(g: Group, userId: Id): (r: Group)
    ensures r.members == RemoveAll(g.members, userId) && userId !in r.members
    ensures g.admin == userId && r.members != [] ==> r.admin == r.members[0]
    ensures g.admin != userId || r.members == [] ==> r.admin == g.admin
    ensures r.(members := g.members, admin := g.admin) == g
    ensures AdminIsMember(g) ==> AdminIsMember(r)
  {
    var members := RemoveAll(g.members, userId);
    if g.admin == userId && |members| > 0 then g.(members := members, admin := members[0])
    else g.(members := members)
  }

  /** The reply and new groups of removeMember: allowed when a user removes themself or the
      requester is the admin; every occurrence of the user leaves the members. */
  function RemoveMemberOutcome(gs: seq<Group>, gid: Id, userId: Id, adminId: Id): (o: (Response<Group>, seq<Group>))
    ensures |o.1| == |gs|
    ensures o.0.Failure? ==> o.1 == gs
  {
    match Find(gs, GroupKey, gid)
    case None => (Failure(NotFound), gs)
    case Some(i) =>
      if userId != adminId && gs[i].admin != adminId then (Failure(OnlyAdminRemoves), gs)
      else (Success(WithoutMember(gs[i], userId)), gs[i := WithoutMember(gs[i], userId)])
  }

  /** removeMember succeeds exactly for self-removal or an admin requester, and then only
      that group changes, to the group without the user. */
  lemma RemoveMemberSpec(gs: seq<Group>, gid: Id, userId: Id, adminId: Id)
    ensures var o := RemoveMemberOutcome(gs, gid, userId, adminId);
            && (o.0.Success? <==> exists i :: FirstGroup(gs, gid, i) && (userId == adminId || gs[i].admin == adminId))
            && (o.0.Success? ==>
                  exists i :: FirstGroup(gs, gid, i) && o.0.data == WithoutMember(gs[i], userId) && o.1 == gs[i := o.0.data])
  {
  }

  /** `removeMember`: load the group, check the requester, filter the user out and, when
      the admin left and members remain, promote the first of them. */
  method RemoveMember(db: Database, gid: Id, userId: Id, adminId: Id) returns (r: Response<Group>)
    requires db.Valid()
    modifies db`groups
    ensures db.Valid()
    ensures (r, db.groups) == RemoveMemberOutcome(old(db.groups), gid, userId, adminId)
  {
    var found := Find(db.groups, GroupKey, gid);
    if found.None? {
      return Failure(NotFound);
    }
    var i := found.value;
    var group := db.groups[i];
    if userId != adminId && group.admin != adminId {
      return Failure(OnlyAdminRemoves);
    }
    group := group.(members := RemoveAll(group.members, userId));
    if group.admin == userId && |group.members| > 0 {
      group := group.(admin := group.members[0]);
    }
    db.groups := db.groups[i := group];
    return Success(group);
  }

  lemma RemoveMemberKeepsWellFormed(gs: seq<Group>, gid: Id, userId: Id, adminId: Id)
    requires GroupsWellFormed(gs)
    ensures GroupsWellFormed(RemoveMemberOutcome(gs, gid, userId, adminId).1)
  {
    if RemoveMemberOutcome(gs, gid, userId, adminId).0.Success? {
      var i := Find(gs, GroupKey, gid).value;
      ReplaceKeepsWellFormed(gs, i, WithoutMember(gs[i], userId));
    }
  }

  /** An admin who removes themself as the last member keeps the admin role of the now
      empty group, and with it the right to add members, though no longer a member. */
  lemma RemovedLastAdminKeepsRole(g: Group, u: Id)
    requires g.members == [g.admin] && u != g.admin
    ensures var o := RemoveMemberOutcome([g], g.id, g.admin, g.admin);
            && o.0.Success? && o.0.data.members == [] && o.0.data.admin == g.admin
            && AddMemberOutcome(o.1, g.id, u, g.admin).0.Success?
            && AddMemberOutcome(o.1, g.id, u, g.admin).1[0].members == [u]
  {
    assert RemoveAll(g.members, g.admin) == [];
  }

  /** The reply and new groups of changeAdmin: only the current admin may hand the role
      over, and only to a member; nothing but `admin` changes. */
  function ChangeAdminOutcome(gs: seq<Group>, gid: Id, currentAdminId: Id, newAdminId: Id)
    : (o: (Response<Group>, seq<Group>))
    ensures |o.1| == |gs|
    ensures o.0.Failure? ==> o.1 == gs
  {
    match Find(gs, GroupKey, gid)
    case None => (Failure(NotFound), gs)
    case Some(i) =>
      if gs[i].admin != currentAdminId then (Failure(OnlyCurrentAdmin), gs)
      else if newAdminId !in gs[i].members then (Failure(NewAdminNotMember), gs)
      else (Success(gs[i].(admin := newAdminId)), gs[i := gs[i].(admin := newAdminId)])
  }

  /** changeAdmin succeeds exactly when the current admin names a member, and then only
      the admin of that group changes. */
  lemma ChangeAdminSpec(gs: seq<Group>, gid: Id, currentAdminId: Id, newAdminId: Id)
    ensures var o := ChangeAdminOutcome(gs, gid, currentAdminId, newAdminId);
            && (o.0.Success? <==> exists i :: FirstGroup(gs, gid, i) && gs[i].admin == currentAdminId && newAdminId in gs[i].members)
            && (o.0.Success? ==>
                  exists i :: FirstGroup(gs, gid, i) && o.0.data == gs[i].(admin := newAdminId) && o.1 == gs[i := o.0.data])
  {
  }

  /** `changeAdmin`: load the group, check the requester and the new admin, reassign. */
  method ChangeAdmin(db: Database, gid: Id, currentAdminId: Id, newAdminId: Id) returns (r: Response<Group>)
    requires db.Valid()
    modifies db`groups
    ensures db.Valid()
    ensures (r, db.groups) == ChangeAdminOutcome(old(db.groups), gid, currentAdminId, newAdminId)
  {
    var found := Find(db.groups, GroupKey, gid);
    if found.None? {
      return Failure(NotFound);
    }
    var i := found.value;
    var group := db.groups[i];
    if group.admin != currentAdminId {
      return Failure(OnlyCurrentAdmin);
    }
    if newAdminId !in group.members {
      return Failure(NewAdminNotMember);
    }
    group := group.(admin := newAdminId);
    db.groups := db.groups[i := group];
    return Success(group);
  }

  lemma ChangeAdminKeepsWellFormed(gs: seq<Group>, gid: Id, currentAdminId: Id, newAdminId: Id)
    requires GroupsWellFormed(gs)
    ensures GroupsWellFormed(ChangeAdminOutcome(gs, gid, currentAdminId, newAdminId).1)
  {
    if ChangeAdminOutcome(gs, gid, currentAdminId, newAdminId).0.Success? {
      var i := Find(gs, GroupKey, gid).value;
      ReplaceKeepsWellFormed(gs, i, gs[i].(admin := newAdminId));
    }
  }

  /** The fields updateGroup may change, each absent when the request leaves it out. */
  datatype Changes = Changes(name: Option<string>, description: Option<string>, avatar: Option<string>,
                             onlyAdmins: Option<bool>)

  /** The group with the requested changes applied: a truthy name (trimmed), any given
      description (trimmed), a truthy avatar together with its flag, a given messaging
      setting; members and admin stay. */
  function Updated(g: Group, c: Changes): (r: Group)
    ensures r.id == g.id && r.admin == g.admin && r.members == g.members
    ensures r.name == if OrNull(c.name).Some? then Trim(c.name.value) else g.name
    ensures r.description == if c.description.Some? then Trim(c.description.value) else g.description
    ensures OrNull(c.avatar).Some? ==> r.avatarImage == c.avatar.value && r.isAvatarImageSet
    ensures OrNull(c.avatar).None? ==> r.avatarImage == g.avatarImage && r.isAvatarImageSet == g.isAvatarImageSet
    ensures r.onlyAdminsCanMessage == if c.onlyAdmins.Some? then c.onlyAdmins.value else g.onlyAdminsCanMessage
    ensures c == Changes(None, None, None, None) ==> r == g
  {
    WithMessaging(WithAvatar(WithDescription(WithName(g, c.name), c.description), c.avatar), c.onlyAdmins)
  }

  function WithName(g: Group, name: Option<string>): Group {
    if OrNull(name).Some? then g.(name := Trim(name.value)) else g
  }

  function WithDescription(g: Group, description: Option<string>): Group {
    if description.Some? then g.(description := Trim(description.value)) else g
  }

  function WithAvatar(g: Group, avatar: Option<string>): Group {
    if OrNull(avatar).Some? then g.(avatarImage := avatar.value, isAvatarImageSet := true) else g
  }

  function WithMessaging(g: Group, onlyAdmins: Option<bool>): Group {
    if onlyAdmins.Some? then g.(onlyAdminsCanMessage := onlyAdmins.value) else g
  }

  /** The reply and new groups of updateGroup: admin-only; a result the schema rejects
      is refused when saved, with nothing changed. */
  function UpdateOutcome(gs: seq<Group>, gid: Id, adminId: Id, c: Changes): (o: (Response<Group>, seq<Group>))
    ensures |o.1| == |gs|
    ensures o.0.Failure? ==> o.1 == gs
  {
    match Find(gs, GroupKey, gid)
    case None => (Failure(NotFound), gs)
    case Some(i) =>
      if gs[i].admin != adminId then (Failure(OnlyAdminUpdates), gs)
      else if !GroupValid(Updated(gs[i], c)) then (Failure(UpdateFailed), gs)
      else (Success(Updated(gs[i], c)), gs[i := Updated(gs[i], c)])
  }

  /** updateGroup succeeds exactly for the admin when the changed group passes the
      schema, and then only that group changes, to the changed one. */
  lemma UpdateSpec(gs: seq<Group>, gid: Id, adminId: Id, c: Changes)
    ensures var o := UpdateOutcome(gs, gid, adminId, c);
            && (o.0.Success? <==> exists i :: FirstGroup(gs, gid, i) && gs[i].admin == adminId && GroupValid(Updated(gs[i], c)))
            && (o.0.Success? ==> exists i :: FirstGroup(gs, gid, i) && o.0.data == Updated(gs[i], c) && o.1 == gs[i := o.0.data])
  {
  }

  /** The assignments of updateGroup: each given field of the request in turn. */
  method ApplyChanges(g: Group, c: Changes) returns (group: Group)
    ensures group == Updated(g, c)
  {
    group := g;
    if OrNull(c.name).Some? {
      group := group.(name := Trim(c.name.value));
    }
    assert group == WithName(g, c.name);
    ghost var before := group;
    if c.description.Some? {
      group := group.(description := Trim(c.description.value));
    }
    assert group == WithDescription(before, c.description);
    before := group;
    if OrNull(c.avatar).Some? {
      group := group.(avatarImage := c.avatar.value, isAvatarImageSet := true);
    }
    assert group == WithAvatar(before, c.avatar);
    before := group;
    if c.onlyAdmins.Some? {
      group := group.(onlyAdminsCanMessage := c.onlyAdmins.value);
    }
  }

  /** `updateGroup`: load the group, check the requester, assign the given fields, then
      save. */
  method UpdateGroup(db: Database, gid: Id, adminId: Id, c: Changes) returns (r: Response<Group>)
    requires db.Valid()
    modifies db`groups
    ensures db.Valid()
    ensures (r, db.groups) == UpdateOutcome(old(db.groups), gid, adminId, c)
  {
    var found := Find(db.groups, GroupKey, gid);
    if found.None? {
      return Failure(NotFound);
    }
    var i := found.value;
    var group := db.groups[i];
    if group.admin != adminId {
      return Failure(OnlyAdminUpdates);
    }
    group := ApplyChanges(group, c);
    if !GroupValid(group) {
      return Failure(UpdateFailed);
    }
    KeysBelowUpdate(db.groups, GroupKey, i, group, db.nextId);
    db.groups := db.groups[i := group];
    return Success(group);
  }

  lemma UpdateKeepsWellFormed(gs: seq<Group>, gid: Id, adminId: Id, c: Changes)
    requires GroupsWellFormed(gs)
    ensures GroupsWellFormed(UpdateOutcome(gs, gid, adminId, c).1)
  {
    if UpdateOutcome(gs, gid, adminId, c).0.Success? {
      var i := Find(gs, GroupKey, gid).value;
      ReplaceKeepsWellFormed(gs, i, Updated(gs[i], c));
    }
  }

  // ---------------------------------------------------------------------------
  // deleteGroup, leaveGroup
  // ---------------------------------------------------------------------------

  /** The group messages of every group but `gid`, in store order (`deleteMany`). */
  function DropMessages(ms: seq<GroupMessage>, gid: Id): (r: seq<GroupMessage>)
    ensures forall m :: m in r <==> m in ms && m.group != gid
    ensures |r| <= |ms|
  {
    if ms == [] then []
    else
      var rest := DropMessages(ms[..|ms| - 1], gid);
      var last := ms[|ms| - 1];
      assert ms == ms[..|ms| - 1] + [last];
      if last.group == gid then rest else rest + [last]
  }

  /** The reply and new collections of deleteGroup: admin-only; the group and all its
      messages go, every other group and message stays. */
  function DeleteOutcome(gs: seq<Group>, ms: seq<GroupMessage>, gid: Id, adminId: Id)
    : (o: (Response<string>, seq<Group>, seq<GroupMessage>))
    ensures o.0.Failure? ==> o.1 == gs && o.2 == ms
  {
    match Find(gs, GroupKey, gid)
    case None => (Failure(NotFound), gs, ms)
    case Some(i) =>
      if gs[i].admin != adminId then (Failure(OnlyAdminDeletes), gs, ms)
      else (Success(Deleted), RemoveAt(gs, i), DropMessages(ms, gid))
  }

  /** deleteGroup succeeds exactly for the admin, and then removes that group and exactly
      the messages of its id. */
  lemma DeleteSpec(gs: seq<Group>, ms: seq<GroupMessage>, gid: Id, adminId: Id)
    ensures var o := DeleteOutcome(gs, ms, gid, adminId);
            && (o.0.Success? <==> exists i :: FirstGroup(gs, gid, i) && gs[i].admin == adminId)
            && (o.0.Success? ==>
                  (exists i :: FirstGroup(gs, gid, i) && o.1 == RemoveAt(gs, i)) && o.2 == DropMessages(ms, gid))
  {
  }

  /** `deleteGroup`: load the group, check the requester, delete its messages, then it. */
  method DeleteGroup(db: Database, gid: Id, adminId: Id) returns (r: Response<string>)
    requires db.Valid()
    modifies db`groups, db`groupMessages
    ensures db.Valid()
    ensures (r, db.groups, db.groupMessages) == DeleteOutcome(old(db.groups), old(db.groupMessages), gid, adminId)
  {
    var found := Find(db.groups, GroupKey, gid);
    if found.None? {
      return Failure(NotFound);
    }
    var i := found.value;
    if db.groups[i].admin != adminId {
      return Failure(OnlyAdminDeletes);
    }
    RemoveKeepsIds(db.groups, db.groupMessages, i, gid, db.nextId);
    RemoveKeepsWellFormed(db.groups, i);
    db.groupMessages := DropMessages(db.groupMessages, gid);
    db.groups := RemoveAt(db.groups, i);
    return Success(Deleted);
  }

  /** Removing a group and dropping messages keeps every remaining id below the bound. */
  lemma RemoveKeepsIds(gs: seq<Group>, ms: seq<GroupMessage>, i: nat, gid: Id, bound: nat)
    requires i < |gs| && KeysBelow(gs, GroupKey, bound) && KeysBelow(ms, GroupMessageKey, bound)
    ensures KeysBelow(RemoveAt(gs, i), GroupKey, bound)
    ensures KeysBelow(DropMessages(ms, gid), GroupMessageKey, bound)
  {
    var r := DropMessages(ms, gid);
    forall k | 0 <= k < |r| ensures GroupMessageKey(r[k]) < bound {
      assert r[k] in ms;
    }
  }

  /** Removing a group keeps the remaining ones well formed. */
  lemma RemoveKeepsWellFormed(gs: seq<Group>, i: nat)
    requires GroupsWellFormed(gs) && i < |gs|
    ensures GroupsWellFormed(RemoveAt(gs, i))
  {
    var r := RemoveAt(gs, i);
    forall k | 0 <= k < |r| ensures GroupValid(r[k]) {
      if k < i {
        assert r[k] == gs[k];
      } else {
        assert r[k] == gs[k + 1];
      }
    }
  }

  /** After a deletion no message of the group is left. */
  lemma DeletedGroupHasNoMessages(gs: seq<Group>, ms: seq<GroupMessage>, gid: Id, adminId: Id)
    requires DeleteOutcome(gs, ms, gid, adminId).0.Success?
    ensures forall m :: m in DeleteOutcome(gs, ms, gid, adminId).2 ==> m.group != gid
    ensures GroupsWellFormed(gs) ==> GroupsWellFormed(DeleteOutcome(gs, ms, gid, adminId).1)
  {
    if GroupsWellFormed(gs) {
      RemoveKeepsWellFormed(gs, Find(gs, GroupKey, gid).value);
    }
  }

  /** The reply and new collections of leaveGroup. A non-member is refused. A member who
      is not the admin is filtered out. An admin who is the only member deletes the group
      and its messages. An admin among others hands the role to the first member who is
      not them and is filtered out; when every other entry of the member list repeats the
      admin's own id there is no such member, and saving a group without an admin fails. */
  function LeaveOutcome(gs: seq<Group>, ms: seq<GroupMessage>, gid: Id, userId: Id)
    : (o: (Response<string>, seq<Group>, seq<GroupMessage>))
    ensures o.0.Failure? ==> o.1 == gs && o.2 == ms
  {
    match Find(gs, GroupKey, gid)
    case None => (Failure(NotFound), gs, ms)
    case Some(i) =>
      var g := gs[i];
      if userId !in g.members then (Failure(NotMember), gs, ms)
      else if g.admin == userId && |g.members| <= 1 then
        assert g.members == [userId];
        (Success(Deleted), RemoveAt(gs, i), DropMessages(ms, gid))
      else if g.admin == userId && RemoveAll(g.members, userId) == [] then (Failure(LeaveFailed), gs, ms)
      else (Success(Left), gs[i := WithoutMember(g, userId)], ms)
  }

  /** leaveGroup succeeds for a member unless an admin among others has no other member to
      hand over to; a sole admin deletes the group with its messages, anyone else leaves
      it, and a leaving admin is no longer admin. */
  lemma LeaveSpec(gs: seq<Group>, ms: seq<GroupMessage>, gid: Id, userId: Id)
    ensures var o := LeaveOutcome(gs, ms, gid, userId);
            && (o.0.Success? <==>
                  exists i :: && FirstGroup(gs, gid, i) && userId in gs[i].members
                              && (gs[i].admin == userId && |gs[i].members| > 1 ==> RemoveAll(gs[i].members, userId) != []))
            && (o.0 == Success(Deleted) ==>
                  && (exists i :: && FirstGroup(gs, gid, i) && gs[i].admin == userId && gs[i].members == [userId]
                                  && o.1 == RemoveAt(gs, i))
                  && o.2 == DropMessages(ms, gid))
            && (o.0 == Success(Left) ==>
                  && o.2 == ms
                  && exists i :: && FirstGroup(gs, gid, i) && o.1 == gs[i := WithoutMember(gs[i], userId)]
                                 && (gs[i].admin == userId ==> o.1[i].admin != userId))
            && (o.0.Success? ==> o.0 in {Success(Deleted), Success(Left)})
  {
  }

  /** `leaveGroup`: load the group, check membership, hand the admin role over or delete
      the group, then filter the user out and save. */
  method LeaveGroup(db: Database, gid: Id, userId: Id) returns (r: Response<string>)
    requires db.Valid()
    modifies db`groups, db`groupMessages
    ensures db.Valid()
    ensures (r, db.groups, db.groupMessages) == LeaveOutcome(old(db.groups), old(db.groupMessages), gid, userId)
  {
    var found := Find(db.groups, GroupKey, gid);
    if found.None? {
      return Failure(NotFound);
    }
    var i := found.value;
    var group := db.groups[i];
    if userId !in group.members {
      return Failure(NotMember);
    }
    if group.admin == userId {
      if |group.members| > 1 {
        var otherMembers := RemoveAll(group.members, userId);
        if otherMembers == [] {
          return Failure(LeaveFailed);
        }
        group := group.(admin := otherMembers[0]);
      } else {
        RemoveKeepsIds(db.groups, db.groupMessages, i, gid, db.nextId);
        RemoveKeepsWellFormed(db.groups, i);
        db.groupMessages := DropMessages(db.groupMessages, gid);
        db.groups := RemoveAt(db.groups, i);
        return Success(Deleted);
      }
    }
    group := group.(members := RemoveAll(group.members, userId));
    assert group == WithoutMember(db.groups[i], userId);
    KeysBelowUpdate(db.groups, GroupKey, i, group, db.nextId);
    ReplaceKeepsWellFormed(db.groups, i, group);
    db.groups := db.groups[i := group];
    return Success(Left);
  }

  lemma LeaveKeepsWellFormed(gs: seq<Group>, ms: seq<GroupMessage>, gid: Id, userId: Id)
    requires GroupsWellFormed(gs)
    ensures GroupsWellFormed(LeaveOutcome(gs, ms, gid, userId).1)
  {
    var o := LeaveOutcome(gs, ms, gid, userId);
    if o.0.Success? {
      var i := Find(gs, GroupKey, gid).value;
      if o.0 == Success(Deleted) {
        RemoveKeepsWellFormed(gs, i);
      } else {
        ReplaceKeepsWellFormed(gs, i, WithoutMember(gs[i], userId));
      }
    }
  }

  /** An admin whose member list holds nothing but copies of their own id cannot leave. */
  lemma DuplicateAdminCannotLeave(g: Group, ms: seq<GroupMessage>)
    requires g.members == [g.admin, g.admin]
    ensures LeaveOutcome([g], ms, g.id, g.admin) == (Failure(LeaveFailed), [g], ms)
  {
    assert RemoveAll(g.members, g.admin) == [];
  }

  // ---------------------------------------------------------------------------
  // getGroupMessages, sendGroupMessage, markGroupMessagesSeen
  // ---------------------------------------------------------------------------

  /** The messages of group gid that are not deleted, in store order. */
  function Visible(ms: seq<GroupMessage>, gid: Id): (r: seq<GroupMessage>)
    ensures forall m :: m in r <==> m in ms && m.group == gid && !m.isDeleted
  {
    if ms == [] then []
    else
      var rest := Visible(ms[..|ms| - 1], gid);
      var last := ms[|ms| - 1];
      assert ms == ms[..|ms| - 1] + [last];
      if last.group == gid && !last.isDeleted then rest + [last] else rest
  }

  function GroupCreatedAtKey(m: GroupMessage): int {
    m.createdAt
  }

  /** getGroupMessages: the group's messages that are not deleted, oldest first, at most
      a page of them. */
  function GetGroupMessages(ms: seq<GroupMessage>, gid: Id): (r: seq<GroupMessage>)
    ensures |r| <= PageSize
    ensures SortedBy(r, GroupCreatedAtKey)
    ensures forall m :: m in r ==> m in ms && m.group == gid && !m.isDeleted
    ensures |Visible(ms, gid)| <= PageSize ==> multiset(r) == multiset(Visible(ms, gid))
    ensures |r| == if |Visible(ms, gid)| <= PageSize then |Visible(ms, gid)| else PageSize
    ensures multiset(r) <= multiset(Visible(ms, gid))
  {
    var sorted := SortBy(Visible(ms, gid), GroupCreatedAtKey);
    SameElements(sorted, Visible(ms, gid));
    var r := if |sorted| <= PageSize then sorted else sorted[..PageSize];
    assert forall m :: m in r ==> m in sorted;
    assert |sorted| == |multiset(sorted)| == |multiset(Visible(ms, gid))| == |Visible(ms, gid)|;
    assert sorted == r + sorted[|r|..];
    r
  }

  /** The page holds the oldest messages: every visible message left off the page is at
      least as new as every message on it. */
  lemma PageHoldsOldest(ms: seq<GroupMessage>, gid: Id, m: GroupMessage)
    requires m in Visible(ms, gid)
    ensures m !in GetGroupMessages(ms, gid) ==>
              forall i :: 0 <= i < |GetGroupMessages(ms, gid)| ==> GetGroupMessages(ms, gid)[i].createdAt <= m.createdAt
  {
    var sorted := SortBy(Visible(ms, gid), GroupCreatedAtKey);
    var r := GetGroupMessages(ms, gid);
    if m !in r {
      SameElements(sorted, Visible(ms, gid));
      var j :| 0 <= j < |sorted| && sorted[j] == m;
      assert r == sorted[..|r|];
      assert j >= |r|;
    }
  }

  /** A payload the controller counts as given: a non-empty string or any object. */
  predicate PayloadGiven(p: Payload) {
    (p.TextPayload? && p.s != "") || p.ObjectPayload?
  }

  /** Whether `sender` may post in g: a member, and the admin when only admins may post. */
  predicate MayPost(g: Group, sender: Id)
    ensures MayPost(g, sender) ==> sender in g.members
    ensures g.onlyAdminsCanMessage && sender != g.admin ==> !MayPost(g, sender)
    ensures !g.onlyAdminsCanMessage ==> (MayPost(g, sender) <==> sender in g.members)
  {
    sender in g.members && (g.onlyAdminsCanMessage ==> g.admin == sender)
  }

  /** The reply of sendGroupMessage when the next id is `id`: missing fields, an unknown
      group, a non-member sender and, in an admins-only group, a sender other than the
      admin are refused in that order; the stored message has the normalised body. */
  function SendReply(gs: seq<Group>, gid: Option<Id>, senderId: Option<Id>, p: Payload, id: Id, now: Time)
    : (r: Response<GroupMessage>)
    ensures gid.None? || senderId.None? || !PayloadGiven(p) ==> r == Failure(MissingFields)
  {
    if gid.None? || senderId.None? || !PayloadGiven(p) then Failure(MissingFields)
    else match Find(gs, GroupKey, gid.value)
      case None => Failure(NotFound)
      case Some(i) =>
        if senderId.value !in gs[i].members then Failure(NotMember)
        else if gs[i].onlyAdminsCanMessage && gs[i].admin != senderId.value then Failure(OnlyAdminsSend)
        else Success(NewGroupMessage(id, gid.value, senderId.value, NormalizeBody(p), now))
  }

  /** sendGroupMessage succeeds exactly for a complete request from a sender who may post
      in the group, and stores the normalised body. */
  lemma SendSpec(gs: seq<Group>, gid: Option<Id>, senderId: Option<Id>, p: Payload, id: Id, now: Time)
    ensures var r := SendReply(gs, gid, senderId, p, id, now);
            && (r.Success? <==>
                  && gid.Some? && senderId.Some? && PayloadGiven(p)
                  && exists i :: FirstGroup(gs, gid.value, i) && MayPost(gs[i], senderId.value))
            && (r.Success? ==> r.data == NewGroupMessage(id, gid.value, senderId.value, NormalizeBody(p), now))
  {
  }

  /** `sendGroupMessage`: check the request and the sender, store the message. */
  method SendGroupMessage(db: Database, gid: Option<Id>, senderId: Option<Id>, p: Payload, now: Time)
    returns (r: Response<GroupMessage>)
    requires db.Valid()
    modifies db`groupMessages, db`nextId
    ensures db.Valid()
    ensures r == SendReply(old(db.groups), gid, senderId, p, old(db.nextId), now)
    ensures r.Success? ==> db.groupMessages == old(db.groupMessages) + [r.data] && db.nextId == old(db.nextId) + 1
    ensures r.Failure? ==> db.groupMessages == old(db.groupMessages) && db.nextId == old(db.nextId)
  {
    if gid.None? || senderId.None? || !PayloadGiven(p) {
      return Failure(MissingFields);
    }
    var found := Find(db.groups, GroupKey, gid.value);
    if found.None? {
      return Failure(NotFound);
    }
    var group := db.groups[found.value];
    if senderId.value !in group.members {
      return Failure(NotMember);
    }
    if group.onlyAdminsCanMessage && group.admin != senderId.value {
      return Failure(OnlyAdminsSend);
    }
    var m := NewGroupMessage(db.nextId, gid.value, senderId.value, NormalizeBody(p), now);
    db.groupMessages := db.groupMessages + [m];
    db.nextId := db.nextId + 1;
    KeysBelowRaise(db.messages, MessageKey, db.nextId - 1, db.nextId);
    KeysBelowRaise(db.scheduled, ScheduledKey, db.nextId - 1, db.nextId);
    KeysBelowRaise(db.groups, GroupKey, db.nextId - 1, db.nextId);
    KeysBelowRaise(db.users, UserKey, db.nextId - 1, db.nextId);
    return Success(m);
  }

  /** A message posted to a group shows up in the group's first page while the group has
      fewer than a page of messages. */
  lemma SentIsListed(gs: seq<Group>, ms: seq<GroupMessage>, gid: Id, senderId: Id, p: Payload, id: Id, now: Time)
    requires SendReply(gs, Some(gid), Some(senderId), p, id, now).Success?
    requires |Visible(ms, gid)| < PageSize
    ensures var m := SendReply(gs, Some(gid), Some(senderId), p, id, now).data;
            m in GetGroupMessages(ms + [m], gid)
  {
    var m := SendReply(gs, Some(gid), Some(senderId), p, id, now).data;
    var ms' := ms + [m];
    assert ms'[..|ms'| - 1] == ms;
    assert Visible(ms', gid) == Visible(ms, gid) + [m];
    assert |Visible(ms', gid)| <= PageSize;
    var r := GetGroupMessages(ms', gid);
    assert multiset(r) == multiset(Visible(ms', gid));
    assert m in multiset(Visible(ms', gid));
    assert m in multiset(r);
  }

  /** A message after `userId` has seen it: added to `isRead` unless already there. */
  function SeenBy(m: GroupMessage, userId: Id): (r: GroupMessage)
    ensures userId in r.isRead
    ensures r.(isRead := m.isRead) == m
    ensures forall u :: u in m.isRead ==> u in r.isRead
    ensures multiset(r.isRead)[userId] == if userId in m.isRead then multiset(m.isRead)[userId] else 1
  {
    if userId in m.isRead then m else m.(isRead := m.isRead + [userId])
  }

  /** `updateMany` with `$addToSet`: every message of the group that is not deleted is
      seen by the user; every other message stays. */
  function MarkSeen(ms: seq<GroupMessage>, gid: Id, userId: Id): (r: seq<GroupMessage>)
    ensures |r| == |ms|
  {
    seq(|ms|, i requires 0 <= i < |ms| => if ms[i].group == gid && !ms[i].isDeleted then SeenBy(ms[i], userId) else ms[i])
  }

  /** After marking, the user is in `isRead` of every visible message of the group, at
      most once when they were there at most once before; other messages are untouched,
      and marking again changes nothing. */
  lemma MarkSeenSpec(ms: seq<GroupMessage>, gid: Id, userId: Id, i: nat)
    requires i < |ms|
    ensures var r := MarkSeen(ms, gid, userId);
            && (ms[i].group == gid && !ms[i].isDeleted ==>
                  userId in r[i].isRead && (multiset(ms[i].isRead)[userId] <= 1 ==> multiset(r[i].isRead)[userId] == 1))
            && (ms[i].group != gid || ms[i].isDeleted ==> r[i] == ms[i])
            && MarkSeen(r, gid, userId) == r
  {
    var r := MarkSeen(ms, gid, userId);
    assert forall k :: 0 <= k < |r| ==> MarkSeen(r, gid, userId)[k] == r[k];
  }

  /** `markGroupMessagesSeen`: both ids must be given; the group itself is not looked up. */
  method MarkGroupMessagesSeen(db: Database, gid: Option<Id>, userId: Option<Id>) returns (r: Response<string>)
    requires db.Valid()
    modifies db`groupMessages
    ensures db.Valid()
    ensures gid.None? || userId.None? ==> r == Failure(SeenMissing) && db.groupMessages == old(db.groupMessages)
    ensures gid.Some? && userId.Some? ==> r == Success(Seen) && db.groupMessages == MarkSeen(old(db.groupMessages), gid.value, userId.value)
  {
    if gid.None? || userId.None? {
      return Failure(SeenMissing);
    }
    var marked := MarkSeen(db.groupMessages, gid.value, userId.value);
    assert forall k :: 0 <= k < |marked| ==> marked[k].id == db.groupMessages[k].id;
    db.groupMessages := marked;
    return Success(Seen);
  }
}
