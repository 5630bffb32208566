/** The stored records of the chat server (the Mongoose schemas of server/models)
    and the two value conversions the controllers share: normalising a message
    payload and projecting a stored message for one viewer. */
module Models {
  import opened Common

  // ---------------------------------------------------------------------------
  // Message bodies
  // ---------------------------------------------------------------------------

  /** The `message` sub-document: optional text and optional file URL (`null` when absent). */
  datatype Body = Body(text: Option<string>, fileUrl: Option<string>)

  /** What a client may send as `message`: a bare string, an object `{ text, fileUrl }`,
      or nothing at all. */
  datatype Payload = TextPayload(s: string) | ObjectPayload(text: Option<string>, fileUrl: Option<string>) | NoPayload

  /** `value || null` for a string: the empty string is falsy and becomes null. */
  function OrNull(v: Option<string>): (r: Option<string>)
    ensures r.Some? <==> v.Some? && v.value != ""
    ensures r.Some? ==> r == v
  {
    if v.Some? && v.value != "" then v else None
  }

  /** No field of the body holds the empty string. */
  predicate NoEmptyField(b: Body) {
    (b.text.Some? ==> b.text.value != "") && (b.fileUrl.Some? ==> b.fileUrl.value != "")
  }

  /** The normalisation of addMessage and sendGroupMessage: a string becomes the text,
      an object contributes its own text and fileUrl, and falsy values become null. */
  function NormalizeBody(p: Payload): (b: Body)
    ensures NoEmptyField(b)
    ensures b.text.Some? <==> (p.TextPayload? && p.s != "") || (p.ObjectPayload? && p.text.Some? && p.text.value != "")
    ensures b.text.Some? ==> b.text.value == (if p.TextPayload? then p.s else p.text.value)
    ensures b.fileUrl.Some? ==> p.ObjectPayload? && b.fileUrl == p.fileUrl
    ensures p.ObjectPayload? && p.fileUrl.Some? && p.fileUrl.value != "" ==> b.fileUrl == p.fileUrl
  {
    match p
    case TextPayload(s) => Body(OrNull(Some(s)), None)
    case ObjectPayload(t, f) => Body(OrNull(t), OrNull(f))
    case NoPayload => Body(None, None)
  }

  // ---------------------------------------------------------------------------
  // Direct messages
  // ---------------------------------------------------------------------------

  /** A stored direct message. `users` lists the two participants, `sender` is one of
      them; `isRead` is a single flag for the recipient. */
  datatype Message = Message(
    id: Id,
    body: Body,
    users: seq<Id>,
    sender: Id,
    isEdited: bool,
    isDeleted: bool,
    isRead: bool,
    editedAt: Option<Time>,
    deletedAt: Option<Time>,
    createdAt: Time)

  /** A message as the schema creates it: every flag at its default (false) and neither
      edit nor delete time set. */
  predicate Unflagged(m: Message) {
    !m.isEdited && !m.isDeleted && !m.isRead && m.editedAt.None? && m.deletedAt.None?
  }

  function NewMessage(id: Id, body: Body, users: seq<Id>, sender: Id, now: Time): (m: Message)
    ensures Unflagged(m)
    ensures m.id == id && m.body == body && m.users == users && m.sender == sender && m.createdAt == now
  {
    Message(id, body, users, sender, false, false, false, None, None, now)
  }

  /** The message belongs to the conversation of a and b (`users: { $all: [a, b] }`). */
  predicate Between(m: Message, a: Id, b: Id) {
    a in m.users && b in m.users
  }

  /** The key of a message as the client holds it: the id string of a stored record, or
      the number `Date.now()` the panel gives a bubble built from a socket event. A
      strict comparison with a relayed id string never matches a number. */
  datatype ViewId = Stored(id: Id) | Temp(stamp: Time)

  /** A message as one participant sees it (the projection of getMessages). */
  datatype MessageView = MessageView(
    id: ViewId,
    fromSelf: bool,
    text: Option<string>,
    fileUrl: Option<string>,
    isEdited: bool,
    isDeleted: bool,
    isRead: bool,
    editedAt: Option<Time>,
    createdAt: Time)

  /** The view of m for `viewer`: fromSelf exactly when the viewer sent it, falsy text and
      file URL as null, every flag and time carried over. */
  function Project(m: Message, viewer: Id): (v: MessageView)
    ensures v.id == Stored(m.id) && v.createdAt == m.createdAt && v.editedAt == m.editedAt
    ensures v.fromSelf <==> m.sender == viewer
    ensures v.text == OrNull(m.body.text) && v.fileUrl == OrNull(m.body.fileUrl)
    ensures v.isEdited == m.isEdited && v.isDeleted == m.isDeleted && v.isRead == m.isRead
  {
    MessageView(Stored(m.id), m.sender == viewer, OrNull(m.body.text), OrNull(m.body.fileUrl),
                m.isEdited, m.isDeleted, m.isRead, m.editedAt, m.createdAt)
  }

  // ---------------------------------------------------------------------------
  // Scheduled messages
  // ---------------------------------------------------------------------------

  /** The three values the `status` enum admits. */
  datatype Status = Pending | Sent | Cancelled

  datatype ScheduledMessage = ScheduledMessage(
    id: Id,
    text: string,
    from: Id,
    to: Id,
    scheduledTime: Time,
    status: Status,
    sentAt: Option<Time>,
    isSent: bool)

  /** The schema's `required` on message.text: a string field is missing when empty. */
  predicate ScheduledTextValid(text: string) {
    text != ""
  }

  /** A scheduled message as created: pending, not sent and without a send time. */
  function NewScheduledMessage(id: Id, text: string, from: Id, to: Id, t: Time): (s: ScheduledMessage)
    ensures s.status == Pending && !s.isSent && s.sentAt.None?
    ensures s.id == id && s.text == text && s.from == from && s.to == to && s.scheduledTime == t
  {
    ScheduledMessage(id, text, from, to, t, Pending, None, false)
  }

  /** The state a scheduled message reaches when it is delivered at `now`. */
  function MarkedSent(s: ScheduledMessage, now: Time): (r: ScheduledMessage)
    ensures r.status == Sent && r.isSent && r.sentAt == Some(now)
    ensures r.(status := s.status, isSent := s.isSent, sentAt := s.sentAt) == s
  {
    s.(status := Sent, sentAt := Some(now), isSent := true)
  }

  /** The real message a scheduled one turns into: same text, sender `from`, the pair as users. */
  function Promote(s: ScheduledMessage, id: Id, now: Time): (m: Message)
    ensures m.body == Body(Some(s.text), None) && m.sender == s.from && m.users == [s.from, s.to]
    ensures Between(m, s.from, s.to) && Unflagged(m) && m.id == id && m.createdAt == now
  {
    NewMessage(id, Body(Some(s.text), None), [s.from, s.to], s.from, now)
  }

  // ---------------------------------------------------------------------------
  // Groups
  // ---------------------------------------------------------------------------

  /** A group; `name` and `description` are stored trimmed (the schema's `trim`). */
  datatype Group = Group(
    id: Id,
    name: string,
    description: string,
    avatarImage: string,
    isAvatarImageSet: bool,
    admin: Id,
    members: seq<Id>,
    onlyAdminsCanMessage: bool)

  /** The schema's constraints on a stored (already trimmed) `name`: required and 2 to 50
      characters. */
  predicate GroupNameValid(name: string) {
    2 <= |name| <= 50
  }

  /** The schema's constraint on a stored (already trimmed) `description`: at most 500
      characters. */
  predicate DescriptionValid(description: string) {
    |description| <= 500
  }

  /** Whether a document passes the schema's validation when saved. */
  predicate GroupValid(g: Group) {
    GroupNameValid(g.name) && DescriptionValid(g.description)
  }

  /** A stored group message; `isRead` lists the users who have seen it. */
  datatype GroupMessage = GroupMessage(
    id: Id,
    group: Id,
    sender: Id,
    body: Body,
    isRead: seq<Id>,
    isEdited: bool,
    isDeleted: bool,
    createdAt: Time)

  function NewGroupMessage(id: Id, group: Id, sender: Id, body: Body, now: Time): (m: GroupMessage)
    ensures m.isRead == [] && !m.isEdited && !m.isDeleted
    ensures m.id == id && m.group == group && m.sender == sender && m.body == body && m.createdAt == now
  {
    GroupMessage(id, group, sender, body, [], false, false, now)
  }

  // ---------------------------------------------------------------------------
  // Users
  // ---------------------------------------------------------------------------

  /** A user account: the password hashed, the plain-text password register also
      stores under `op`, and the pending password-reset code and its expiry, when one
      was requested. */
  datatype User = User(
    id: Id,
    username: string,
    email: string,
    password: string,
    op: string,
    avatarImage: string,
    about: string,
    resetOTP: Option<string>,
    resetOTPExpiry: Option<Time>)
}
