# Chat application core, modelled in Dafny

The model covers the core of a MERN chat application: an Express/MongoDB server and a React client talking over Socket.IO.

On the server side it models:

- **The MongoDB collections.** Messages, scheduled messages, groups, group messages and users are held in one `Store.Database` object. Each collection is a sequence of records. A shared `nextId` counter stands in for ObjectId allocation.
- **The HTTP controllers.** Each one is a method on the database, proved against a pure `…Outcome`/`…Reply` function. That function gives the reply and the new collection, and lemmas about it state what the controller promises:
  - one-to-one messages (`Messaging`);
  - scheduled messages (`Scheduling`);
  - groups (`Groups`);
  - accounts and password reset (`Accounts`).
- **The per-minute scheduled-message sweep** (`Sweep`, run by `Server.ChatServer.Tick`). It promotes due records to messages, marks them sent and pushes them to online recipients. The model includes what happens when the loop is aborted part-way by an exception.
- **The Socket.IO relay** (`Registry`, `Server.ChatServer`). The online-user map is a sequence of (user, socket) entries in insertion order. Every event handler appends what it emits to an outbox.

On the client side it models:

- the animation keyword matcher (`Animations`);
- online presence and the recency-ordered contact list with unread counters (`ChatPage`);
- the contact filter, avatar source and unread badge (`ContactList`);
- the open chat window, a `ChatWindow.ChatView` object whose handlers update its state in place (`ChatWindow`).

Shared pieces live in `Common` (Option/Response, trimming, ASCII lower-casing, substring search, decimal rendering, first-match search, stable dedup, sorting) and `Models` (the record types and their constructors).

Inputs the code takes from outside are parameters:

- the clock is `now`;
- `Math.random` is `draw`;
- mail delivery is `mailFails`;
- bcrypt output is `hashedPassword`;
- a truthy `io` field in the body of a manual scheduled send is `ioGiven`;
- database failures are parameters in two places only: `storeFails` in `Server.ChatServer.MessageSeen` and `fault` in the sweep;
- axios success is `accepted` or `deleted`.

## Model

| member | source | states |
|---|---|---|
| Common.Trim | server/models/Group.js:5-17 | the result has no white space at either end (every character JavaScript's `trim` removes, Unicode space separators and line terminators included) and is a contiguous slice of the input |
| Common.BlankTrimsToEmpty | server/controllers/scheduledMessageController.js:38 | text made only of white space trims to the empty string |
| Common.Lower | cHat/src/utils/messageAnimations.js:14 | same length as the input, each character lower-cased |
| Common.NatToString | cHat/src/components/Contacts.jsx:130 | decimal digits with no leading zero |
| Common.NatToStringRoundTrip | cHat/src/components/Contacts.jsx:130 | reading the rendered digits back gives the number |
| Common.Find | server/controllers/messageController.js:58 | `findById`: the first index holding the id, or None exactly when no record holds it |
| Common.FindFirst | server/controllers/messageController.js:58 | when index i is the first record with the id, Find returns i |
| Common.RemoveAll | cHat/src/pages/Chat.jsx:55-57 | `filter(id => id !== x)`: x is gone, every other element and its multiplicity stays |
| Common.Dedup | cHat/src/pages/Chat.jsx:51-53 | `[...new Set(..)]`: no duplicates, same elements, and a duplicate-free input is unchanged |
| Common.SortBy | server/controllers/messageController.js:11 | the result is sorted by the key and is a permutation of the input |
| Common.RemoveAt | server/index.js:228 | deleting element i keeps the earlier elements and shifts the later ones down by one |
| Models.OrNull | server/controllers/messageController.js:17-18 | `x || null`: None for a missing or empty string, otherwise the value |
| Models.NormalizeBody | server/controllers/messageController.js:38-41 | a string payload is the text, an object payload gives text and fileUrl, and no stored field is empty |
| Models.NewMessage | server/models/Message.js:5-32 | a new message is not edited, deleted or read and has no edit or delete time |
| Models.Project | server/controllers/messageController.js:13-24 | the client view: fromSelf iff the viewer sent it; text and fileUrl become null when empty; the flags are copied |
| Models.NewScheduledMessage | server/models/ScheduledMessage.js:6-33 | a new record is pending, not sent, and has no sent time |
| Models.MarkedSent | server/index.js:76-79 | status sent, isSent set, sentAt now; nothing else changes |
| Models.Promote | server/index.js:69-73 | the promoted message carries the scheduled text from sender to recipient and is unflagged |
| Models.NewGroupMessage | server/models/GroupMessage.js:15-36 | a new group message has no readers and is neither edited nor deleted |
| Store.Database.constructor | server/index.js:45-46 | an empty store satisfies the store invariant: ids below the counter and every stored group valid under the schema |
| Store.Database.InsertGroup | server/controllers/groupController.js:31 | appends a schema-valid group under the next id and keeps the store invariant |
| Registry.Lookup | server/index.js:121 | `onlineUsers.get`: Some iff an entry for the user exists, and that entry is in the map |
| Registry.Keys | server/index.js:116 | `Array.from(keys())`: the users in insertion order |
| Registry.Set | server/index.js:110 | `onlineUsers.set(u, s)`: the pair is in the map, every other entry keeps its place, and the map grows by one exactly when u was not a key |
| Registry.SetThenLookup | server/index.js:110 | after `set(u, s)`, `get(u)` gives s |
| Registry.SetLeavesOthers | server/index.js:110 | `set(u, s)` does not change the lookup of any other user |
| Registry.SetKeys | server/index.js:110 | a new user goes to the end of the key order; re-adding a user keeps its place; keys stay distinct |
| Registry.RemoveAtKeys | server/index.js:228 | after deleting a user's entry that user has no socket and every other lookup is unchanged |
| Registry.Relayed | server/index.js:120-126 | an event to a user is emitted once iff the user is online, and never otherwise |
| Registry.RelayedReaches | server/index.js:120-126 | `socket.to(target)`: the relayed event reaches socket s iff s is the recipient's socket and not the sender's own |
| Server.MarkRead | server/index.js:135-142 | `updateMany`: exactly the messages the other user sent in this conversation become read; nothing else changes |
| Server.MarkReadIdempotent | server/index.js:135-142 | marking messages seen twice equals marking them once |
| Server.MarkReadKeepsReplies | server/index.js:137-139 | the viewer's own messages are not marked read |
| Server.DisconnectKeepsLaterEntries | server/index.js:224-234 | disconnect removes the first entry with the socket; a later user on the same socket stays mapped to the closed socket |
| Server.ChatServer.constructor | server/index.js:104-107 | an empty online map, no chat socket, nothing emitted |
| Server.ChatServer.Connect | server/index.js:106-107 | the newest connection becomes the global chat socket |
| Server.ChatServer.AddUser | server/index.js:109-113 | the user maps to this socket and `user-online` is broadcast to everyone |
| Server.ChatServer.GetOnlineUsers | server/index.js:115-118 | the caller alone receives the online user ids in insertion order |
| Server.ChatServer.SendMsg | server/index.js:120-126 | `msg-recieve` is relayed to the recipient when online |
| Server.ChatServer.MessageSeen | server/index.js:129-150 | the store marks the messages read unless it fails; `msg-seen` is relayed either way |
| Server.ChatServer.ClearChatRequestRelay | server/index.js:153-159 | relays `clear-chat-request` with the requester id |
| Server.ChatServer.ClearChatAccept | server/index.js:161-168 | relays `clear-chat-accepted` |
| Server.ChatServer.ClearChatReject | server/index.js:170-176 | relays `clear-chat-rejected` |
| Server.ChatServer.EditMsg | server/index.js:178-184 | relays `msg-edited` with the id and new text |
| Server.ChatServer.DeleteMsg | server/index.js:186-192 | relays `msg-deleted` with the id |
| Server.ChatServer.Typing | server/index.js:194-200 | relays `user-typing` |
| Server.ChatServer.StopTyping | server/index.js:202-208 | relays `user-stop-typing` |
| Server.ChatServer.SendGroupMsg | server/index.js:211-222 | broadcasts `group-msg-recieve` to every socket except the sender's |
| Server.ChatServer.Disconnect | server/index.js:224-234 | removes the first entry on the closing socket and broadcasts `user-offline` for it; with no entry, nothing happens |
| Server.ChatServer.Tick | server/index.js:59-95 | one sweep: the new store state and outbox equal the sweep outcome for the due records and the fault; users, online map and ids stay valid |
| Server.ChatServer.RunDue | server/index.js:67-91 | the loop over due records reaches the sweep outcome |
| Server.ChatServer.DeliverNext | server/index.js:68-90 | one iteration: create, save, push; on an exception the sweep stops at the outcome |
| Sweep.DueIndices | server/index.js:62-65 | the increasing indices of pending records whose time has come |
| Sweep.DueIndicesComplete | server/index.js:62-65 | every pending record whose time has come is among the due indices |
| Sweep.StopFrom | server/index.js:92-94 | the position of the first record whose processing throws, no earlier than the start |
| Sweep.CreatedCount | server/index.js:67-94 | the number of messages created is the number completed, plus one when saving the record threw |
| Sweep.MarkSent | server/index.js:75-79 | marking a list of records leaves the collection length unchanged |
| Sweep.MarkSentAt | server/index.js:75-79 | a record is marked sent iff its index was processed, otherwise unchanged |
| Sweep.Promotions | server/index.js:69-73 | one created message per processed record |
| Sweep.PromotionsAt | server/index.js:69-73 | the k-th created message is the k-th record promoted under id start+k |
| Sweep.Push | server/index.js:81-90 | at most one push per record, made exactly when the recipient is online and a chat socket exists, carrying the stored id and the scheduled label |
| Sweep.PushReaches | server/index.js:81-90 | the push reaches a socket iff it is the recipient's socket and not the chat socket it is sent from |
| Sweep.PushList | server/index.js:81-90 | one push list per processed record |
| Sweep.TickOutcome | server/index.js:59-95 | a sweep adds or removes no record, only appends messages and pushes, creates at most one message per due record, and uses one fresh id per message |
| Sweep.CreateStep | server/index.js:69-73 | creating record j's message appends its promotion under the next id |
| Sweep.SaveStep | server/index.js:75-90 | saving record j marks it sent and appends its push |
| Sweep.ProgressKeepsKeys | server/index.js:67-91 | at every point of the loop, all ids stay below the counter |
| Sweep.TickKeepsIds | server/index.js:59-95 | a sweep keeps every id in the store below the id counter |
| Sweep.TickTouchesOnlyDue | server/index.js:62-79 | a record the sweep changes was due and is now marked sent; non-pending records are never touched |
| Sweep.SecondTickDoesNothing | server/index.js:62-79 | after a sweep that completed, a second sweep at the same time finds nothing due and creates and pushes nothing |
| Sweep.StoppedTickLeavesRestDue | server/index.js:67-94 | every due record after the point where a sweep stopped is left unchanged and still due |
| Sweep.StopNoLaterThan | server/index.js:92-94 | a sweep stops no later than the first record that throws |
| Sweep.StopFromIsFirstThrow | server/index.js:92-94 | when a sweep stops early, the record it stops at throws |
| Sweep.OrphanBlocksLaterRecords | server/index.js:65-71 | a due record whose sender no longer exists stops the sweep there, so no later record is delivered |
| Sweep.SaveFailureDuplicates | server/index.js:69-79 | when saving a record fails after its message was created, the record stays due, so the next sweep delivers it again |
| Scheduling.ScheduleReply | server/controllers/scheduledMessageController.js:9-62 | missing fields, a time at most one second ahead and a time beyond a year fail in that order; otherwise success iff the trimmed text is non-empty, storing a pending record |
| Scheduling.InWindow | server/controllers/scheduledMessageController.js:17-35 | a time in the window is more than one second and at most a year ahead; any other time is outside it |
| Scheduling.BlankTextFails | server/controllers/scheduledMessageController.js:37-43 | text of white space only, of any kind `trim` removes, fails at create time |
| Scheduling.ZeroTimeIsMissing | server/controllers/scheduledMessageController.js:9-14 | a scheduled time of 0 is falsy and reported as a missing field |
| Scheduling.ScheduleMessage | server/controllers/scheduledMessageController.js:9-62 | stores the reply's record under the next id, or leaves the store unchanged |
| Scheduling.ScheduledNotDueYet | server/controllers/scheduledMessageController.js:21-43 | a new record is pending and not due for at least one second; it is due exactly from its time on |
| Scheduling.PendingFrom | server/controllers/scheduledMessageController.js:70-73 | exactly the pending records of the sender |
| Scheduling.GetScheduledMessages | server/controllers/scheduledMessageController.js:70-75 | the sender's pending records, sorted by time, as a permutation |
| Scheduling.GetScheduledMembers | server/controllers/scheduledMessageController.js:70-73 | a record is listed iff it belongs to the sender and is pending |
| Scheduling.ScheduledIsListed | server/controllers/scheduledMessageController.js:37-43 | a newly scheduled record appears in its sender's list |
| Scheduling.CancelOutcome | server/controllers/scheduledMessageController.js:88-102 | success iff the first record with the id belongs to the requester; it is then marked cancelled, otherwise nothing changes |
| Scheduling.CancelScheduledMessage | server/controllers/scheduledMessageController.js:88-102 | the store changes as the outcome says |
| Scheduling.CancelStopsDelivery | server/controllers/scheduledMessageController.js:98-99 | the record a cancel changes is cancelled and never due again |
| Scheduling.CancelIgnoresStatus | server/controllers/scheduledMessageController.js:88-102 | a record already sent can still be cancelled, keeping its sent flag and time |
| Scheduling.MarkSentOne | server/controllers/scheduledMessageController.js:158-160 | only record i is marked sent |
| Scheduling.RescheduleOutcome | server/controllers/scheduledMessageController.js:114-135 | success iff the new time is in the future and the first record with the id is the requester's and pending; only its time changes |
| Scheduling.RescheduleMessage | server/controllers/scheduledMessageController.js:114-135 | the store changes as the outcome says |
| Scheduling.RescheduledDueAtNewTime | server/controllers/scheduledMessageController.js:132-133 | a rescheduled record stays pending and is due exactly from the new time |
| Scheduling.RescheduleSkipsWindow | server/controllers/scheduledMessageController.js:114 | reschedule accepts times that scheduling refuses: one millisecond ahead, or beyond a year |
| Scheduling.SendOutcome | server/controllers/scheduledMessageController.js:145-161 | success iff the first record with the id is pending; it becomes a message and is marked sent |
| Scheduling.SendReply | server/controllers/scheduledMessageController.js:141-177 | the reply: the outcome's when no `io` is given; with a truthy `io` a delivered record ends in the error handler |
| Scheduling.SendScheduledMessage | server/controllers/scheduledMessageController.js:141-177 | replies as SendReply says; whenever the record is delivered the new message is appended under the next id and the record is marked sent, even when the reply is an error; otherwise nothing changes |
| Scheduling.ErrorAfterDelivery | server/controllers/scheduledMessageController.js:143-175 | with `io` in the body a delivered record is reported as an error, yet it is marked sent, and sending it again is refused |
| Scheduling.SentByHandNotRedelivered | server/controllers/scheduledMessageController.js:158-161 | a record sent by hand is never due for the sweep again |
| Messaging.Conversation | server/controllers/messageController.js:7-10 | exactly the messages whose users contain both ids |
| Messaging.GetMessages | server/controllers/messageController.js:7-25 | one view per message of the pair, in ascending creation time; every view is the viewer's projection of a stored message of the pair, and every stored message of the pair is listed |
| Messaging.AddedMessage | server/controllers/messageController.js:38-44 | the new message is between sender and recipient in both directions and unflagged |
| Messaging.AddMessage | server/controllers/messageController.js:38-44 | appends that message under the next id |
| Messaging.AddedIsListed | server/controllers/messageController.js:38-44 | an added message is listed for both participants |
| Messaging.EditedMessage | server/controllers/messageController.js:72-75 | the text is replaced, the message is edited at now, and the file stays |
| Messaging.Tombstone | server/controllers/messageController.js:98-99 | deletion replaces the text with the deleted-message text and sets the flag; nothing else changes |
| Messaging.EditOutcome | server/controllers/messageController.js:58-77 | success iff the first message with the id is the requester's and not deleted; only it changes |
| Messaging.EditMessage | server/controllers/messageController.js:58-77 | the store changes as the outcome says |
| Messaging.DeleteOutcome | server/controllers/messageController.js:88-102 | success iff the first message with the id is the requester's; it becomes a tombstone |
| Messaging.DeleteMessage | server/controllers/messageController.js:88-102 | the store changes as the outcome says |
| Messaging.DeleteIdempotent | server/controllers/messageController.js:88-99 | deleting twice gives the same store as deleting once |
| Messaging.NoEditAfterDelete | server/controllers/messageController.js:68-70 | a deleted message cannot be edited |
| Messaging.Without | server/controllers/messageController.js:114-118 | exactly the messages not between the two users |
| Messaging.ClearCount | server/controllers/messageController.js:114-121 | kept plus deleted equals the original count |
| Messaging.ClearChat | server/controllers/messageController.js:114-121 | removes the conversation and reports how many messages went |
| Messaging.NothingBetween | server/controllers/messageController.js:114-118 | a store without messages between the pair has an empty conversation |
| Messaging.ClearedIsEmpty | server/controllers/messageController.js:114-118 | after clearing, the conversation reads empty from both sides |
| Groups.ReplaceKeepsWellFormed | server/models/Group.js:5-41 | replacing one valid group keeps every group valid |
| Groups.MembersWithAdmin | server/controllers/groupController.js:14-17 | the admin is in the member list, appended only when absent |
| Groups.NewGroup | server/controllers/groupController.js:19-29 | trimmed name and description, avatar set iff given, admin included, posting open to all |
| Groups.CreateReply | server/controllers/groupController.js:9-39 | a missing name or admin fails as required; success iff both are given and the group validates |
| Groups.BuildGroup | server/controllers/groupController.js:19-31 | the method computes the reply |
| Groups.CreateGroup | server/controllers/groupController.js:9-39 | the group is appended under the next id on success; otherwise nothing changes |
| Groups.CreatedAdminOnce | server/controllers/groupController.js:14-17 | the admin is added to the members only when the request did not list them: it then appears exactly once, and otherwise as often as the request listed it |
| Groups.CreateKeepsWellFormed | server/controllers/groupController.js:9-39 | creating keeps every group valid |
| Groups.AddMemberOutcome | server/controllers/groupController.js:88-104 | a failure leaves the groups unchanged |
| Groups.AddMemberSpec | server/controllers/groupController.js:88-104 | success iff the group exists, the caller is its admin and the user is not yet a member; the user is appended |
| Groups.AddMember | server/controllers/groupController.js:88-104 | the store changes as the outcome says |
| Groups.AddMemberKeepsWellFormed | server/controllers/groupController.js:88-104 | adding keeps every group valid |
| Groups.WithoutMember | server/controllers/groupController.js:134-139 | the user leaves the members; an admin who leaves hands the role to the first remaining member, or keeps it when none remain |
| Groups.RemoveMemberOutcome | server/controllers/groupController.js:124-141 | a failure leaves the groups unchanged |
| Groups.RemoveMemberSpec | server/controllers/groupController.js:124-141 | success iff the group exists and the caller is its admin or removes themselves |
| Groups.RemoveMember | server/controllers/groupController.js:124-141 | the store changes as the outcome says |
| Groups.RemoveMemberKeepsWellFormed | server/controllers/groupController.js:124-141 | removing keeps every group valid |
| Groups.RemovedLastAdminKeepsRole | server/controllers/groupController.js:137-139 | an admin removing themselves from a one-member group stays admin of an empty group and can still add members |
| Groups.ChangeAdminOutcome | server/controllers/groupController.js:319-335 | a failure leaves the groups unchanged |
| Groups.ChangeAdminSpec | server/controllers/groupController.js:319-335 | success iff the caller is admin and the new admin is a member; only the admin changes |
| Groups.ChangeAdmin | server/controllers/groupController.js:319-335 | the store changes as the outcome says |
| Groups.ChangeAdminKeepsWellFormed | server/controllers/groupController.js:319-335 | changing the admin keeps every group valid |
| Groups.Updated | server/controllers/groupController.js:171-179 | each given field replaces the stored one; an empty change leaves the group unchanged |
| Groups.UpdateOutcome | server/controllers/groupController.js:161-191 | a failure leaves the groups unchanged |
| Groups.UpdateSpec | server/controllers/groupController.js:161-191 | success iff the caller is admin and the updated group validates |
| Groups.ApplyChanges | server/controllers/groupController.js:171-179 | the field-by-field assignments give the updated group |
| Groups.UpdateGroup | server/controllers/groupController.js:161-191 | the store changes as the outcome says |
| Groups.UpdateKeepsWellFormed | server/controllers/groupController.js:161-191 | updating keeps every group valid |
| Groups.DropMessages | server/controllers/groupController.js:212 | exactly the messages of other groups remain |
| Groups.DeleteOutcome | server/controllers/groupController.js:201-218 | a failure leaves groups and messages unchanged |
| Groups.DeleteSpec | server/controllers/groupController.js:201-218 | success iff the caller is admin; the group and all its messages go |
| Groups.DeleteGroup | server/controllers/groupController.js:201-218 | the store changes as the outcome says |
| Groups.RemoveKeepsIds | server/controllers/groupController.js:212-215 | deletion keeps ids below the counter |
| Groups.RemoveKeepsWellFormed | server/controllers/groupController.js:215 | deletion keeps every group valid |
| Groups.DeletedGroupHasNoMessages | server/controllers/groupController.js:212 | after deletion no message of the group remains |
| Groups.LeaveOutcome | server/controllers/groupController.js:355-388 | a failure leaves groups and messages unchanged |
| Groups.LeaveSpec | server/controllers/groupController.js:355-388 | members may leave; the last admin deletes the group with its messages; an admin hands the role on |
| Groups.LeaveGroup | server/controllers/groupController.js:355-388 | the store changes as the outcome says |
| Groups.LeaveKeepsWellFormed | server/controllers/groupController.js:355-388 | leaving keeps every group valid |
| Groups.DuplicateAdminCannotLeave | server/controllers/groupController.js:366-377 | an admin listed twice as the only member cannot leave |
| Groups.Visible | server/controllers/groupController.js:230-233 | exactly the group's messages that are not deleted |
| Groups.GetGroupMessages | server/controllers/groupController.js:230-237 | visible messages of the group in ascending time, drawn from the visible ones without repetition: all of them when there are 50 or fewer, and exactly 50 otherwise |
| Groups.PageHoldsOldest | server/controllers/groupController.js:236-237 | every listed message is no newer than any visible message left off the page |
| Groups.SendReply | server/controllers/groupController.js:251-277 | missing fields, an unknown group, a non-member and an admins-only group fail in that order |
| Groups.MayPost | server/controllers/groupController.js:261-268 | only members may post; in an admins-only group only the admin; in an open group every member |
| Groups.SendSpec | server/controllers/groupController.js:251-277 | success iff all fields are given and the sender may post; the new message carries the body |
| Groups.SendGroupMessage | server/controllers/groupController.js:251-277 | appends the message under the next id on success; otherwise nothing changes |
| Groups.SentIsListed | server/controllers/groupController.js:271-277 | a sent group message is visible in its group |
| Groups.SeenBy | server/controllers/groupController.js:298-306 | `$addToSet`: the reader is added once and no reader is lost |
| Groups.MarkSeen | server/controllers/groupController.js:298-306 | the collection keeps its length |
| Groups.MarkSeenSpec | server/controllers/groupController.js:298-306 | only visible messages of the group gain the reader, and marking twice is marking once |
| Groups.MarkGroupMessagesSeen | server/controllers/groupController.js:298-306 | missing ids fail without change; otherwise the messages are marked |
| Accounts.NewUser | server/controllers/userController.js:9-23 | a new account holds the given username, email and hashed password, the plain-text password under `op`, no avatar or about text, and no reset code |
| Accounts.RegisterReply | server/controllers/userController.js:9-23 | a used username fails first, then a used email; otherwise success |
| Accounts.Register | server/controllers/userController.js:9-23 | appends the account under the next id on success |
| Accounts.RegisterKeepsUnique | server/controllers/userController.js:9-23 | registration keeps usernames and emails unique |
| Accounts.RenameOutcome | server/controllers/userController.js:151-164 | fails when another account holds the name; success iff the user exists |
| Accounts.UpdateUsername | server/controllers/userController.js:151-164 | the store changes as the outcome says |
| Accounts.RenameKeepsUnique | server/controllers/userController.js:151-164 | renaming keeps usernames unique |
| Accounts.Newest | server/controllers/userController.js:89 | None iff no message is between the two users; otherwise the time of one that is |
| Accounts.Others | server/controllers/userController.js:78-84 | exactly the other users |
| Accounts.GetAllUsers | server/controllers/userController.js:78-98 | one contact per other user |
| Accounts.GetAllUsersSpec | server/controllers/userController.js:78-98 | the caller is never listed, every other user is, and each entry carries the last message time |
| Accounts.FindEmail | server/controllers/userController.js:244-248 | the first account with the email, or None iff there is none |
| Accounts.Otp | server/controllers/userController.js:250 | a six-digit code with no leading zero, valued 100000 + draw |
| Accounts.OtpInjective | server/controllers/userController.js:250 | different draws give different codes |
| Accounts.WithOtp | server/controllers/userController.js:250-255 | stores the code with an expiry fifteen minutes on |
| Accounts.ForgotOutcome | server/controllers/userController.js:244-269 | an unknown email fails without change; otherwise the code is stored, and the reply fails iff the mail fails |
| Accounts.ForgotPassword | server/controllers/userController.js:244-269 | the store changes as the outcome says |
| Accounts.CheckOtp | server/controllers/userController.js:283-299 | accepted iff the stored code matches and has not expired; no request or expired otherwise |
| Accounts.Cleared | server/controllers/userController.js:288-293 | the code and its expiry are removed |
| Accounts.VerifyOutcome | server/controllers/userController.js:277-301 | each verdict gives its reply; an expired code is cleared |
| Accounts.WithPassword | server/controllers/userController.js:338-341 | the password is set and the code cleared |
| Accounts.ResetOutcome | server/controllers/userController.js:313-343 | each verdict gives its reply; success sets the password and clears the code |
| Accounts.VerifyOtp | server/controllers/userController.js:277-301 | the store changes as the outcome says |
| Accounts.ResetPassword | server/controllers/userController.js:313-343 | the store changes as the outcome says |
| Accounts.FreshCodeWorks | server/controllers/userController.js:244-343 | a code just sent verifies and resets within fifteen minutes and is expired after |
| Accounts.FindEmailAfterUpdate | server/controllers/userController.js:244-248 | updating the found account keeps it found |
| Accounts.CodeSpentAfterReset | server/controllers/userController.js:338-341 | after a reset the same code neither verifies nor resets again |
| Accounts.ResetKeepsPlainPassword | server/controllers/userController.js:334-341 | a reset replaces only the hash of the account it finds: every account's plain-text `op` stays as register stored it |
| Accounts.ExpiredCodeCleared | server/controllers/userController.js:288-293 | once an expired code was presented, any later code finds no request |
| Animations.Config | cHat/src/utils/messageAnimations.js:17-70 | the duration and particle count of each theme |
| Animations.FirstTheme | cHat/src/utils/messageAnimations.js:17-72 | Some iff some theme's keyword occurs, and no earlier theme's keyword does |
| Animations.CheckMessageAnimation | cHat/src/utils/messageAnimations.js:11-73 | None for no or empty text; Some iff a keyword occurs in the lower-cased text, giving that theme's settings |
| Common.LowerIdempotent | cHat/src/utils/messageAnimations.js:14 | lower-casing twice is lower-casing once |
| Animations.CaseInsensitive | cHat/src/utils/messageAnimations.js:14 | the matcher gives the same answer for the lower-cased text |
| Animations.KeywordInsideWord | cHat/src/utils/messageAnimations.js:17-70 | a keyword matches even inside a longer word |
| Animations.FirstThemeWins | cHat/src/utils/messageAnimations.js:17-29 | a crackers keyword wins over any other theme |
| Animations.NoKeywordNoAnimation | cHat/src/utils/messageAnimations.js:17-72 | text whose lower-cased form contains no keyword of any theme triggers nothing |
| Animations.ShortMessageNoAnimation | cHat/src/utils/messageAnimations.js:17-72 | "ok" triggers nothing |
| ChatPage.AddOnline | cHat/src/pages/Chat.jsx:51-53 | the user is online once; an already-online user leaves the list unchanged; a new one is appended |
| ChatPage.DropOnline | cHat/src/pages/Chat.jsx:55-57 | the user is no longer online and the others are |
| ChatPage.Step | cHat/src/pages/Chat.jsx:51-61 | `user-online` lists its user and keeps the rest; `user-offline` unlists its user and keeps the rest; a snapshot replaces the list; nobody else comes online |
| ChatPage.Replay | cHat/src/pages/Chat.jsx:51-61 | after a run of events a listed user was listed before or was named online by some event |
| ChatPage.ReplayKeepsNoDuplicates | cHat/src/pages/Chat.jsx:51-61 | any sequence of presence events keeps the list duplicate-free when the server snapshot is |
| ChatPage.RemoveKeepsNoDuplicates | cHat/src/pages/Chat.jsx:55-57 | removal keeps the list duplicate-free |
| ChatPage.SnapshotForgetsHistory | cHat/src/pages/Chat.jsx:59-61 | after a snapshot, the earlier list no longer matters |
| ChatPage.SortContacts | cHat/src/pages/Chat.jsx:92-96 | the most recent contact comes first, missing times count as 0, and the result is a permutation |
| ChatPage.Loaded | cHat/src/pages/Chat.jsx:110-125 | the server's contact list sorted most recent first, one row per contact, every unread counter at 0 |
| ChatPage.OpenChat | cHat/src/pages/Chat.jsx:151-155 | the opened contact's row is kept whole except for an unread count of 0; the other rows are unchanged |
| ChatPage.OpenChatIdempotent | cHat/src/pages/Chat.jsx:151-155 | opening twice equals opening once |
| ChatPage.Bumped | cHat/src/pages/Chat.jsx:167-171 | one more unread message, last message now |
| ChatPage.BumpSender | cHat/src/pages/Chat.jsx:165-173 | only the sender's entry is bumped |
| ChatPage.Incoming | cHat/src/pages/Chat.jsx:160-180 | from the open chat nothing changes; otherwise the contacts are the bumped ones, re-sorted by recency |
| ChatPage.IncomingBumpsOnlySender | cHat/src/pages/Chat.jsx:160-180 | the sender appears bumped, every other contact appears unchanged, nothing else appears |
| ChatPage.SenderMovesToTop | cHat/src/pages/Chat.jsx:160-180 | when no contact is newer than now, the first entry has the current time |
| ChatPage.RefetchResetsCount | cHat/src/pages/Chat.jsx:160-182 | a message from another contact is counted, and the refetch scheduled 100 ms later brings the sender's counter back to 0 |
| ChatPage.NotificationBody | cHat/src/pages/Chat.jsx:189 | a prefix of the message of at most 100 characters, the whole message when short |
| ContactList.DisplayName | cHat/src/components/Contacts.jsx:127 | the alias when set and non-empty, else the username |
| ContactList.FilterContacts | cHat/src/components/Contacts.jsx:47-50 | exactly the contacts whose display name contains the query, case ignored |
| ContactList.FilterDistributes | cHat/src/components/Contacts.jsx:47-50 | filtering keeps the original order |
| ContactList.EmptyQueryKeepsAll | cHat/src/components/Contacts.jsx:47-50 | an empty query keeps every contact |
| ContactList.EmptyQueryMatches | cHat/src/components/Contacts.jsx:49 | every name contains the empty query |
| ContactList.QueryCaseIgnored | cHat/src/components/Contacts.jsx:49 | a lower-cased query filters the same way |
| ContactList.SameFilter | cHat/src/components/Contacts.jsx:49 | queries that lower-case alike filter alike |
| ContactList.AvatarOf | cHat/src/components/Contacts.jsx:121 | the custom avatar when set, else the stored one |
| ContactList.AvatarSrc | cHat/src/components/Contacts.jsx:52-55 | null for no avatar; a data URL is kept; anything else gets the SVG base64 prefix; a result always starts with `data:` |
| ContactList.AvatarSrcStable | cHat/src/components/Contacts.jsx:52-55 | applying it to its own result changes nothing |
| ContactList.PresenceRoundTrip | cHat/src/components/Contacts.jsx:112 | a user who comes online shows the dot; after going offline does not; others are unaffected |
| ContactList.IsOnline | cHat/src/components/Contacts.jsx:112 | the dot is lit exactly when the id is in the online list |
| ContactList.Badge | cHat/src/components/Contacts.jsx:129-131 | a badge iff unread; `99+` above 99; otherwise the count in at most two digits |
| ContactList.LoadedShowsNoBadge | cHat/src/components/Contacts.jsx:129-131 | right after a load or refetch no contact shows a badge |
| ChatWindow.EditView | cHat/src/components/ChatContainer.jsx:234-242 | the text is replaced and marked edited; the rest is kept |
| ChatWindow.EditAll | cHat/src/components/ChatContainer.jsx:113-117 | only bubbles of the stored message with the id are edited; bubbles with a temporary id never match |
| ChatWindow.TombstoneView | cHat/src/components/ChatContainer.jsx:244-246 | the deleted-message text and flag; every other field (id, file, edit flag and time, read flag, creation time) kept, as the spread keeps it |
| ChatWindow.Tombstoned | cHat/src/components/ChatContainer.jsx:244-246 | only bubbles of the stored message with the id are tombstoned, in place; bubbles with a temporary id never match |
| ChatWindow.SeenAll | cHat/src/components/ChatContainer.jsx:263-268 | all own messages become read; received ones are unchanged; nothing becomes unread |
| ChatWindow.Arrival | cHat/src/components/ChatContainer.jsx:207-217 | a received bubble, unflagged, carrying the text and time, with a temporary id |
| ChatWindow.RelayedSkipsArrivals | cHat/src/components/ChatContainer.jsx:205-246 | a relayed edit or deletion never reaches a bubble built from a socket event |
| ChatWindow.OwnBubble | cHat/src/components/ChatContainer.jsx:75-85 | an own bubble built from the stored message, unflagged |
| ChatWindow.CanOpenContextMenu | cHat/src/components/ChatContainer.jsx:318-319 | the menu opens only on own bubbles and never on a deleted one |
| ChatWindow.SwipeReplies | cHat/src/components/ChatContainer.jsx:332-353 | a swipe replies only on mobile, to a received live bubble, and never for a move of 50 pixels or less |
| ChatWindow.GesturesExclusive | cHat/src/components/ChatContainer.jsx:318-353 | no message admits both a context menu and a swipe reply; a deleted one admits neither |
| ChatWindow.TombstoneIsInert | cHat/src/components/ChatContainer.jsx:318-353 | a tombstoned message admits no context menu and no swipe reply |
| ChatWindow.TombstoneIdempotent | cHat/src/components/ChatContainer.jsx:244-246 | deleting twice is deleting once |
| ChatWindow.SeenIdempotent | cHat/src/components/ChatContainer.jsx:263-268 | a second seen event changes nothing |
| ChatWindow.ChatView.constructor | cHat/src/components/ChatContainer.jsx:8-23 | initial state: no messages, no reply, flags cleared, and the first chat's socket handlers registered |
| ChatWindow.ChatView.Open | cHat/src/components/ChatContainer.jsx:25-35 | opening a chat loads its messages; the listener effect (lines 203-270) registers the chat's handlers beside those of every chat opened before, with no cleanup |
| ChatWindow.ChatView.OpenCleaned | cHat/src/components/ChatContainer.jsx:288-315 | opening a chat with the cleanup the clear-chat effect has: only the new chat's handlers remain, so a handler fires exactly for the open chat |
| ChatWindow.ChatView.Receive | cHat/src/components/ChatContainer.jsx:205-217 | a message from a chat whose handler is registered, the open chat always included, is appended; others are ignored |
| ChatWindow.ChatView.SendOwn | cHat/src/components/ChatContainer.jsx:75-89 | the sent message is appended |
| ChatWindow.ChatView.EditOwn | cHat/src/components/ChatContainer.jsx:113-117 | on acceptance the message is edited with the local time |
| ChatWindow.ChatView.EditRelayed | cHat/src/components/ChatContainer.jsx:234-242 | a relayed edit changes the text and keeps the edit time |
| ChatWindow.ChatView.DeleteOwn | cHat/src/components/ChatContainer.jsx:189-191 | on acceptance the message is tombstoned in place |
| ChatWindow.ChatView.DeleteRelayed | cHat/src/components/ChatContainer.jsx:244-246 | a relayed delete tombstones in place |
| ChatWindow.ChatView.Seen | cHat/src/components/ChatContainer.jsx:263-268 | a seen event from a chat whose handler is registered, the open chat always included, marks own messages read; others change nothing |
| ChatWindow.ChatView.Typing | cHat/src/components/ChatContainer.jsx:248-260 | typing events from a chat whose handler is registered, the open chat always included, set the indicator; others are ignored |
| ChatWindow.ChatView.RequestClear | cHat/src/components/ChatContainer.jsx:135-139 | the request flag is set |
| ChatWindow.ChatView.ClearRequested | cHat/src/components/ChatContainer.jsx:291-295 | a request from the open chat sets the pending flag |
| ChatWindow.ChatView.AcceptClear | cHat/src/components/ChatContainer.jsx:142-165 | once the store deleted, the messages are cleared and the pending flag dropped; a failure changes nothing |
| ChatWindow.ChatView.RejectClear | cHat/src/components/ChatContainer.jsx:167-177 | the pending flag is dropped |
| ChatWindow.ChatView.ClearAccepted | cHat/src/components/ChatContainer.jsx:297-300 | messages cleared and the request flag dropped |
| ChatWindow.ChatView.ClearRejected | cHat/src/components/ChatContainer.jsx:302-304 | the request flag is dropped |
| ChatWindow.ChatView.TouchEnd | cHat/src/components/ChatContainer.jsx:342-353 | a left swipe of more than 50 pixels on a received, live message on mobile sets it as the reply target |
| ChatWindow.StaleHandlersReachOpenChat | cHat/src/components/ChatContainer.jsx:203-270 | after switching from chat a to chat b, a's seen notification marks b's own bubbles read, a's message is appended to b's list and a's typing shows in b's panel |
| ChatWindow.CleanedHandlersIgnoreOldChat | cHat/src/components/ChatContainer.jsx:288-315 | with the handlers of the old chat removed, the same events leave b's panel exactly as loaded |

## Findings

| source | as written | input that shows it | evidently intended | confidence | as-written member | corrected member |
|---|---|---|---|---|---|---|
| cHat/src/components/ChatContainer.jsx:203-270 | the effect that registers the `msg-recieve`, `msg-seen`, `user-typing` and `user-stop-typing` handlers runs on every change of chat and returns no cleanup, so the handlers of earlier chats stay registered and still test against their own chat | open chat a, then chat b in the same panel; a sends a message, reads the conversation and types | only the open chat's partner adds bubbles, marks own bubbles read or moves the typing indicator, as the clear-chat effect at lines 288-315 achieves with its cleanup | high; not executed | ChatWindow.StaleHandlersReachOpenChat | ChatWindow.CleanedHandlersIgnoreOldChat |

The `ChatWindow.ChatView` class keeps the code as written (`Open`); `OpenCleaned` is the corrected switch, under which `listening` holds only the open chat.

## Left out

- `server/models/User.js` is not part of this model. The account record holds the fields the controllers in the model read and write, `op` (the plain-text password register stores) included; the schema's handling of `op` is assumed to keep it.
- Accounts.NewUser: the avatar and about defaults (`""`) are taken from the controllers' use, since the schema defaults are in `server/models/User.js`.
- Express error handlers (`next(ex)`) and the error text that follows "Error creating group: " or "Error scheduling message: " are collapsed into one failure reply each.
- Mongoose schema validation is modelled only where a controller relies on it: group name/description limits, and required scheduled text (whitespace-only text fails at create time).
- `updatedAt` timestamps, `populate`, date parsing and ObjectId format checks are not modelled. Ids are natural numbers from one counter.
- Operations outside the core are not modelled: getUserGroups, getGroup, login, setAvatar, deleteAvatar, updateAbout, logOut, deleteProfile, getUserByUsername, file routes.
- bcrypt hashing, `Math.random`, nodemailer and the clock are parameters (`hashedPassword`, `draw`, `mailFails`, `now`).
- The socket push in `sendScheduledMessage` (scheduledMessageController.js:163-171) reads `io` from the JSON request body, which cannot hold a socket server. A truthy `io` therefore makes the call throw after the store was written; the model gives the error-handler reply in that case (Scheduling.SendReply). No event is emitted.
- Store calls of the HTTP controllers never fail in the model: a rejected `create`, `save` or `find` is modelled only where named (the blank scheduled text and invalid groups, `storeFails` of `msg-seen`, the sweep's `fault`).
- Socket.IO transport is abstracted as an outbox of (target, event) pairs. Delivery, ordering across sockets and reconnects are not modelled.
- node-cron may start a sweep while the previous one still runs; overlapping sweeps are not modelled.
- Common.Lower: lower-cases ASCII letters only. JavaScript `toLowerCase` covers all of Unicode.
- ChatPage.NotificationBody: counts characters, while JavaScript `substring` counts UTF-16 code units.
- ChatWindow.ChatView.SendOwn: appends to the current state, so the stale copy of `messages` the component captures is not modelled.
- ChatWindow.ChatView.EditOwn: applies the edit to the current state. The component maps over a possibly stale `messages`; that race is not modelled.
- ChatWindow.ChatView.Receive: a chat opened twice has its `msg-recieve` handler registered twice; the model appends one bubble per event, as React's batching of the two `setArrivalMessage` calls of one event gives. The `message-seen` emit of the handler is not modelled.
- The handlers of a ChatView that was unmounted (back to the contact list, then a new chat) update a component that no longer exists; only the chats opened within one mounted panel are modelled.
- Axios round trips on the client are flags (`accepted`, `deleted`). The server reply body is not re-read.
- Animations.CheckMessageAnimation: takes a string. Calls with an object payload, which throw in the original, are not modelled.
- React rendering, scrolling, the animation canvas, the ChatInput debounce and the swipe highlight timer are left out.
- `AdminIsMember` is not an invariant of the groups collection: an admin can remove themselves from a one-member group and keep the role (Groups.RemovedLastAdminKeepsRole).
- A group whose admin is listed twice as the only member cannot be left (Groups.DuplicateAdminCannotLeave).
- Cancelling does not look at a scheduled message's status (Scheduling.CancelIgnoresStatus).
- Rescheduling checks only that the time is in the future (Scheduling.RescheduleSkipsWindow).
- An exception in the sweep aborts the remaining due records (Sweep.StoppedTickLeavesRestDue).
- Disconnect removes only the first registry entry for the socket (Server.DisconnectKeepsLaterEntries).
