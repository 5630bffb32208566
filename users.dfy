/** The account checks of server/controllers/userController.js: unique usernames and
    e-mail addresses at registration and on renaming, the contact list with the time of
    the last message exchanged, and the password reset by one-time code, whose state is
    the pair (resetOTP, resetOTPExpiry) of the account. Password hashing and the random
    draw of the code are parameters. */
module Accounts {
  import opened Common
  import opened Models
  import opened Store

  const UsernameUsed := "Username already used"
  const EmailUsed := "Email already used"
  const UsernameTaken := "Username already taken"
  const NoAccount := "No account with this email exists"
  const OtpSent := "OTP sent to your email"
  const ProcessingError := "Error processing request"
  const UserNotFound := "User not found"
  const NoOtpRequest := "No OTP request found. Please request a new OTP."
  const OtpExpiredVerify := "OTP has expired. Please request a new one."
  const InvalidOtp := "Invalid OTP"
  const OtpVerified := "OTP verified successfully"
  const NoOtpVerification := "No OTP verification found"
  const OtpExpiredReset := "OTP has expired"
  const PasswordReset := "Password reset successfully"
  /** How long a reset code stays valid: 15 minutes. */
  const OtpLifetimeMs: int := 15 * 60 * 1000

  /** No two accounts share a username, and no two share an e-mail address. */
  predicate UniqueAccounts(users: seq<User>) {
    forall i, j :: 0 <= i < j < |users| ==> users[i].username != users[j].username && users[i].email != users[j].email
  }

  /** No two accounts share an id. */
  predicate DistinctIds(users: seq<User>) {
    forall i, j :: 0 <= i < j < |users| ==> users[i].id != users[j].id
  }

  predicate UsernameInUse(users: seq<User>, username: string) {
    exists k :: 0 <= k < |users| && users[k].username == username
  }

  predicate EmailInUse(users: seq<User>, email: string) {
    exists k :: 0 <= k < |users| && users[k].email == email
  }

  // ---------------------------------------------------------------------------
  // register
  // ---------------------------------------------------------------------------

  /** An account as register creates it: the hashed password, the plain-text one kept
      beside it under `op`, no avatar, no about text, no reset pending. */
  function NewUser(id: Id, username: string, email: string, password: string, hashedPassword: string): (u: User)
    ensures u.id == id && u.username == username && u.email == email
    ensures u.password == hashedPassword && u.op == password
    ensures u.avatarImage == "" && u.about == ""
    ensures u.resetOTP.None? && u.resetOTPExpiry.None?
  {
    User(id, username, email, hashedPassword, password, "", "", None, None)
  }

  /** The reply of register when the next id is `id`: a taken username is refused first,
      then a taken address. */
  function RegisterReply(users: seq<User>, username: string, email: string, password: string, hashedPassword: string, id: Id)
    : (r: Response<User>)
    ensures UsernameInUse(users, username) ==> r == Failure(UsernameUsed)
    ensures !UsernameInUse(users, username) && EmailInUse(users, email) ==> r == Failure(EmailUsed)
    ensures r.Success? <==> !UsernameInUse(users, username) && !EmailInUse(users, email)
    ensures r.Success? ==> r.data == NewUser(id, username, email, password, hashedPassword)
  {
    if UsernameInUse(users, username) then Failure(UsernameUsed)
    else if EmailInUse(users, email) then Failure(EmailUsed)
    else Success(NewUser(id, username, email, password, hashedPassword))
  }

  /** `register`, with `hashedPassword` the bcrypt hash of `password`. */
  method Register(db: Database, username: string, email: string, password: string, hashedPassword: string) returns (r: Response<User>)
    requires db.Valid()
    modifies db`users, db`nextId
    ensures db.Valid()
    ensures r == RegisterReply(old(db.users), username, email, password, hashedPassword, old(db.nextId))
    ensures r.Success? ==> db.users == old(db.users) + [r.data] && db.nextId == old(db.nextId) + 1
    ensures r.Failure? ==> db.users == old(db.users) && db.nextId == old(db.nextId)
  {
    if UsernameInUse(db.users, username) {
      return Failure(UsernameUsed);
    }
    if EmailInUse(db.users, email) {
      return Failure(EmailUsed);
    }
    var user := NewUser(db.nextId, username, email, password, hashedPassword);
    KeysBelowAppend(db.users, UserKey, user, db.nextId);
    db.users := db.users + [user];
    db.nextId := db.nextId + 1;
    KeysBelowRaise(db.messages, MessageKey, db.nextId - 1, db.nextId);
    KeysBelowRaise(db.scheduled, ScheduledKey, db.nextId - 1, db.nextId);
    KeysBelowRaise(db.groups, GroupKey, db.nextId - 1, db.nextId);
    KeysBelowRaise(db.groupMessages, GroupMessageKey, db.nextId - 1, db.nextId);
    return Success(user);
  }

  /** Registration keeps usernames and addresses unique. */
  lemma RegisterKeepsUnique(users: seq<User>, username: string, email: string, password: string, hashedPassword: string, id: Id)
    requires UniqueAccounts(users)
    ensures var r := RegisterReply(users, username, email, password, hashedPassword, id);
            r.Success? ==> UniqueAccounts(users + [r.data])
  {
    var r := RegisterReply(users, username, email, password, hashedPassword, id);
    if r.Success? {
      var us := users + [r.data];
      forall i, j | 0 <= i < j < |us| ensures us[i].username != us[j].username && us[i].email != us[j].email {
        if j == |users| {
          assert us[i] == users[i];
        } else {
          assert us[i] == users[i] && us[j] == users[j];
        }
      }
    }
  }

  // ---------------------------------------------------------------------------
  // updateUsername
  // ---------------------------------------------------------------------------

  /** The username is held by an account with another id. */
  predicate HeldByOther(users: seq<User>, username: string, userId: Id) {
    exists k :: 0 <= k < |users| && users[k].username == username && users[k].id != userId
  }

  /** The reply and new accounts of updateUsername: a name held by another account is
      refused; keeping one's own name is allowed; an unknown id ends in the error handler;
      otherwise only that account's username changes. */
  function RenameOutcome(users: seq<User>, userId: Id, username: string): (o: (Response<string>, seq<User>))
    ensures |o.1| == |users|
    ensures HeldByOther(users, username, userId) ==> o == (Failure(UsernameTaken), users)
    ensures o.0.Failure? ==> o.1 == users
    ensures o.0.Success? <==> !HeldByOther(users, username, userId) && Find(users, UserKey, userId).Some?
    ensures o.0.Success? ==> o.0.data == username
                             && var i := Find(users, UserKey, userId).value; o.1 == users[i := users[i].(username := username)]
  {
    if HeldByOther(users, username, userId) then (Failure(UsernameTaken), users)
    else match Find(users, UserKey, userId)
      case None => (Failure(HandlerError), users)
      case Some(i) => (Success(username), users[i := users[i].(username := username)])
  }

  /** `updateUsername`: check the name, then update the account by id. */
  method UpdateUsername(db: Database, userId: Id, username: string) returns (r: Response<string>)
    requires db.Valid()
    modifies db`users
    ensures db.Valid()
    ensures (r, db.users) == RenameOutcome(old(db.users), userId, username)
  {
    if HeldByOther(db.users, username, userId) {
      return Failure(UsernameTaken);
    }
    var found := Find(db.users, UserKey, userId);
    if found.None? {
      return Failure(HandlerError);
    }
    var i := found.value;
    var user := db.users[i].(username := username);
    KeysBelowUpdate(db.users, UserKey, i, user, db.nextId);
    db.users := db.users[i := user];
    return Success(user.username);
  }

  /** Renaming keeps usernames and addresses unique when ids are. */
  lemma RenameKeepsUnique(users: seq<User>, userId: Id, username: string)
    requires UniqueAccounts(users) && DistinctIds(users)
    ensures UniqueAccounts(RenameOutcome(users, userId, username).1)
  {
    var o := RenameOutcome(users, userId, username);
    if o.0.Success? {
      var i := Find(users, UserKey, userId).value;
      var us := o.1;
      forall a, b | 0 <= a < b < |us| ensures us[a].username != us[b].username && us[a].email != us[b].email {
        if a == i {
          assert users[b].id != userId;
        } else if b == i {
          assert users[a].id != userId;
        }
      }
    }
  }

  // ---------------------------------------------------------------------------
  // getAllUsers
  // ---------------------------------------------------------------------------

  /** An entry of the contact list. */
  datatype Contact = Contact(id: Id, username: string, email: string, avatarImage: string, about: string,
                             lastMessageTime: Option<Time>)

  /** The creation time of the newest message between a and b, if there is one. */
  function Newest(ms: seq<Message>, a: Id, b: Id): (r: Option<Time>)
    ensures r.None? <==> forall m :: m in ms ==> !Between(m, a, b)
    ensures r.Some? ==> (exists m :: m in ms && Between(m, a, b) && m.createdAt == r.value)
                        && forall m :: m in ms && Between(m, a, b) ==> m.createdAt <= r.value
  {
    if ms == [] then None
    else
      var last := ms[|ms| - 1];
      var rest := Newest(ms[..|ms| - 1], a, b);
      assert ms == ms[..|ms| - 1] + [last];
      if !Between(last, a, b) then rest
      else if rest.Some? && rest.value >= last.createdAt then rest
      else Some(last.createdAt)
  }

  /** The accounts other than `id`, in store order. */
  function Others(users: seq<User>, id: Id): (r: seq<User>)
    ensures forall u :: u in r <==> u in users && u.id != id
  {
    if users == [] then []
    else
      var last := users[|users| - 1];
      var rest := Others(users[..|users| - 1], id);
      assert users == users[..|users| - 1] + [last];
      if last.id == id then rest else rest + [last]
  }

  function ContactOf(u: User, ms: seq<Message>, viewer: Id): Contact {
    Contact(u.id, u.username, u.email, u.avatarImage, u.about, Newest(ms, viewer, u.id))
  }

  /** getAllUsers: every other account, in store order, with the time of the newest
      message exchanged with `id`. */
  function GetAllUsers(users: seq<User>, ms: seq<Message>, id: Id): (r: seq<Contact>)
    ensures |r| == |Others(users, id)|
  {
    var others := Others(users, id);
    seq(|others|, k requires 0 <= k < |others| => ContactOf(others[k], ms, id))
  }

  /** The list holds exactly the other accounts: never the requester, each other account
      with its own fields, and the time of the newest message of the pair or none. */
  lemma GetAllUsersSpec(users: seq<User>, ms: seq<Message>, id: Id, u: User)
    ensures var r := GetAllUsers(users, ms, id);
            && (forall k :: 0 <= k < |r| ==> r[k].id != id)
            && (u in users && u.id != id ==> ContactOf(u, ms, id) in r)
            && (forall k :: 0 <= k < |r| ==> exists v :: v in users && r[k] == ContactOf(v, ms, id))
  {
    var others := Others(users, id);
    var r := GetAllUsers(users, ms, id);
    forall k | 0 <= k < |r| ensures r[k].id != id && exists v :: v in users && r[k] == ContactOf(v, ms, id) {
      assert others[k] in others;
    }
    if u in users && u.id != id {
      var k :| 0 <= k < |others| && others[k] == u;
      assert r[k] == ContactOf(u, ms, id);
    }
  }

  // ---------------------------------------------------------------------------
  // forgotPassword, verifyOTP, resetPassword
  // ---------------------------------------------------------------------------

  /** The position of the first account with this address (`findOne({ email })`). */
  function FindEmail(users: seq<User>, email: string): (r: Option<nat>)
    ensures r.Some? ==> r.value < |users| && users[r.value].email == email
    ensures r.Some? ==> forall k :: 0 <= k < r.value ==> users[k].email != email
    ensures r.None? <==> !EmailInUse(users, email)
  {
    if users == [] then None
    else if users[0].email == email then Some(0)
    else match FindEmail(users[1..], email)
      case None => None
      case Some(i) => Some(i + 1)
  }

  /** The code for a draw of the random generator below 900000: six decimal digits, the
      first not zero, read back as 100000 plus the draw. */
  function Otp(draw: nat): (r: string)
    requires draw < 900000
    ensures |r| == 6 && (forall k :: 0 <= k < 6 ==> IsDigit(r[k])) && r[0] != '0'
    ensures DigitsValue(r) == 100000 + draw
  {
    assert Pow10(5) == 100000 && Pow10(6) == 1000000;
    NatToStringLength(100000 + draw, 5);
    NatToStringRoundTrip(100000 + draw);
    NatToString(100000 + draw)
  }

  /** Different draws give different codes. */
  lemma OtpInjective(a: nat, b: nat)
    requires a < 900000 && b < 900000 && a != b
    ensures Otp(a) != Otp(b)
  {
  }

  /** The account with a fresh code that expires 15 minutes after now. */
  function WithOtp(u: User, draw: nat, now: Time): (r: User)
    requires draw < 900000
    ensures r.resetOTP == Some(Otp(draw)) && r.resetOTPExpiry == Some(now + OtpLifetimeMs)
    ensures r.(resetOTP := u.resetOTP, resetOTPExpiry := u.resetOTPExpiry) == u
  {
    u.(resetOTP := Some(Otp(draw)), resetOTPExpiry := Some(now + OtpLifetimeMs))
  }

  /** The reply and new accounts of forgotPassword: an unknown address is refused;
      otherwise the code is stored before the e-mail goes out, so a failing e-mail
      reports an error but leaves the code in place. */
  function ForgotOutcome(users: seq<User>, email: string, draw: nat, now: Time, mailFails: bool)
    : (o: (Response<string>, seq<User>))
    requires draw < 900000
    ensures |o.1| == |users|
    ensures !EmailInUse(users, email) <==> o == (Failure(NoAccount), users)
    ensures o.0.Success? <==> EmailInUse(users, email) && !mailFails
    ensures EmailInUse(users, email) ==>
              var i := FindEmail(users, email).value; o.1 == users[i := WithOtp(users[i], draw, now)]
  {
    match FindEmail(users, email)
    case None => (Failure(NoAccount), users)
    case Some(i) =>
      var users' := users[i := WithOtp(users[i], draw, now)];
      if mailFails then (Failure(ProcessingError), users') else (Success(OtpSent), users')
  }

  /** `forgotPassword`: store a fresh code and its expiry, then send the e-mail. */
  method ForgotPassword(db: Database, email: string, draw: nat, now: Time, mailFails: bool) returns (r: Response<string>)
    requires draw < 900000
    requires db.Valid()
    modifies db`users
    ensures db.Valid()
    ensures (r, db.users) == ForgotOutcome(old(db.users), email, draw, now, mailFails)
  {
    var found := FindEmail(db.users, email);
    if found.None? {
      return Failure(NoAccount);
    }
    var i := found.value;
    var user := db.users[i];
    user := user.(resetOTP := Some(Otp(draw)));
    user := user.(resetOTPExpiry := Some(now + OtpLifetimeMs));
    KeysBelowUpdate(db.users, UserKey, i, user, db.nextId);
    db.users := db.users[i := user];
    if mailFails {
      return Failure(ProcessingError);
    }
    return Success(OtpSent);
  }

  /** How a submitted code stands against an account: no reset pending (no code, an empty
      code or no expiry), expired, wrong, or accepted. */
  datatype OtpVerdict = NoRequest | Expired | Mismatch | Accepted

  function CheckOtp(u: User, otp: string, now: Time): (v: OtpVerdict)
    ensures v == Accepted <==> u.resetOTP == Some(otp) && otp != "" && u.resetOTPExpiry.Some? && now <= u.resetOTPExpiry.value
    ensures v == NoRequest <==> u.resetOTP.None? || u.resetOTP == Some("") || u.resetOTPExpiry.None?
    ensures v == Expired <==> v != NoRequest && now > u.resetOTPExpiry.value
  {
    if u.resetOTP.None? || u.resetOTP.value == "" || u.resetOTPExpiry.None? then NoRequest
    else if now > u.resetOTPExpiry.value then Expired
    else if u.resetOTP.value != otp then Mismatch
    else Accepted
  }

  /** The account with no reset pending. */
  function Cleared(u: User): (r: User)
    ensures r.resetOTP.None? && r.resetOTPExpiry.None?
    ensures r.(resetOTP := u.resetOTP, resetOTPExpiry := u.resetOTPExpiry) == u
  {
    u.(resetOTP := None, resetOTPExpiry := None)
  }

  /** The reply and new accounts of verifyOTP: an expired code is cleared; every other
      outcome, success included, leaves the accounts as they are. */
  function VerifyOutcome(users: seq<User>, email: string, otp: string, now: Time): (o: (Response<string>, seq<User>))
    ensures |o.1| == |users|
    ensures !EmailInUse(users, email) ==> o == (Failure(UserNotFound), users)
    ensures EmailInUse(users, email) ==>
              var i := FindEmail(users, email).value;
              match CheckOtp(users[i], otp, now)
              case NoRequest => o == (Failure(NoOtpRequest), users)
              case Expired => o == (Failure(OtpExpiredVerify), users[i := Cleared(users[i])])
              case Mismatch => o == (Failure(InvalidOtp), users)
              case Accepted => o == (Success(OtpVerified), users)
  {
    match FindEmail(users, email)
    case None => (Failure(UserNotFound), users)
    case Some(i) =>
      match CheckOtp(users[i], otp, now)
      case NoRequest => (Failure(NoOtpRequest), users)
      case Expired => (Failure(OtpExpiredVerify), users[i := Cleared(users[i])])
      case Mismatch => (Failure(InvalidOtp), users)
      case Accepted => (Success(OtpVerified), users)
  }

  /** The account after a successful reset: the new password, no reset pending. */
  function WithPassword(u: User, hashedPassword: string): (r: User)
    ensures r.password == hashedPassword && r.resetOTP.None? && r.resetOTPExpiry.None?
    ensures r.(password := u.password, resetOTP := u.resetOTP, resetOTPExpiry := u.resetOTPExpiry) == u
  {
    u.(password := hashedPassword, resetOTP := None, resetOTPExpiry := None)
  }

  /** The reply and new accounts of resetPassword: the checks of verifyOTP again; on
      success the password is replaced and the code is spent. */
  function ResetOutcome(users: seq<User>, email: string, otp: string, hashedPassword: string, now: Time)
    : (o: (Response<string>, seq<User>))
    ensures |o.1| == |users|
    ensures !EmailInUse(users, email) ==> o == (Failure(UserNotFound), users)
    ensures EmailInUse(users, email) ==>
              var i := FindEmail(users, email).value;
              match CheckOtp(users[i], otp, now)
              case NoRequest => o == (Failure(NoOtpVerification), users)
              case Expired => o == (Failure(OtpExpiredReset), users[i := Cleared(users[i])])
              case Mismatch => o == (Failure(InvalidOtp), users)
              case Accepted => o == (Success(PasswordReset), users[i := WithPassword(users[i], hashedPassword)])
  {
    match FindEmail(users, email)
    case None => (Failure(UserNotFound), users)
    case Some(i) =>
      match CheckOtp(users[i], otp, now)
      case NoRequest => (Failure(NoOtpVerification), users)
      case Expired => (Failure(OtpExpiredReset), users[i := Cleared(users[i])])
      case Mismatch => (Failure(InvalidOtp), users)
      case Accepted => (Success(PasswordReset), users[i := WithPassword(users[i], hashedPassword)])
  }

  /** `verifyOTP`: load the account and test the code, clearing an expired one. */
  method VerifyOtp(db: Database, email: string, otp: string, now: Time) returns (r: Response<string>)
    requires db.Valid()
    modifies db`users
    ensures db.Valid()
    ensures (r, db.users) == VerifyOutcome(old(db.users), email, otp, now)
  {
    var found := FindEmail(db.users, email);
    if found.None? {
      return Failure(UserNotFound);
    }
    var i := found.value;
    var user := db.users[i];
    if user.resetOTP.None? || user.resetOTP.value == "" || user.resetOTPExpiry.None? {
      return Failure(NoOtpRequest);
    }
    if now > user.resetOTPExpiry.value {
      user := user.(resetOTP := None);
      user := user.(resetOTPExpiry := None);
      KeysBelowUpdate(db.users, UserKey, i, user, db.nextId);
      db.users := db.users[i := user];
      return Failure(OtpExpiredVerify);
    }
    if user.resetOTP.value != otp {
      return Failure(InvalidOtp);
    }
    return Success(OtpVerified);
  }

  /** `resetPassword`: load the account, test the code again, then store the new
      password and spend the code. */
  method ResetPassword(db: Database, email: string, otp: string, hashedPassword: string, now: Time)
    returns (r: Response<string>)
    requires db.Valid()
    modifies db`users
    ensures db.Valid()
    ensures (r, db.users) == ResetOutcome(old(db.users), email, otp, hashedPassword, now)
  {
    var found := FindEmail(db.users, email);
    if found.None? {
      return Failure(UserNotFound);
    }
    var i := found.value;
    var user := db.users[i];
    if user.resetOTP.None? || user.resetOTP.value == "" || user.resetOTPExpiry.None? {
      return Failure(NoOtpVerification);
    }
    if now > user.resetOTPExpiry.value {
      user := user.(resetOTP := None);
      user := user.(resetOTPExpiry := None);
      KeysBelowUpdate(db.users, UserKey, i, user, db.nextId);
      db.users := db.users[i := user];
      return Failure(OtpExpiredReset);
    }
    if user.resetOTP.value != otp {
      return Failure(InvalidOtp);
    }
    user := user.(password := hashedPassword);
    user := user.(resetOTP := None);
    user := user.(resetOTPExpiry := None);
    KeysBelowUpdate(db.users, UserKey, i, user, db.nextId);
    db.users := db.users[i := user];
    return Success(PasswordReset);
  }

  /** The code just sent is accepted by verifyOTP and then by resetPassword up to its
      expiry; after that it is cleared on first use. */
  lemma FreshCodeWorks(users: seq<User>, email: string, draw: nat, t: Time, mailFails: bool,
                         now: Time, hashedPassword: string)
    requires draw < 900000 && EmailInUse(users, email)
    ensures var users1 := ForgotOutcome(users, email, draw, t, mailFails).1;
            && (now <= t + OtpLifetimeMs ==>
                  && VerifyOutcome(users1, email, Otp(draw), now) == (Success(OtpVerified), users1)
                  && ResetOutcome(users1, email, Otp(draw), hashedPassword, now).0 == Success(PasswordReset))
            && (now > t + OtpLifetimeMs ==> VerifyOutcome(users1, email, Otp(draw), now).0 == Failure(OtpExpiredVerify))
  {
    var i := FindEmail(users, email).value;
    var users1 := ForgotOutcome(users, email, draw, t, mailFails).1;
    FindEmailAfterUpdate(users, email, i, WithOtp(users[i], draw, t));
  }

  /** Updating an account without changing its address leaves the lookup by address
      where it was. */
  lemma {:induction false} FindEmailAfterUpdate(users: seq<User>, email: string, i: nat, u: User)
    requires FindEmail(users, email) == Some(i) && u.email == users[i].email
    ensures FindEmail(users[i := u], email) == Some(i)
  {
    if i > 0 {
      assert users[i := u][1..] == users[1..][i - 1 := u];
      FindEmailAfterUpdate(users[1..], email, i - 1, u);
    }
  }

  /** A code that reset a password cannot be used again: both the check and the reset
      report that no reset is pending. */
  lemma CodeSpentAfterReset(users: seq<User>, email: string, otp: string, hashedPassword: string, now: Time,
                            later: Time, other: string)
    requires ResetOutcome(users, email, otp, hashedPassword, now).0.Success?
    ensures var users1 := ResetOutcome(users, email, otp, hashedPassword, now).1;
            && VerifyOutcome(users1, email, otp, later) == (Failure(NoOtpRequest), users1)
            && ResetOutcome(users1, email, otp, other, later) == (Failure(NoOtpVerification), users1)
  {
    var i := FindEmail(users, email).value;
    FindEmailAfterUpdate(users, email, i, WithPassword(users[i], hashedPassword));
  }

  /** A reset replaces only the hash: the plain-text copy register stored stays, so it
      no longer matches the password the account now accepts. */
  lemma {:induction false} ResetKeepsPlainPassword(users: seq<User>, email: string, otp: string, hashedPassword: string,
                                                   now: Time, k: nat)
    requires ResetOutcome(users, email, otp, hashedPassword, now).0.Success?
    requires k < |users|
    ensures var users1 := ResetOutcome(users, email, otp, hashedPassword, now).1;
            users1[k].op == users[k].op
            && (users1[k].password != users[k].password ==> k == FindEmail(users, email).value)
  {
    var i := FindEmail(users, email).value;
    var u := WithPassword(users[i], hashedPassword);
    assert u.op == users[i].op;
  }

  /** An expired code is cleared on first use, after which every check reports that no
      reset is pending. */
  lemma ExpiredCodeCleared(users: seq<User>, email: string, otp: string, now: Time, later: Time, otp2: string)
    requires VerifyOutcome(users, email, otp, now).0 == Failure(OtpExpiredVerify)
    ensures var users1 := VerifyOutcome(users, email, otp, now).1;
            VerifyOutcome(users1, email, otp2, later) == (Failure(NoOtpRequest), users1)
  {
    var i := FindEmail(users, email).value;
    FindEmailAfterUpdate(users, email, i, Cleared(users[i]));
  }
}
