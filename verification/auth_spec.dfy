/** What each handler of the auth controller does, as a function from the
    store before the request (and the request's inputs) to the store after it
    and the reply sent. The methods in AuthController perform the same steps
    on a UserStore object and are proved equal to these functions. */
module AuthSpec {
  import opened Support
  import opened UserModel

  /** What a reply does to the `token` cookie. */
  datatype Cookie = Unchanged | SetSession(id: UserId) | Cleared

  /** The HTTP status, the `message` of the JSON body, and the cookie effect. */
  datatype Reply = Reply(status: nat, message: string, cookie: Cookie)
  {
    predicate Ok() { status == 200 }
  }

  function Fail(status: nat, message: string): Reply {
    Reply(status, message, Unchanged)
  }

  /** The store after a request and the reply to it. */
  datatype Step = Step(users: map<UserId, User>, reply: Reply)

  /** Lifetime of a verification code: 24 hours in milliseconds (the comment
      beside it in the source says 10 minutes). */
  const VerifyOtpLifetime: int := 24 * 60 * 60 * 1000
  /** Lifetime of a reset code: 15 minutes in milliseconds. */
  const ResetOtpLifetime: int := 15 * 60 * 1000

  const MissingDetails := "missing required details"
  const UserExists := "User already exists"
  const Registered := "Registration Successfull"
  const CredentialsRequired := "email or password is required"
  const UserNotFound := "User not found"
  const InvalidPassword := "Invalid password"
  const LoggedIn := "Login Successfull"
  const LoggedOut := "Logged Out"
  const AlreadyVerified := "User already verified"
  const OtpSent := "OTP sent to your email"
  /** The runtime's message when `user.isVerified` is read from a null user. */
  const NullUserRead := "Cannot read properties of null (reading 'isVerified')"
  const VerifyFieldsRequired := "User ID or OTP is required"
  const InvalidOtp := "Invalid OTP"
  const OtpExpired := "OTP expired"
  const EmailVerified := "Email verified successfully"
  const IsAuthenticatedMessage := "User is authenticated"
  const EmailRequired := "Email is required"
  const ResetFieldsRequired := "Email, OTP and Password are required"
  const PasswordWasReset := "Password reset successfully"

  /** The first code check of verifyEmail and resetPassword: a code is
      outstanding and equals the one given. */
  predicate OtpMatches(stored: string, given: string) {
    stored != "" && stored == given
  }

  /** Both code checks: it matches, and its expiry has not passed (an expiry
      equal to `now` still counts). */
  predicate OtpAccepted(stored: string, expireAt: int, given: string, now: int) {
    OtpMatches(stored, given) && now <= expireAt
  }

  // ---------------------------------------------------------------------
  // register

  predicate RegisterFieldsPresent(name: Option<string>, email: Option<string>, password: Option<string>) {
    Present(name) && Present(email) && Present(password)
  }

  /** Whether `register` gets past both guards and stores a record. */
  predicate RegisterStores(users: map<UserId, User>, name: Option<string>, email: Option<string>, password: Option<string>)
    requires WellFormed(users)
  {
    RegisterFieldsPresent(name, email, password) && UserWithEmail(users, email.value).None?
  }

  /** `register`: a new record holding the name, the email and the digest of
      the password is stored before the welcome mail is sent; a failed send
      still leaves it stored (and the session cookie set) but answers 500. */
  function Register(
    users: map<UserId, User>, name: Option<string>, email: Option<string>, password: Option<string>,
    newId: UserId, salt: nat, h: Hasher, d: Defaults, mailError: Option<string>): (o: Step)
    requires WellFormed(users) && newId !in users
    ensures WellFormed(o.users)
    ensures !RegisterFieldsPresent(name, email, password) ==> o == Step(users, Fail(400, MissingDetails))
    ensures RegisterFieldsPresent(name, email, password) && UserWithEmail(users, email.value).Some? ==>
              o == Step(users, Fail(400, UserExists))
    ensures newId in o.users <==> RegisterStores(users, name, email, password)
    ensures RegisterStores(users, name, email, password) ==>
              && o.users.Keys == users.Keys + {newId}
              && (forall k :: k in users ==> o.users[k] == users[k])
              && o.users[newId] == NewUser(newId, name.value, email.value, h.hash(password.value, salt), d)
              && o.reply.cookie == SetSession(newId)
              && (o.reply.Ok() <==> mailError.None?)
              && (mailError.Some? ==> o.reply.status == 500 && o.reply.message == mailError.value)
  {
    if !RegisterFieldsPresent(name, email, password) then
      Step(users, Fail(400, MissingDetails))
    else if UserWithEmail(users, email.value).Some? then
      Step(users, Fail(400, UserExists))
    else
      var user := NewUser(newId, name.value, email.value, h.hash(password.value, salt), d);
      var users' := users[newId := user];
      if mailError.Some? then
        Step(users', Reply(500, mailError.value, SetSession(newId)))
      else
        Step(users', Reply(200, Registered, SetSession(newId)))
  }

  // ---------------------------------------------------------------------
  // login, logout, isAuthenticated

  /** `login`: succeeds exactly when both fields are given, a record has that
      email and the password matches its digest; whether the email was
      verified plays no part. The store is only read. */
  function Login(users: map<UserId, User>, email: Option<string>, password: Option<string>, h: Hasher): (r: Reply)
    requires WellFormed(users)
    ensures r.Ok() <==>
              && Present(email) && Present(password)
              && exists k :: k in users && users[k].email == email.value && h.compare(password.value, users[k].password)
    ensures r.Ok() ==> r.cookie.SetSession? && r.cookie.id in users && users[r.cookie.id].email == email.value
    ensures !r.Ok() ==> r.status == 400 && r.cookie == Unchanged
    ensures !(Present(email) && Present(password)) ==> r.message == CredentialsRequired
    ensures Present(email) && Present(password) && UserWithEmail(users, email.value).None? ==>
              r.message == UserNotFound
    ensures Present(email) && Present(password) && UserWithEmail(users, email.value).Some?
              && !h.compare(password.value, UserWithEmail(users, email.value).value.password) ==>
              r.message == InvalidPassword
  {
    if !Present(email) || !Present(password) then
      Fail(400, CredentialsRequired)
    else
      match UserWithEmail(users, email.value)
      case None => Fail(400, UserNotFound)
      case Some(user) =>
        if !h.compare(password.value, user.password) then Fail(400, InvalidPassword)
        else Reply(200, LoggedIn, SetSession(user.id))
  }

  /** `logout`: clears the cookie, whatever the request holds. */
  function Logout(): (r: Reply)
    ensures r.Ok() && r.cookie == Cleared
  {
    Reply(200, LoggedOut, Cleared)
  }

  /** `isAuthenticated`: once the session middleware lets a request through,
      the answer is success. */
  function IsAuthenticated(): (r: Reply)
    ensures r.Ok() && r.cookie == Unchanged
  {
    Reply(200, IsAuthenticatedMessage, Unchanged)
  }

  // ---------------------------------------------------------------------
  // Email verification

  /** Whether `sendVerifyOtp` stores a new code: the user exists and is not
      yet verified. */
  predicate VerifyOtpIssued(users: map<UserId, User>, userId: Option<UserId>)
    requires WellFormed(users)
  {
    UserWithId(users, userId).Some? && !users[userId.value].isVerified
  }

  /** `sendVerifyOtp`: for an unverified user, stores the six-digit code and
      an expiry 24 hours from now, then mails it; only those two fields
      change. The record is saved before the mail goes out. An absent user is
      dereferenced anyway, which answers 500. */
  function SendVerifyOtp(
    users: map<UserId, User>, userId: Option<UserId>, code: int, now: int, mailError: Option<string>): (o: Step)
    requires WellFormed(users) && InOtpRange(code)
    ensures WellFormed(o.users) && o.reply.cookie == Unchanged
    ensures UserWithId(users, userId).None? ==> o == Step(users, Fail(500, NullUserRead))
    ensures UserWithId(users, userId).Some? && users[userId.value].isVerified ==>
              o == Step(users, Fail(400, AlreadyVerified))
    ensures !VerifyOtpIssued(users, userId) ==> o.users == users
    ensures VerifyOtpIssued(users, userId) ==>
              && SameExcept(users, o.users, userId.value)
              && o.users[userId.value] == users[userId.value].(
                   verifyOtp := OtpCode(code), verifyOtpExpireAt := now + VerifyOtpLifetime)
              && |o.users[userId.value].verifyOtp| == 6
              && (o.reply.Ok() <==> mailError.None?)
              && (mailError.Some? ==> o.reply == Fail(500, mailError.value))
  {
    match UserWithId(users, userId)
    case None => Step(users, Fail(500, NullUserRead))
    case Some(user) =>
      if user.isVerified then
        Step(users, Fail(400, AlreadyVerified))
      else
        var user' := user.(verifyOtp := OtpCode(code), verifyOtpExpireAt := now + VerifyOtpLifetime);
        var users' := users[user.id := user'];
        if mailError.Some? then Step(users', Fail(500, mailError.value))
        else Step(users', Reply(200, OtpSent, Unchanged))
  }

  /** `verifyEmail`: the guards run in a fixed order (fields, user, code,
      expiry). Success marks the user verified and clears the code and its
      expiry, and changes nothing else. */
  function VerifyEmail(users: map<UserId, User>, userId: Option<UserId>, otp: Option<string>, now: int): (o: Step)
    requires WellFormed(users)
    ensures WellFormed(o.users) && o.reply.cookie == Unchanged
    ensures !o.reply.Ok() ==> o.users == users && o.reply.status == 400
    ensures !(Present(userId) && Present(otp)) ==> o.reply.message == VerifyFieldsRequired
    ensures Present(userId) && Present(otp) && userId.value !in users ==> o.reply.message == UserNotFound
    ensures Present(userId) && Present(otp) && userId.value in users
              && !OtpMatches(users[userId.value].verifyOtp, otp.value) ==>
              o.reply.message == InvalidOtp
    ensures Present(userId) && Present(otp) && userId.value in users
              && OtpMatches(users[userId.value].verifyOtp, otp.value)
              && users[userId.value].verifyOtpExpireAt < now ==>
              o.reply.message == OtpExpired
    ensures o.reply.Ok() <==>
              && Present(userId) && Present(otp) && userId.value in users
              && OtpAccepted(users[userId.value].verifyOtp, users[userId.value].verifyOtpExpireAt, otp.value, now)
    ensures o.reply.Ok() ==>
              && SameExcept(users, o.users, userId.value)
              && o.users[userId.value] == users[userId.value].(
                   isVerified := true, verifyOtp := "", verifyOtpExpireAt := 0)
  {
    if !Present(userId) || !Present(otp) then
      Step(users, Fail(400, VerifyFieldsRequired))
    else
      match UserWithId(users, userId)
      case None => Step(users, Fail(400, UserNotFound))
      case Some(user) =>
        if user.verifyOtp == "" || user.verifyOtp != otp.value then
          Step(users, Fail(400, InvalidOtp))
        else if user.verifyOtpExpireAt < now then
          Step(users, Fail(400, OtpExpired))
        else
          var user' := user.(isVerified := true, verifyOtp := "", verifyOtpExpireAt := 0);
          Step(users[user.id := user'], Reply(200, EmailVerified, Unchanged))
  }

  // ---------------------------------------------------------------------
  // Password reset

  /** Whether `sendResetOtp` stores a new code: an email is given and a
      record has it. */
  predicate ResetOtpIssued(users: map<UserId, User>, email: Option<string>)
    requires WellFormed(users)
  {
    Present(email) && UserWithEmail(users, email.value).Some?
  }

  /** `sendResetOtp`: for a known email, stores the six-digit reset code and
      an expiry 15 minutes from now, then mails it; only those two fields
      change, and they stay stored when the mail fails. */
  function SendResetOtp(
    users: map<UserId, User>, email: Option<string>, code: int, now: int, mailError: Option<string>): (o: Step)
    requires WellFormed(users) && InOtpRange(code)
    ensures WellFormed(o.users) && o.reply.cookie == Unchanged
    ensures !Present(email) ==> o == Step(users, Fail(400, EmailRequired))
    ensures Present(email) && UserWithEmail(users, email.value).None? ==> o == Step(users, Fail(400, UserNotFound))
    ensures !ResetOtpIssued(users, email) ==> o.users == users
    ensures ResetOtpIssued(users, email) ==>
              var id := UserWithEmail(users, email.value).value.id;
              && SameExcept(users, o.users, id)
              && o.users[id] == users[id].(resetOtp := OtpCode(code), resetOtpExpireAt := now + ResetOtpLifetime)
              && (o.reply.Ok() <==> mailError.None?)
              && (mailError.Some? ==> o.reply == Fail(500, mailError.value))
  {
    if !Present(email) then
      Step(users, Fail(400, EmailRequired))
    else
      match UserWithEmail(users, email.value)
      case None => Step(users, Fail(400, UserNotFound))
      case Some(user) =>
        var user' := user.(resetOtp := OtpCode(code), resetOtpExpireAt := now + ResetOtpLifetime);
        var users' := users[user.id := user'];
        if mailError.Some? then Step(users', Fail(500, mailError.value))
        else Step(users', Reply(200, OtpSent, Unchanged))
  }

  /** `resetPassword`: the same code-then-expiry guards as verifyEmail, on the
      reset code. Success replaces the digest with one of the new password and
      clears the reset code and expiry; verification state is untouched. */
  function ResetPassword(
    users: map<UserId, User>, email: Option<string>, otp: Option<string>, password: Option<string>,
    salt: nat, h: Hasher, now: int): (o: Step)
    requires WellFormed(users)
    ensures WellFormed(o.users) && o.reply.cookie == Unchanged
    ensures !o.reply.Ok() ==> o.users == users && o.reply.status == 400
    ensures !(Present(email) && Present(otp) && Present(password)) ==> o.reply.message == ResetFieldsRequired
    ensures Present(email) && Present(otp) && Present(password) && UserWithEmail(users, email.value).None? ==>
              o.reply.message == UserNotFound
    ensures Present(email) && Present(otp) && Present(password) && UserWithEmail(users, email.value).Some?
              && !OtpMatches(UserWithEmail(users, email.value).value.resetOtp, otp.value) ==>
              o.reply.message == InvalidOtp
    ensures Present(email) && Present(otp) && Present(password) && UserWithEmail(users, email.value).Some?
              && OtpMatches(UserWithEmail(users, email.value).value.resetOtp, otp.value)
              && UserWithEmail(users, email.value).value.resetOtpExpireAt < now ==>
              o.reply.message == OtpExpired
    ensures o.reply.Ok() <==>
              && Present(email) && Present(otp) && Present(password)
              && UserWithEmail(users, email.value).Some?
              && var u := UserWithEmail(users, email.value).value;
                 OtpAccepted(u.resetOtp, u.resetOtpExpireAt, otp.value, now)
    ensures o.reply.Ok() ==>
              var id := UserWithEmail(users, email.value).value.id;
              && SameExcept(users, o.users, id)
              && o.users[id] == users[id].(
                   password := h.hash(password.value, salt), resetOtp := "", resetOtpExpireAt := 0)
  {
    if !Present(email) || !Present(otp) || !Present(password) then
      Step(users, Fail(400, ResetFieldsRequired))
    else
      match UserWithEmail(users, email.value)
      case None => Step(users, Fail(400, UserNotFound))
      case Some(user) =>
        if user.resetOtp == "" || user.resetOtp != otp.value then
          Step(users, Fail(400, InvalidOtp))
        else if user.resetOtpExpireAt < now then
          Step(users, Fail(400, OtpExpired))
        else
          var user' := user.(password := h.hash(password.value, salt), resetOtp := "", resetOtpExpireAt := 0);
          Step(users[user.id := user'], Reply(200, PasswordWasReset, Unchanged))
  }
}
