/** Properties that relate several requests: the code round trips, single
    use of a code, what a password reset does to logging in, and how register,
    login and logout start and end a session. */
module AuthProperties {
  import opened Support
  import opened UserModel
  import opened AuthSpec
  import opened UserAuth

  /** After a registration that stores its record (whether or not the welcome
      mail went out), logging in with the same email and password succeeds
      and starts a session for the new id. */
  lemma RegisterThenLogin(
    users: map<UserId, User>, name: Option<string>, email: Option<string>, password: Option<string>,
    newId: UserId, salt: nat, h: Hasher, d: Defaults, mailError: Option<string>)
    requires WellFormed(users) && newId !in users && h.Valid()
    requires RegisterStores(users, name, email, password)
    ensures var o := AuthSpec.Register(users, name, email, password, newId, salt, h, d, mailError);
            Login(o.users, email, password, h) == Reply(200, LoggedIn, SetSession(newId))
  {
  }

  /** A second registration with an email already taken is refused and stores
      nothing, even with a fresh id and another name and password. */
  lemma RegisterTwiceRefused(
    users: map<UserId, User>, name: Option<string>, email: Option<string>, password: Option<string>,
    newId: UserId, salt: nat, h: Hasher, d: Defaults, mailError: Option<string>,
    name2: Option<string>, password2: Option<string>, newId2: UserId, salt2: nat, mailError2: Option<string>)
    requires WellFormed(users) && newId !in users && RegisterStores(users, name, email, password)
    requires newId2 != newId && newId2 !in users
    ensures var o := AuthSpec.Register(users, name, email, password, newId, salt, h, d, mailError);
            var o2 := AuthSpec.Register(o.users, name2, email, password2, newId2, salt2, h, d, mailError2);
            Present(name2) && Present(password2) ==> o2 == Step(o.users, Fail(400, UserExists))
  {
  }

  /** The record a registration stores holds the digest of the password, never
      the password itself. */
  lemma RegisterStoresNoPlaintext(
    users: map<UserId, User>, name: Option<string>, email: Option<string>, password: Option<string>,
    newId: UserId, salt: nat, h: Hasher, d: Defaults, mailError: Option<string>)
    requires WellFormed(users) && newId !in users && h.Valid()
    requires RegisterStores(users, name, email, password)
    ensures var o := AuthSpec.Register(users, name, email, password, newId, salt, h, d, mailError);
            && o.users[newId].password == h.hash(password.value, salt)
            && o.users[newId].password != password.value
  {
  }

  /** Issuing a verification code and then presenting it within 24 hours
      verifies the email and clears the code; this holds even when the mail
      carrying the code failed, since the code was saved first. */
  lemma VerifyOtpRoundTrip(
    users: map<UserId, User>, id: UserId, code: int, now: int, mailError: Option<string>, t: int)
    requires WellFormed(users) && InOtpRange(code) && id != ""
    requires VerifyOtpIssued(users, Some(id))
    requires t <= now + VerifyOtpLifetime
    ensures var o1 := AuthSpec.SendVerifyOtp(users, Some(id), code, now, mailError);
            var o2 := AuthSpec.VerifyEmail(o1.users, Some(id), Some(OtpCode(code)), t);
            && o2.reply == Reply(200, EmailVerified, Unchanged)
            && o2.users[id].isVerified && o2.users[id].verifyOtp == "" && o2.users[id].verifyOtpExpireAt == 0
  {
  }

  /** Any non-empty code other than the one issued is refused as invalid,
      whatever the time, and nothing changes. */
  lemma WrongVerifyOtpRefused(
    users: map<UserId, User>, id: UserId, code: int, otp: string, now: int, mailError: Option<string>, t: int)
    requires WellFormed(users) && InOtpRange(code) && id != ""
    requires otp != "" && otp != OtpCode(code)
    requires VerifyOtpIssued(users, Some(id))
    ensures var o1 := AuthSpec.SendVerifyOtp(users, Some(id), code, now, mailError);
            var o2 := AuthSpec.VerifyEmail(o1.users, Some(id), Some(otp), t);
            o2 == Step(o1.users, Fail(400, InvalidOtp))
  {
  }

  /** The issued code, presented after its 24 hours, is refused as expired. */
  lemma LateVerifyOtpExpired(
    users: map<UserId, User>, id: UserId, code: int, now: int, mailError: Option<string>, t: int)
    requires WellFormed(users) && InOtpRange(code) && id != ""
    requires VerifyOtpIssued(users, Some(id))
    requires t > now + VerifyOtpLifetime
    ensures var o1 := AuthSpec.SendVerifyOtp(users, Some(id), code, now, mailError);
            AuthSpec.VerifyEmail(o1.users, Some(id), Some(OtpCode(code)), t) == Step(o1.users, Fail(400, OtpExpired))
  {
  }

  /** A verification code works once: presenting it again, at any time, is
      refused as invalid, since success cleared it. */
  lemma VerifyEmailSingleUse(users: map<UserId, User>, userId: Option<UserId>, otp: Option<string>, now: int, later: int)
    requires WellFormed(users)
    requires AuthSpec.VerifyEmail(users, userId, otp, now).reply.Ok()
    ensures var o := AuthSpec.VerifyEmail(users, userId, otp, now);
            AuthSpec.VerifyEmail(o.users, userId, otp, later) == Step(o.users, Fail(400, InvalidOtp))
  {
  }

  /** Once verified, a user cannot be sent another verification code, and the
      request changes nothing. */
  lemma VerifiedUserGetsNoCode(
    users: map<UserId, User>, userId: Option<UserId>, otp: Option<string>, now: int,
    code: int, later: int, mailError: Option<string>)
    requires WellFormed(users) && InOtpRange(code)
    requires AuthSpec.VerifyEmail(users, userId, otp, now).reply.Ok()
    ensures var o := AuthSpec.VerifyEmail(users, userId, otp, now);
            AuthSpec.SendVerifyOtp(o.users, userId, code, later, mailError) == Step(o.users, Fail(400, AlreadyVerified))
  {
  }

  /** Issuing a reset code and presenting it within 15 minutes resets the
      password: the new password then logs in, every other password is
      refused, and the verification fields are as they were. */
  lemma ResetRoundTrip(
    users: map<UserId, User>, email: string, code: int, now: int, mailError: Option<string>,
    password: string, salt: nat, h: Hasher, t: int, other: string)
    requires WellFormed(users) && InOtpRange(code) && h.Valid()
    requires ResetOtpIssued(users, Some(email)) && password != "" && other != "" && other != password
    requires t <= now + ResetOtpLifetime
    ensures var o1 := AuthSpec.SendResetOtp(users, Some(email), code, now, mailError);
            var o2 := AuthSpec.ResetPassword(o1.users, Some(email), Some(OtpCode(code)), Some(password), salt, h, t);
            var id := UserWithEmail(users, email).value.id;
            && o2.reply == Reply(200, PasswordWasReset, Unchanged)
            && o2.users[id].resetOtp == "" && o2.users[id].resetOtpExpireAt == 0
            && o2.users[id].isVerified == users[id].isVerified
            && o2.users[id].verifyOtp == users[id].verifyOtp
            && Login(o2.users, Some(email), Some(password), h) == Reply(200, LoggedIn, SetSession(id))
            && Login(o2.users, Some(email), Some(other), h) == Fail(400, InvalidPassword)
  {
  }

  /** A reset code works once. */
  lemma ResetPasswordSingleUse(
    users: map<UserId, User>, email: Option<string>, otp: Option<string>, password: Option<string>,
    salt: nat, h: Hasher, now: int, password2: Option<string>, salt2: nat, later: int)
    requires WellFormed(users)
    requires AuthSpec.ResetPassword(users, email, otp, password, salt, h, now).reply.Ok()
    requires Present(password2)
    ensures var o := AuthSpec.ResetPassword(users, email, otp, password, salt, h, now);
            AuthSpec.ResetPassword(o.users, email, otp, password2, salt2, h, later) == Step(o.users, Fail(400, InvalidOtp))
  {
  }

  /** The session cookie a registration sets lets the next request through
      the middleware as the new user, also when the welcome mail failed. */
  lemma RegisterStartsSession(
    users: map<UserId, User>, name: Option<string>, email: Option<string>, password: Option<string>,
    newId: UserId, salt: nat, h: Hasher, d: Defaults, mailError: Option<string>,
    jar: Option<string>, sign: UserId -> string, verify: string -> Verification)
    requires WellFormed(users) && newId !in users && newId != "" && SessionCodec(sign, verify)
    requires RegisterStores(users, name, email, password)
    ensures var o := AuthSpec.Register(users, name, email, password, newId, salt, h, d, mailError);
            Authenticate(ClientToken(jar, o.reply.cookie, sign), verify) == Proceed(newId)
  {
  }

  /** A successful login lets the next request through as the user whose
      email was given. */
  lemma LoginStartsSession(
    users: map<UserId, User>, email: Option<string>, password: Option<string>, h: Hasher,
    jar: Option<string>, sign: UserId -> string, verify: string -> Verification)
    requires WellFormed(users) && SessionCodec(sign, verify)
    requires Login(users, email, password, h).Ok()
    requires forall k :: k in users ==> k != ""
    ensures var r := Login(users, email, password, h);
            && r.cookie.SetSession?
            && Authenticate(ClientToken(jar, r.cookie, sign), verify) == Proceed(r.cookie.id)
            && users[r.cookie.id].email == email.value
  {
  }

  /** A client that drops the cookie logout clears, and calls a protected
      route without logging in again, is refused with 401, whatever token it
      held before. */
  lemma LogoutEndsSession(jar: Option<string>, sign: UserId -> string, verify: string -> Verification)
    ensures IsAuthRoute(ClientToken(jar, Logout().cookie, sign), verify) == Fail(401, Unauthorized)
  {
  }

  /** Logout revokes nothing on the server: a token signed for a user before
      the logout, presented again while unexpired, still passes the
      middleware. */
  lemma StaleTokenStillAccepted(id: UserId, sign: UserId -> string, verify: string -> Verification)
    requires SessionCodec(sign, verify) && id != ""
    ensures Logout().cookie == Cleared
    ensures Authenticate(Some(sign(id)), verify) == Proceed(id)
    ensures IsAuthRoute(Some(sign(id)), verify).Ok()
  {
  }
}
