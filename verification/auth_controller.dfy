/** The auth controller's handlers as they run: guard checks, a lookup in the
    store, field-by-field updates of the loaded record, a save, then the
    mail. Each handler that writes is proved to leave the store and to reply
    exactly as its AuthSpec function says. */
module AuthController {
  import opened Support
  import opened UserModel
  import opened AuthSpec

  /** `register` (POST /api/auth/register). `newId` is the id the store gives
      the new document, `salt` bcrypt's random salt, `mailError` the outcome of
      sending the welcome mail. */
  method Register(
    db: UserStore, name: Option<string>, email: Option<string>, password: Option<string>,
    newId: UserId, salt: nat, h: Hasher, d: Defaults, mailError: Option<string>) returns (r: Reply)
    requires db.Valid() && newId !in db.users
    modifies db
    ensures db.Valid()
    ensures Step(db.users, r) == AuthSpec.Register(old(db.users), name, email, password, newId, salt, h, d, mailError)
  {
    if !Present(name) || !Present(email) || !Present(password) {
      return Fail(400, MissingDetails);
    }
    var existing := db.FindOne(email.value);
    if existing.Some? {
      return Fail(400, UserExists);
    }
    var hashed := h.hash(password.value, salt);
    var user := NewUser(newId, name.value, email.value, hashed, d);
    db.Save(user);
    var cookie := SetSession(user.id);
    if mailError.Some? {
      return Reply(500, mailError.value, cookie);
    }
    r := Reply(200, Registered, cookie);
  }

  /** `sendVerifyOtp` (POST /api/auth/send-verify-otp); `userId` is what the
      session middleware put on the request. */
  method SendVerifyOtp(db: UserStore, userId: Option<UserId>, code: int, now: int, mailError: Option<string>)
    returns (r: Reply)
    requires db.Valid() && InOtpRange(code)
    modifies db
    ensures db.Valid()
    ensures Step(db.users, r) == AuthSpec.SendVerifyOtp(old(db.users), userId, code, now, mailError)
  {
    var found := db.FindById(userId);
    if found.None? {
      return Fail(500, NullUserRead);
    }
    var user := found.value;
    if user.isVerified {
      return Fail(400, AlreadyVerified);
    }
    var otp := OtpCode(code);
    user := user.(verifyOtp := otp);
    user := user.(verifyOtpExpireAt := now + VerifyOtpLifetime);
    db.Save(user);
    if mailError.Some? {
      return Fail(500, mailError.value);
    }
    r := Reply(200, OtpSent, Unchanged);
  }

  /** `verifyEmail` (POST /api/auth/verify-email). */
  method VerifyEmail(db: UserStore, userId: Option<UserId>, otp: Option<string>, now: int) returns (r: Reply)
    requires db.Valid()
    modifies db
    ensures db.Valid()
    ensures Step(db.users, r) == AuthSpec.VerifyEmail(old(db.users), userId, otp, now)
  {
    if !Present(userId) || !Present(otp) {
      return Fail(400, VerifyFieldsRequired);
    }
    var found := db.FindById(userId);
    if found.None? {
      return Fail(400, UserNotFound);
    }
    var user := found.value;
    if user.verifyOtp == "" || user.verifyOtp != otp.value {
      return Fail(400, InvalidOtp);
    }
    if user.verifyOtpExpireAt < now {
      return Fail(400, OtpExpired);
    }
    user := user.(isVerified := true);
    user := user.(verifyOtp := "");
    user := user.(verifyOtpExpireAt := 0);
    db.Save(user);
    r := Reply(200, EmailVerified, Unchanged);
  }

  /** `sendResetOtp` (POST /api/auth/send-reset-otp). */
  method SendResetOtp(db: UserStore, email: Option<string>, code: int, now: int, mailError: Option<string>)
    returns (r: Reply)
    requires db.Valid() && InOtpRange(code)
    modifies db
    ensures db.Valid()
    ensures Step(db.users, r) == AuthSpec.SendResetOtp(old(db.users), email, code, now, mailError)
  {
    if !Present(email) {
      return Fail(400, EmailRequired);
    }
    var found := db.FindOne(email.value);
    if found.None? {
      return Fail(400, UserNotFound);
    }
    var user := found.value;
    var otp := OtpCode(code);
    user := user.(resetOtp := otp);
    user := user.(resetOtpExpireAt := now + ResetOtpLifetime);
    db.Save(user);
    if mailError.Some? {
      return Fail(500, mailError.value);
    }
    r := Reply(200, OtpSent, Unchanged);
  }

  /** `resetPassword` (POST /api/auth/reset-password). */
  method ResetPassword(
    db: UserStore, email: Option<string>, otp: Option<string>, password: Option<string>,
    salt: nat, h: Hasher, now: int) returns (r: Reply)
    requires db.Valid()
    modifies db
    ensures db.Valid()
    ensures Step(db.users, r) == AuthSpec.ResetPassword(old(db.users), email, otp, password, salt, h, now)
  {
    if !Present(email) || !Present(otp) || !Present(password) {
      return Fail(400, ResetFieldsRequired);
    }
    var found := db.FindOne(email.value);
    if found.None? {
      return Fail(400, UserNotFound);
    }
    var user := found.value;
    if user.resetOtp == "" || user.resetOtp != otp.value {
      return Fail(400, InvalidOtp);
    }
    if user.resetOtpExpireAt < now {
      return Fail(400, OtpExpired);
    }
    var hashed := h.hash(password.value, salt);
    user := user.(password := hashed);
    user := user.(resetOtp := "");
    user := user.(resetOtpExpireAt := 0);
    db.Save(user);
    r := Reply(200, PasswordWasReset, Unchanged);
  }
}
