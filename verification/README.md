# Authentication backend: a verified model of its request handlers

This project models the part of the authentication backend that carries its
own logic:

- the **auth controller**: `register`, `login`, `logout`, `sendVerifyOtp`,
  `verifyEmail`, `isAuthenticated`, `sendResetOtp` and `resetPassword`;
- the **session middleware** `userAuth`, which sits in front of the
  protected routes;
- the **user controller** `getUserData`.

The model works over one credential store of user records. Each record has
an id, a name, an email, a password digest, a verified flag, and two one-time
codes (verification and password reset), each with its expiry time.

Layout, one module per file:

- `support.dfy` (`Support`): request fields and JavaScript truthiness
  (`Present`), and the decimal rendering of the one-time code (`OtpCode`:
  what `String(n)` gives for a number in 100000..999999).
- `support.dfy` also holds the password hasher as two abstract functions
  (`Hasher`).
- `user_model.dfy` (`UserModel`): the `User` record and the store class
  `UserStore`. Its lookups are `findOne({email})` and `findById(id)`, and its
  write is `save()`. The store's invariant (`WellFormed`) says each record
  sits under its own id and no two records share an email.
- `auth_spec.dfy` (`AuthSpec`): every auth handler as a function. It maps the
  store before the request to the store after it and the reply (status,
  message, cookie effect). The contracts state the guard order, which fields
  change and which do not, and the error cases.
- `auth_controller.dfy` (`AuthController`): the handlers that write to the
  store, as imperative methods on a `UserStore`. They check the guards, load
  the record, assign its fields one at a time and save it. Each is proved to
  produce exactly what its `AuthSpec` function says.
- `user_auth.dfy` (`UserAuth`): the middleware. `Authenticate` is its
  decision. `Middleware` performs it on a request object: it writes `userId`
  and counts calls to `next`.
- `user_controller.dfy` (`UserController`): the profile lookup and its
  projection to `{name, isVerified}`.
- `auth_properties.dfy` (`AuthProperties`): properties that span several
  requests. These cover the code round trips, single use of a code, a reset
  followed by login, and sessions started by register and login and ended by
  logout.

Environment inputs are parameters:

- the current time `now`, in milliseconds;
- the random code number, required to lie in 100000..999999;
- the id the store gives a new document;
- bcrypt's random salt;
- the outcome of sending a mail: `None` when sent, `Some(message)` when the
  send threw;
- the token verifier, a function from token to `Threw(message)` or
  `Decoded(id?)`;
- the token signer, used only in lemmas.

The hasher is a pair `hash(password, salt)` / `compare(password, digest)`.
The lemmas that need it assume `Hasher.Valid()`: a digest is accepted for the
password it came from and for no other, and it never equals that password.
This is an idealisation of bcrypt; "## Left out" says where it does not hold.

Behaviour kept as the code has it, including where the code contradicts its
own comments or is inconsistent across handlers:

- A verification code lives 24 hours (`VerifyOtpLifetime` = 86400000 ms),
  although the comment beside it says 10 minutes. A reset code lives 15
  minutes (900000 ms).
- An expiry equal to the current time is still accepted. A stored code that
  is empty or differs from the given one is reported as "Invalid OTP" before
  expiry is looked at.
- The middleware answers 500 with the verifier's message when verification
  throws, not 401. Only a missing token or a payload without an id gives 401.
- `register` saves the record and sets the session cookie before sending the
  welcome mail. A failed send answers 500 but leaves the record stored and the
  cookie set.
- `sendVerifyOtp` does not check that the user exists. For an unknown id it
  reads a field of `null`, and the catch block answers 500 with the runtime's
  message (`NullUserRead`).
- The profile endpoint answers 404 for an unknown user, where the auth
  handlers answer 400.

## Model

| member | source | states |
|---|---|---|
| `Support.OtpCode` | server/controllers/authController.js:115 | the code string of a number in 100000..999999 has exactly six decimal digits, no leading zero (so it is never empty), and reads back as that number |
| `Support.DecimalString` | server/controllers/authController.js:115 | the shortest decimal numeral of a natural number: at least one character, all decimal digits, no leading zero unless it is the single digit; this is what `String(n)` gives on the code range 100000..999999 |
| `Support.DecimalRoundTrip` | server/controllers/authController.js:115 | reading back the decimal rendering of n gives n (proof by induction on n) |
| `Support.DecimalLength` | server/controllers/authController.js:115 | a number between 10^k and 10^(k+1) - 1 renders as exactly k + 1 digits |
| `UserModel.UserWithEmail` | server/controllers/authController.js:15 | `findOne({email})` finds a stored record with that email exactly when one exists, and it is the record stored under its id |
| `UserModel.UserWithId` | server/controllers/authController.js:109 | `findById` finds the record stored under the id, and nothing for a missing or unknown id |
| `UserModel.SavePreservesWellFormed` | server/controllers/authController.js:26 | writing a record under its own id, when no other record holds its email, keeps ids and emails unique |
| `UserModel.UserStore.FindOne` | server/controllers/authController.js:190 | the method returns the record `UserWithEmail` describes, without changing the store |
| `UserModel.UserStore.FindById` | server/controllers/authController.js:148 | the method returns the record `UserWithId` describes, without changing the store |
| `UserModel.UserStore.Save` | server/controllers/authController.js:120 | the store afterwards is the old store with the record written under its id, and it stays well formed |
| `AuthSpec.Register` | server/controllers/authController.js:7-53 | a missing field gives 400 "missing required details" and a taken email gives 400 "User already exists", both with the store unchanged; otherwise exactly one record is added under the new id, holding name, email and `hash(password, salt)`, with every other record unchanged; the session cookie is set; the reply is 200 iff the mail was sent, else 500 with the mail error and the record still stored |
| `AuthController.Register` | server/controllers/authController.js:7-53 | the handler's guard checks, lookup, save and mail leave the store and reply exactly as `AuthSpec.Register` says, and keep the store well formed |
| `AuthSpec.Login` | server/controllers/authController.js:55-89 | 200 iff both fields are given and a record with that email has a digest the password matches (verification plays no part); on success the cookie names that record's id; every failure is 400 with the cookie untouched, "email or password is required" for a missing field, "User not found" for an unknown email and "Invalid password" for a known email whose digest the password does not match |
| `AuthSpec.Logout` | server/controllers/authController.js:91-103 | always 200, and the cookie is cleared |
| `AuthSpec.IsAuthenticated` | server/controllers/authController.js:173-179 | always 200, cookie untouched |
| `AuthSpec.SendVerifyOtp` | server/controllers/authController.js:106-136 | an unknown user gives 500 (null dereference) and a verified user gives 400 "User already verified", both with the store unchanged; otherwise only that record's `verifyOtp` (the six-digit code) and `verifyOtpExpireAt` (now + 24 h) change; they stay stored when the mail fails, which answers 500 |
| `AuthController.SendVerifyOtp` | server/controllers/authController.js:106-136 | the handler's field-by-field update and save match `AuthSpec.SendVerifyOtp` exactly and keep the store well formed |
| `AuthSpec.VerifyEmail` | server/controllers/authController.js:139-170 | guards in order: missing field, unknown user, empty or different stored code ("Invalid OTP"), then expiry before now ("OTP expired"); success iff all pass, an expiry equal to now passing; on success only that record changes, to verified with code '' and expiry 0; every failure is 400 with the store unchanged |
| `AuthController.VerifyEmail` | server/controllers/authController.js:139-170 | the handler matches `AuthSpec.VerifyEmail` exactly and keeps the store well formed |
| `AuthSpec.SendResetOtp` | server/controllers/authController.js:182-217 | a missing email gives 400 "Email is required" and an unknown one 400 "User not found", with the store unchanged; otherwise only that record's `resetOtp` (the six-digit code) and `resetOtpExpireAt` (now + 15 min) change, and stay stored when the mail fails (500) |
| `AuthController.SendResetOtp` | server/controllers/authController.js:182-217 | the handler matches `AuthSpec.SendResetOtp` exactly and keeps the store well formed |
| `AuthSpec.ResetPassword` | server/controllers/authController.js:220-252 | the same guard order as verifyEmail on the reset code; success iff all pass; on success only that record changes: digest of the new password, reset code '' and expiry 0, with the verified flag and the verification code untouched; every failure is 400 with the store unchanged |
| `AuthController.ResetPassword` | server/controllers/authController.js:220-252 | the handler matches `AuthSpec.ResetPassword` exactly and keeps the store well formed |
| `AuthProperties.RegisterThenLogin` | server/controllers/authController.js:19-26 | after a registration that stored its record, even with a failed mail, logging in with the same email and password succeeds with a session for the new id |
| `AuthProperties.RegisterStoresNoPlaintext` | server/controllers/authController.js:19-25 | under the idealised hasher, the record a registration stores holds `hash(password, salt)`, which differs from the password itself |
| `AuthProperties.RegisterTwiceRefused` | server/controllers/authController.js:15-18 | a second registration with the same email is refused with "User already exists" and stores nothing |
| `AuthProperties.VerifyOtpRoundTrip` | server/controllers/authController.js:115-120 | issuing a code and presenting it within 24 hours verifies the user and clears the code and its expiry, even when the mail failed |
| `AuthProperties.WrongVerifyOtpRefused` | server/controllers/authController.js:153-155 | presenting any non-empty string other than the issued code is refused as "Invalid OTP" and changes nothing |
| `AuthProperties.LateVerifyOtpExpired` | server/controllers/authController.js:157-159 | presenting the issued code later than 24 hours after issue is refused as "OTP expired" and changes nothing |
| `AuthProperties.VerifyEmailSingleUse` | server/controllers/authController.js:161-164 | after a successful verifyEmail, the same request again, at any time, fails with "Invalid OTP" |
| `AuthProperties.VerifiedUserGetsNoCode` | server/controllers/authController.js:111-113 | once verified, a user asking for a verification code gets 400 "User already verified" and nothing changes |
| `AuthProperties.ResetRoundTrip` | server/controllers/authController.js:196-247 | under the idealised hasher (`Hasher.Valid`), issuing a reset code and presenting it within 15 minutes resets the password; the new password then logs in, any other password is refused, the reset code is cleared, and the verification state is kept |
| `AuthProperties.ResetPasswordSingleUse` | server/controllers/authController.js:244-245 | after a successful reset, the same code is refused as "Invalid OTP" for any new password |
| `AuthProperties.RegisterStartsSession` | server/controllers/authController.js:28-35 | the cookie set by a registration that stored its record lets the next request through the middleware as the new id |
| `AuthProperties.LoginStartsSession` | server/controllers/authController.js:75-82 | the cookie set by a successful login lets the next request through as the id of the user with the given email |
| `AuthProperties.LogoutEndsSession` | server/controllers/authController.js:93-97 | a client that drops the cookie logout clears, and calls the is-auth route without logging in again, is refused with 401 "Unauthorized access" |
| `AuthProperties.StaleTokenStillAccepted` | server/middleware/userAuth.js:10-19 | logout revokes nothing on the server: a token signed for a user and presented again while unexpired still passes the middleware and the is-auth route |
| `UserAuth.Authenticate` | server/middleware/userAuth.js:3-23 | a missing or empty token gives 401; a verifier that throws gives 500 with its message, never 401; a payload without an id gives 401; the request proceeds iff the payload carries a non-empty id, and then with that id |
| `UserAuth.Middleware` | server/middleware/userAuth.js:3-23 | on proceeding, the middleware sets `req.userId` to the payload id and calls `next` exactly once; otherwise the request is unchanged and `next` is not called; the decision is `Authenticate`'s |
| `UserAuth.IsAuthRoute` | server/controllers/authController.js:173-179 | the is-auth route answers 200 iff the middleware lets the request through, otherwise with the middleware's status |
| `UserController.GetUserData` | server/controllers/userController.js:3-27 | a failing lookup gives 500 "Internal server error"; an unknown or missing id gives 404 "user not found"; otherwise the profile holds exactly the user's name and verified flag |
| `UserController.GetUserDataHidesSecrets` | server/controllers/userController.js:14-20 | the answer depends only on the user's name and verified flag, never on the digest or the codes |

## Left out

- Exceptions from the store, bcrypt or `jwt.sign` inside the auth handlers
  are not modelled. Each would be caught and answered with 500 and the
  exception's message. Only the mail send (all three mails) and the profile
  lookup can fail in the model.
- `findById` with a string that is not a well-formed id throws a cast error.
  In `verifyEmail` that answers 500, not "User not found". Ids are treated as
  plain strings, so this path is not modelled.
- The catch blocks of `logout` and `isAuthenticated` are not modelled.
  Neither body can throw in the model.
- The code comparison `user.verifyOtp != otp` uses JavaScript's loose
  inequality, so a numeric `otp` in the body would match its string. The
  model takes the code as a string.
- Body fields are modelled as optional strings. A non-string value is not
  considered.
- The spelling of the JSON keys is not modelled. Some error bodies say
  `sucess`, and the logout body says `messsage`. Replies carry status,
  message and cookie effect only.
- Cookie attributes are not modelled: `httpOnly`, `secure`, `sameSite` and
  the misspelled `maxage`.
- The 7-day token expiry is part of the abstract verifier. An expired token
  is one the verifier reports as thrown.
- Mail templates and their placeholder substitution are not part of this
  model.
- The schema's default field values are not part of this model. `register`
  takes them as an input (`Defaults`).
- `Math.random` and `Date.now()` are inputs: the code number (100000..999999)
  and `now`.
- Concurrent requests, and the store's own rejection of a duplicate email
  under a race, are not modelled. Handlers run one at a time.
- The routers and the server wiring are not part of this model: CORS, cookie
  parsing, the database connection, and which routes sit behind the
  middleware. Only the is-auth route is composed, in `IsAuthRoute`.
- The client pages are not part of this model.
- `Hasher.Valid`: an idealisation of bcrypt. bcryptjs uses only the first 72
  bytes of a password, so two passwords that agree on those bytes match the
  same digest. The second conjunct of `Valid` ("a digest is accepted for no
  other password") does not hold for such passwords. The "other password is
  refused" part of `ResetRoundTrip` rests on it.
- Logout does not revoke tokens: the server keeps no list of ended sessions.
  `LogoutEndsSession` speaks of a client that honours the cleared cookie;
  `StaleTokenStillAccepted` states that a kept token still works.
- `AuthSpec.Register`: the id the store assigns is an input required to be
  unused, rather than generated.
