/** The user record and the credential store that holds it. The store keeps
    one record per id; the id travels inside the record as well (a loaded
    document is saved back under its own id), and emails are unique across
    records, which is what the store's unique index on `email` enforces. */
module UserModel {
  import opened Support

  type UserId = string

  datatype User = User(
    id: UserId,
    name: string,
    email: string,
    password: string,        // the bcrypt digest, never the plaintext
    isVerified: bool,
    verifyOtp: string,       // '' while no verification code is outstanding
    verifyOtpExpireAt: int,  // milliseconds since the epoch; 0 when cleared
    resetOtp: string,
    resetOtpExpireAt: int)

  /** The schema's default values for the fields `register` does not set. The
      schema itself is not part of this model, so they are an input. */
  datatype Defaults = Defaults(
    isVerified: bool,
    verifyOtp: string,
    verifyOtpExpireAt: int,
    resetOtp: string,
    resetOtpExpireAt: int)

  /** `new userModel({name, email, password})`. */
  function NewUser(id: UserId, name: string, email: string, password: string, d: Defaults): User {
    User(id, name, email, password, d.isVerified, d.verifyOtp, d.verifyOtpExpireAt,
         d.resetOtp, d.resetOtpExpireAt)
  }

  /** The store's invariant: each record sits under its own id, and no two
      records share an email. */
  predicate WellFormed(users: map<UserId, User>) {
    && (forall k :: k in users ==> users[k].id == k)
    && (forall k, k' :: k in users && k' in users && users[k].email == users[k'].email ==> k == k')
  }

  /** `findOne({email})`: the record with that email, if there is one. */
  function UserWithEmail(users: map<UserId, User>, email: string): (u: Option<User>)
    requires WellFormed(users)
    ensures u.Some? ==> u.value.id in users && users[u.value.id] == u.value && u.value.email == email
    ensures u.None? <==> forall k :: k in users ==> users[k].email != email
  {
    if exists k :: k in users && users[k].email == email then
      var k :| k in users && users[k].email == email;
      Some(users[k])
    else
      None
  }

  /** `findById(id)`: the record under that id, if there is one; a missing id
      finds nothing. */
  function UserWithId(users: map<UserId, User>, id: Option<UserId>): (u: Option<User>)
    requires WellFormed(users)
    ensures u.Some? <==> id.Some? && id.value in users
    ensures u.Some? ==> u.value == users[id.value] && u.value.id == id.value
  {
    if id.Some? && id.value in users then Some(users[id.value]) else None
  }

  /** Whether a record may be written without breaking the unique email index:
      no other record holds its email. */
  predicate EmailFreeFor(users: map<UserId, User>, u: User) {
    forall k :: k in users && k != u.id ==> users[k].email != u.email
  }

  /** `after` differs from `before` at most in the record under `id`: same
      ids, every other record as it was. */
  predicate SameExcept(before: map<UserId, User>, after: map<UserId, User>, id: UserId) {
    && after.Keys == before.Keys
    && forall k :: k in before && k != id ==> after[k] == before[k]
  }

  /** Writing a record under its own id whose email no other record holds
      keeps the store well formed. */
  lemma SavePreservesWellFormed(users: map<UserId, User>, u: User)
    requires WellFormed(users) && EmailFreeFor(users, u)
    ensures WellFormed(users[u.id := u])
  {
  }

  /** The collection of user documents. */
  class UserStore {
    var users: map<UserId, User>

    predicate Valid()
      reads this
    {
      WellFormed(users)
    }

    constructor (initial: map<UserId, User>)
      requires WellFormed(initial)
      ensures Valid() && users == initial
    {
      users := initial;
    }

    /** `userModel.findOne({email})`. */
    method FindOne(email: string) returns (u: Option<User>)
      requires Valid()
      ensures u == UserWithEmail(users, email)
      ensures u.Some? ==> u.value.email == email && u.value.id in users
    {
      if exists k :: k in users && users[k].email == email {
        var k :| k in users && users[k].email == email;
        u := Some(users[k]);
      } else {
        u := None;
      }
    }

    /** `userModel.findById(id)`. */
    method FindById(id: Option<UserId>) returns (u: Option<User>)
      requires Valid()
      ensures u == UserWithId(users, id)
      ensures u.Some? <==> id.Some? && id.value in users
    {
      if id.Some? && id.value in users {
        u := Some(users[id.value]);
      } else {
        u := None;
      }
    }

    /** `user.save()`: the document is written under its own id, inserting it
        when the id is new and replacing the stored record otherwise. */
    method Save(u: User)
      requires Valid() && EmailFreeFor(users, u)
      modifies this
      ensures Valid()
      ensures users == old(users)[u.id := u]
    {
      SavePreservesWellFormed(users, u);
      users := users[u.id := u];
    }
  }
}
