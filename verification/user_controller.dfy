/** The user controller: the profile of the user the session middleware let
    through. */
module UserController {
  import opened Support
  import opened UserModel

  /** The only fields the profile endpoint exposes. */
  datatype Profile = Profile(name: string, isVerified: bool)

  /** A success body `{success: true, getUserData: {...}}`, or an error. */
  datatype DataReply = UserData(profile: Profile) | DataError(status: nat, message: string)

  const UserNotFoundLower := "user not found"
  const InternalError := "Internal server error"

  /** `getUserData`: a lookup by the request's user id and a projection to
      name and verification state. `storeFails` says whether the lookup
      throws; then the answer is 500 with a fixed message. The store is only
      read. */
  function GetUserData(users: map<UserId, User>, userId: Option<UserId>, storeFails: bool): (r: DataReply)
    requires WellFormed(users)
    ensures storeFails ==> r == DataError(500, InternalError)
    ensures !storeFails && UserWithId(users, userId).None? ==> r == DataError(404, UserNotFoundLower)
    ensures r.UserData? <==> !storeFails && UserWithId(users, userId).Some?
    ensures r.UserData? ==>
              r.profile.name == users[userId.value].name && r.profile.isVerified == users[userId.value].isVerified
  {
    if storeFails then
      DataError(500, InternalError)
    else
      match UserWithId(users, userId)
      case None => DataError(404, UserNotFoundLower)
      case Some(user) => UserData(Profile(user.name, user.isVerified))
  }

  /** The answer depends on the user's name and verification state only: two
      stores that agree on those for the requested id give the same answer,
      whatever the password digests and codes hold. */
  lemma GetUserDataHidesSecrets(
    users: map<UserId, User>, users': map<UserId, User>, userId: Option<UserId>, storeFails: bool)
    requires WellFormed(users) && WellFormed(users')
    requires userId.Some? ==> (userId.value in users <==> userId.value in users')
    requires userId.Some? && userId.value in users ==>
               && users[userId.value].name == users'[userId.value].name
               && users[userId.value].isVerified == users'[userId.value].isVerified
    ensures GetUserData(users, userId, storeFails) == GetUserData(users', userId, storeFails)
  {
  }
}
