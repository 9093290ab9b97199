/** The admin gate (backend/src/middleware/admin.middleware.js), run after
    the authentication middleware on every admin route. */
module AdminMiddleware {
  import opened Common
  import opened UserModel
  import opened Store
  import opened AuthMiddleware

  /** Whether some stored user with this id has the admin flag. */
  ghost predicate IsAdmin(users: seq<User>, id: Id) {
    exists k :: 0 <= k < |users| && users[k].id == id && users[k].isAdmin
  }

  /** The gate for the `req.userData` left by authentication. Reading
      `userId` of a missing `userData` throws, which answers 401; a user id
      that is not stored, or a user without the admin flag, is refused
      with 403. */
  function AdminGate(userData: Option<Id>, users: seq<User>): (r: Gate)
    ensures r == Reject(401, "Authentication failed") <==> userData.None?
    ensures r == Next ==> IsAdmin(users, userData.value)
    ensures UserIdsDistinct(users) && userData.Some? ==>
              (r == Next <==> IsAdmin(users, userData.value))
    ensures r == Next || r == Reject(401, "Authentication failed") || r == Reject(403, "Access denied: Admin only")
  {
    if userData.None? then Reject(401, "Authentication failed")
    else
      var user := FindUser(users, userData.value);
      if user.None? || !users[user.value].isAdmin then Reject(403, "Access denied: Admin only")
      else Next
  }

  /** Through both middlewares, a request reaches an admin handler exactly
      when its token verifies to the id of a stored admin. */
  lemma AdminRouteAccess(header: Option<string>, verify: string -> Option<TokenPayload>, users: seq<User>)
    requires UserIdsDistinct(users)
    ensures AdminGate(Authenticated(header, verify), users) == Next <==>
              Authenticated(header, verify).Some? && IsAdmin(users, Authenticated(header, verify).value)
  {
  }

  /** A non-admin user with a valid token is refused with 403, not 401. */
  lemma NonAdminForbidden(users: seq<User>, k: nat)
    requires UserIdsDistinct(users) && k < |users| && !users[k].isAdmin
    ensures AdminGate(Some(users[k].id), users) == Reject(403, "Access denied: Admin only")
  {
  }
}
