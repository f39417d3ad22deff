/**
 * backend/functions/auth.js: the sign-in, the user lookup and the
 * admin-gated role change (which has no required-fields check).
 */
module AuthApp {
  import opened Wrappers
  import opened Store
  import opened Http
  import opened UserEndpoints

  /** googleAuth: verify the token, look the GoogleId up, insert a consumer if it is new. */
  method GoogleAuth(db: Db, token: Option<string>, verify: string -> Option<Identity>, now: nat) returns (r: Response)
    requires db.Valid()
    modifies db
    ensures db.Valid()
    ensures Outcome(db.T(), r) == SignIn(old(db.T()), token, verify, now)
  {
    if token.None? || verify(token.value).None? {
      return Fail(401, "Authentication failed");
    }
    var googleUser := verify(token.value).value;
    var existing := db.FindByGoogleId(googleUser.googleId);
    if existing.None? {
      var u := NewConsumer(googleUser, now);
      var id := db.InsertUser(u);
      r := Response(200, WithUser(ViewOf(id, u), "Authentication successful"));
    } else {
      var id := existing.value;
      r := Response(200, WithUser(ViewOf(id, db.users[id]), "Authentication successful"));
    }
  }

  /** getCurrentUser: SELECT the row by the route id; reads the tables and changes nothing. */
  method GetCurrentUser(db: Db, userId: UserId) returns (r: Response)
    ensures r == LookupUser(db.T(), userId)
  {
    if userId !in db.users {
      return Fail(404, "User not found");
    }
    var u := db.users[userId];
    r := Response(200, UserFound(UserRecord(userId, u.email, u.name, u.picture, u.role, u.createdAt)));
  }

  /** updateUserRole: the admin gate, then the role check, then the UPDATE. */
  method UpdateUserRole(db: Db, userId: UserId, adminId: Option<nat>, newRole: Option<string>) returns (r: Response)
    requires db.Valid()
    modifies db
    ensures db.Valid()
    ensures Outcome(db.T(), r) == UpdateRole(old(db.T()), userId, adminId, newRole)
  {
    if adminId.None? || adminId.value !in db.users || db.users[adminId.value].role != AdminRole {
      return Fail(403, "Admin access required");
    }
    if newRole.None? || !IsRole(newRole.value) {
      return Fail(400, "Invalid role");
    }
    db.SetRole(userId, newRole.value);
    r := Response(200, Message("User role updated successfully"));
  }
}
