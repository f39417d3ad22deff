/** backend/functions/auth-user/index.js: the user lookup by route id. */
module AuthUserFn {
  import opened Store
  import opened Http
  import opened UserEndpoints

  /** Reads the Users table and changes nothing. */
  method Handle(db: Db, userId: UserId) returns (r: Response)
    ensures r == LookupUser(db.T(), userId)
  {
    if userId !in db.users {
      return Fail(404, "User not found");
    }
    var u := db.users[userId];
    r := Response(200, UserFound(UserRecord(userId, u.email, u.name, u.picture, u.role, u.createdAt)));
  }
}
