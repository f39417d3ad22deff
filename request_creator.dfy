/**
 * backend/functions/requestCreator/index.js: the creator self-upgrade.
 * The request's reason is only written to the log, so it is not an input here.
 */
module RequestCreatorFn {
  import opened Wrappers
  import opened JsText
  import opened Store
  import opened Http
  import opened UserEndpoints

  method Handle(db: Db, userId: Option<nat>) returns (r: Response)
    requires db.Valid()
    modifies db
    ensures db.Valid()
    ensures Outcome(db.T(), r) == GrantCreator(old(db.T()), userId)
  {
    if FalsyNumber(userId) {
      return Fail(400, "User ID is required");
    }
    db.SetRole(userId.value, CreatorRole);
    if userId.value !in db.users {
      return Fail(404, "User not found");
    }
    var user := db.users[userId.value];
    r := Response(200, WithUser(ViewOf(userId.value, user), "Creator access granted successfully"));
  }
}
