/**
 * backend/functions/updateUserRole/index.js: the admin role change with a
 * required-fields check before the admin gate.
 */
module UpdateUserRoleFn {
  import opened Wrappers
  import opened JsText
  import opened Store
  import opened Http
  import opened UserEndpoints

  method Handle(db: Db, userId: UserId, adminId: Option<nat>, newRole: Option<string>) returns (r: Response)
    requires db.Valid()
    modifies db
    ensures db.Valid()
    ensures FalsyNumber(adminId) || FalsyString(newRole) ==>
      r == Fail(400, "adminId and newRole are required") && db.T() == old(db.T())
    ensures !(FalsyNumber(adminId) || FalsyString(newRole)) ==>
      Outcome(db.T(), r) == UpdateRole(old(db.T()), userId, adminId, newRole)
  {
    if FalsyNumber(adminId) || FalsyString(newRole) {
      return Fail(400, "adminId and newRole are required");
    }
    if adminId.value !in db.users || db.users[adminId.value].role != AdminRole {
      return Fail(403, "Admin access required");
    }
    if !IsRole(newRole.value) {
      return Fail(400, "Invalid role");
    }
    db.SetRole(userId, newRole.value);
    r := Response(200, Message("User role updated successfully"));
  }
}
