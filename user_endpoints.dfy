/**
 * What the account endpoints do to the Users table and answer, written once
 * for every handler file that implements them: Google sign-in, the user
 * lookup, the admin role change and the creator self-upgrade.
 */
module UserEndpoints {
  import opened Wrappers
  import opened JsText
  import opened Store
  import opened Http

  /**
   * Sign-in with a Google ID token. `verify` stands for verifyGoogleToken:
   * None when the token is rejected (the library throws). A missing token
   * is rejected before verification. A known GoogleId signs in as the
   * stored user; an unknown one is inserted as a consumer.
   */
  ghost function SignIn(t: Tables, token: Option<string>, verify: string -> Option<Identity>, now: nat): (o: Outcome)
    ensures o.response.status == 200 || o.response.status == 401
    ensures o.response.status == 401 <==> token.None? || verify(token.value).None?
    ensures o.response.status == 401 ==> o == Outcome(t, Fail(401, "Authentication failed"))
    ensures o.response.status == 200 ==>
      var g := verify(token.value).value;
      o.response.body.WithUser? && o.response.body.message == "Authentication successful" &&
      var v := o.response.body.user;
      v.userId in o.tables.users && o.tables.users[v.userId].googleId == g.googleId &&
      v == ViewOf(v.userId, o.tables.users[v.userId])
    ensures o.response.status == 200 && t.UserByGoogleId(verify(token.value).value.googleId).Some? ==>
      o.tables == t
    ensures o.response.status == 200 && t.UserByGoogleId(verify(token.value).value.googleId).None? ==>
      o.tables == t.InsertUser(NewConsumer(verify(token.value).value, now)) &&
      o.response.body.user.userId == t.nextUserId && o.response.body.user.role == ConsumerRole
    ensures t.WellFormed() ==> o.tables.WellFormed()
  {
    if token.None? || verify(token.value).None? then
      Outcome(t, Fail(401, "Authentication failed"))
    else
      var g := verify(token.value).value;
      match t.UserByGoogleId(g.googleId)
      case Some(id) =>
        Outcome(t, Response(200, WithUser(ViewOf(id, t.users[id]), "Authentication successful")))
      case None =>
        var u := NewConsumer(g, now);
        var t' := t.InsertUser(u);
        assert t.WellFormed() ==> t'.WellFormed() by {
          if t.WellFormed() { InsertUserAddsOne(t, u); }
        }
        Outcome(t', Response(200, WithUser(ViewOf(t.nextUserId, u), "Authentication successful")))
  }

  /** Signing in again with the same token changes nothing and answers the same, whatever the clock says. */
  lemma {:induction false} SignInAgain(t: Tables, token: Option<string>, verify: string -> Option<Identity>, now1: nat, now2: nat)
    requires t.WellFormed()
    ensures var o1 := SignIn(t, token, verify, now1);
      SignIn(o1.tables, token, verify, now2) == o1
  {
    var o1 := SignIn(t, token, verify, now1);
    if token.Some? && verify(token.value).Some? {
      var g := verify(token.value).value;
      var id := o1.response.body.user.userId;
      var found := o1.tables.UserByGoogleId(g.googleId);
      assert found.Some?;
      assert found.value == id;
    }
  }

  /** The user lookup: 404 for an unknown id, otherwise the row's columns. */
  function LookupUser(t: Tables, id: UserId): (r: Response)
    ensures r.status == 404 <==> id !in t.users
    ensures r.status == 404 ==> r.body == Error("User not found")
    ensures r.status != 404 ==>
      r.status == 200 && r.body.UserFound? &&
      var rec := r.body.record;
      rec.userId == id && ViewOf(id, t.users[id]) == UserView(rec.userId, rec.email, rec.name, rec.picture, rec.role) &&
      rec.createdAt == t.users[id].createdAt
  {
    if id !in t.users then Fail(404, "User not found")
    else
      var u := t.users[id];
      Response(200, UserFound(UserRecord(id, u.email, u.name, u.picture, u.role, u.createdAt)))
  }

  /** The account a sign-in answers with is the one the lookup then finds, with the same details. */
  lemma SignedInUserIsFound(t: Tables, token: Option<string>, verify: string -> Option<Identity>, now: nat)
    requires SignIn(t, token, verify, now).response.status == 200
    ensures var o := SignIn(t, token, verify, now);
      var v := o.response.body.user;
      var r := LookupUser(o.tables, v.userId);
      r.status == 200 && r.body.record.email == v.email && r.body.record.name == v.name &&
      r.body.record.picture == v.picture && r.body.record.role == v.role
  {
  }

  /** The id names a user whose Role is admin. */
  predicate IsAdmin(t: Tables, id: Option<nat>) {
    id.Some? && id.value in t.users && t.users[id.value].role == AdminRole
  }

  /**
   * The admin role change: the caller must be an admin (403), the new role
   * one of the three (400); the UPDATE then sets the target's role, and a
   * target that does not exist is not an error.
   */
  function UpdateRole(t: Tables, target: UserId, adminId: Option<nat>, newRole: Option<string>): (o: Outcome)
    ensures o.response.status == 403 <==> !IsAdmin(t, adminId)
    ensures o.response.status == 400 <==> IsAdmin(t, adminId) && !(newRole.Some? && IsRole(newRole.value))
    ensures o.response.status == 403 ==> o.response.body == Error("Admin access required")
    ensures o.response.status == 400 ==> o.response.body == Error("Invalid role")
    ensures o.response.status != 200 ==> o.tables == t
    ensures o.response.status == 200 ==>
      o.response.body == Message("User role updated successfully") &&
      o.tables.photos == t.photos && o.tables.comments == t.comments && o.tables.likes == t.likes &&
      o.tables.users.Keys == t.users.Keys &&
      (forall id :: id in t.users && id != target ==> o.tables.users[id] == t.users[id]) &&
      (target in t.users ==> o.tables.users[target] == t.users[target].(role := newRole.value))
    ensures o.response.status in {200, 400, 403}
  {
    if !IsAdmin(t, adminId) then Outcome(t, Fail(403, "Admin access required"))
    else if !(newRole.Some? && IsRole(newRole.value)) then Outcome(t, Fail(400, "Invalid role"))
    else Outcome(t.SetRole(target, newRole.value), Response(200, Message("User role updated successfully")))
  }

  /** An admin who changes their own role to a non-admin role cannot change roles afterwards. */
  lemma AdminSelfDemotion(t: Tables, admin: UserId, role: string, target: UserId, newRole: Option<string>)
    requires IsAdmin(t, Some(admin)) && IsRole(role) && role != AdminRole
    ensures var o1 := UpdateRole(t, admin, Some(admin), Some(role));
      o1.response.status == 200 && UpdateRole(o1.tables, target, Some(admin), newRole).response.status == 403
  {
  }

  /**
   * The creator self-upgrade: a missing or zero id is refused (400); the
   * UPDATE ... OUTPUT sets Role to creator and reports the updated row, or
   * 404 when no row matched.
   */
  function GrantCreator(t: Tables, userId: Option<nat>): (o: Outcome)
    ensures o.response.status == 400 <==> FalsyNumber(userId)
    ensures o.response.status == 404 <==> !FalsyNumber(userId) && userId.value !in t.users
    ensures o.response.status != 200 ==> o.tables == t
    ensures o.response.status == 200 ==>
      var id := userId.value;
      o.tables == t.SetRole(id, CreatorRole) && id in o.tables.users &&
      o.response.body == WithUser(ViewOf(id, o.tables.users[id]), "Creator access granted successfully") &&
      o.response.body.user.role == CreatorRole
    ensures o.response.status in {200, 400, 404}
  {
    if FalsyNumber(userId) then Outcome(t, Fail(400, "User ID is required"))
    else if userId.value !in t.users then Outcome(t, Fail(404, "User not found"))
    else
      var t' := t.SetRole(userId.value, CreatorRole);
      Outcome(t', Response(200, WithUser(ViewOf(userId.value, t'.users[userId.value]), "Creator access granted successfully")))
  }

  /** Asking twice is the same as asking once: same tables, same answer. */
  lemma GrantCreatorIdempotent(t: Tables, userId: Option<nat>)
    ensures var o := GrantCreator(t, userId);
      GrantCreator(o.tables, userId) == o
  {
    var o := GrantCreator(t, userId);
    if o.response.status == 200 {
      var id := userId.value;
      assert o.tables.SetRole(id, CreatorRole) == o.tables;
    }
  }
}
