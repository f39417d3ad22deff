/** backend/functions/auth/index.js: sign-in with no token check of its own. */
module AuthFn {
  import opened Wrappers
  import opened Store
  import opened Http
  import opened UserEndpoints

  method Handle(db: Db, token: Option<string>, verify: string -> Option<Identity>, now: nat) returns (r: Response)
    requires db.Valid()
    modifies db
    ensures db.Valid()
    ensures Outcome(db.T(), r) == SignIn(old(db.T()), token, verify, now)
  {
    if token.None? || verify(token.value).None? {
      return Fail(401, "Authentication failed");
    }
    var googleUser := verify(token.value).value;
    var existing := db.FindByGoogleId(googleUser.googleId);
    if existing.None? {
      var u := NewConsumer(googleUser, now);
      var id := db.InsertUser(u);
      r := Response(200, WithUser(ViewOf(id, u), "Authentication successful"));
    } else {
      var id := existing.value;
      r := Response(200, WithUser(ViewOf(id, db.users[id]), "Authentication successful"));
    }
  }
}
