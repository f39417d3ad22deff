/** backend/functions/auth-google/index.js: sign-in, refusing a missing token before verification. */
module AuthGoogleFn {
  import opened Wrappers
  import opened JsText
  import opened Store
  import opened Http
  import opened UserEndpoints

  method Handle(db: Db, token: Option<string>, verify: string -> Option<Identity>, now: nat) returns (r: Response)
    requires db.Valid()
    modifies db
    ensures db.Valid()
    ensures FalsyString(token) ==> r == Fail(400, "Token is required") && db.T() == old(db.T())
    ensures !FalsyString(token) ==> Outcome(db.T(), r) == SignIn(old(db.T()), token, verify, now)
  {
    if FalsyString(token) {
      return Fail(400, "Token is required");
    }
    var googleUser := verify(token.value);
    if googleUser.None? {
      return Fail(401, "Authentication failed");
    }
    var existing := db.FindByGoogleId(googleUser.value.googleId);
    if existing.None? {
      var u := NewConsumer(googleUser.value, now);
      var id := db.InsertUser(u);
      r := Response(200, WithUser(ViewOf(id, u), "Authentication successful"));
    } else {
      var id := existing.value;
      r := Response(200, WithUser(ViewOf(id, db.users[id]), "Authentication successful"));
    }
  }
}
