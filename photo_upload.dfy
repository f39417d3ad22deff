/** backend/functions/photo-upload/index.js: the creator upload with a required-fields check first. */
module PhotoUploadFn {
  import opened Wrappers
  import opened JsText
  import opened Store
  import opened Http
  import opened PhotoEndpoints

  /** `!userId || !title || !imageUrl`. */
  predicate MissingFields(userId: Option<nat>, fields: PhotoFields) {
    FalsyNumber(userId) || FalsyString(fields.title) || FalsyString(fields.imageUrl)
  }

  method Handle(db: Db, userId: Option<nat>, fields: PhotoFields, now: nat) returns (r: Response)
    requires db.Valid()
    modifies db
    ensures db.Valid()
    ensures MissingFields(userId, fields) ==>
      r == Fail(400, "userId, title, and imageUrl are required") && db.T() == old(db.T())
    ensures !MissingFields(userId, fields) ==> Outcome(db.T(), r) == UploadPhoto(old(db.T()), userId, fields, now)
  {
    if MissingFields(userId, fields) {
      return Fail(400, "userId, title, and imageUrl are required");
    }
    if userId.value !in db.users || db.users[userId.value].role != CreatorRole {
      return Fail(403, "Only creators can upload photos");
    }
    var id := db.InsertPhoto(NewPhoto(userId.value, fields, now));
    r := Response(201, PhotoAdded(id, "Photo uploaded successfully"));
  }
}
