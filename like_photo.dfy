/** backend/functions/like-photo/index.js: the like toggle, refusing a missing userId first. */
module LikePhotoChecked {
  import opened Wrappers
  import opened JsText
  import opened Store
  import opened Http
  import opened InteractionEndpoints

  method Handle(db: Db, photoId: PhotoId, userId: Option<nat>) returns (r: Response)
    requires db.Valid()
    modifies db
    ensures db.Valid()
    ensures FalsyNumber(userId) ==> r == Fail(400, "userId is required") && db.T() == old(db.T())
    ensures !FalsyNumber(userId) ==> Outcome(db.T(), r) == ToggleLike(old(db.T()), photoId, userId.value)
  {
    if FalsyNumber(userId) {
      return Fail(400, "userId is required");
    }
    var k := LikeKey(photoId, userId.value);
    if k in db.likes {
      db.DeleteLike(k);
      db.AddLikes(photoId, -1);
      r := Response(200, Toggled(false, "Photo unliked"));
    } else {
      db.InsertLike(k);
      db.AddLikes(photoId, 1);
      r := Response(200, Toggled(true, "Photo liked"));
    }
  }
}
