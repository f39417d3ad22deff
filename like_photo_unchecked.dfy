/** backend/functions/likePhoto/index.js: the like toggle with no check before it. */
module LikePhotoUnchecked {
  import opened Store
  import opened Http
  import opened InteractionEndpoints

  method Handle(db: Db, photoId: PhotoId, userId: UserId) returns (r: Response)
    requires db.Valid()
    modifies db
    ensures db.Valid()
    ensures Outcome(db.T(), r) == ToggleLike(old(db.T()), photoId, userId)
  {
    var k := LikeKey(photoId, userId);
    if k in db.likes {
      db.DeleteLike(k);
      db.AddLikes(photoId, -1);
      r := Response(200, Toggled(false, "Photo unliked"));
    } else {
      db.InsertLike(k);
      db.AddLikes(photoId, 1);
      r := Response(200, Toggled(true, "Photo liked"));
    }
  }
}
