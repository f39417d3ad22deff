/**
 * backend/functions/add-comment/index.js: the validated comment post,
 * checking the fields, then the user, then that the photo is published,
 * and storing the trimmed text.
 */
module AddCommentChecked {
  import opened Wrappers
  import opened JsText
  import opened Store
  import opened Http
  import opened InteractionEndpoints

  method Handle(db: Db, photoId: Option<nat>, userId: Option<nat>, text: Option<string>, now: nat) returns (r: Response)
    requires db.Valid()
    modifies db
    ensures db.Valid()
    ensures Outcome(db.T(), r) == PostCommentValidated(old(db.T()), photoId, userId, text, now)
  {
    if photoId.None? || FalsyNumber(userId) || text.None? || Trim(text.value) == "" {
      return Fail(400, "photoId, userId, and text are required");
    }
    if userId.value !in db.users {
      return Fail(404, "User not found");
    }
    var user := db.users[userId.value];
    if photoId.value !in db.photos || !db.photos[photoId.value].isPublished {
      return Fail(404, "Photo not found or unpublished");
    }
    var sanitizedText := Trim(text.value);
    var id := db.InsertComment(Comment(photoId.value, userId.value, sanitizedText, now));
    r := Response(201, CommentPosted(PostedComment(id, sanitizedText, now, user.name, user.picture), "Comment added successfully"));
  }
}
