/**
 * backend/functions/addComment/index.js: the text-only comment post,
 * storing the text as sent with no user or photo lookup.
 */
module AddCommentUnchecked {
  import opened Wrappers
  import opened JsText
  import opened Store
  import opened Http
  import opened InteractionEndpoints

  method Handle(db: Db, photoId: PhotoId, userId: UserId, text: Option<string>, now: nat) returns (r: Response)
    requires db.Valid()
    modifies db
    ensures db.Valid()
    ensures Outcome(db.T(), r) == PostCommentAsSent(old(db.T()), photoId, userId, text, now)
  {
    if text.None? || Trim(text.value) == "" {
      return Fail(400, "Comment text is required");
    }
    var id := db.InsertComment(Comment(photoId, userId, text.value, now));
    r := Response(201, CommentAdded(id, "Comment added successfully"));
  }
}
