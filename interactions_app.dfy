/**
 * backend/functions/interactions.js: the like toggle, the text-only
 * comment post and the author-only comment deletion.
 */
module InteractionsApp {
  import opened Wrappers
  import opened JsText
  import opened Store
  import opened Http
  import opened InteractionEndpoints

  /** likePhoto: SELECT the like, then DELETE and decrement, or INSERT and increment. */
  method LikePhoto(db: Db, photoId: PhotoId, userId: UserId) returns (r: Response)
    requires db.Valid()
    modifies db
    ensures db.Valid()
    ensures Outcome(db.T(), r) == ToggleLike(old(db.T()), photoId, userId)
  {
    var k := LikeKey(photoId, userId);
    if k in db.likes {
      db.DeleteLike(k);
      db.AddLikes(photoId, -1);
      r := Response(200, Toggled(false, "Photo unliked"));
    } else {
      db.InsertLike(k);
      db.AddLikes(photoId, 1);
      r := Response(200, Toggled(true, "Photo liked"));
    }
  }

  /** addComment: refuse a blank text, otherwise insert it as sent. */
  method AddComment(db: Db, photoId: PhotoId, userId: UserId, text: Option<string>, now: nat) returns (r: Response)
    requires db.Valid()
    modifies db
    ensures db.Valid()
    ensures Outcome(db.T(), r) == PostCommentAsSent(old(db.T()), photoId, userId, text, now)
  {
    if text.None? || Trim(text.value) == "" {
      return Fail(400, "Comment text is required");
    }
    var id := db.InsertComment(Comment(photoId, userId, text.value, now));
    r := Response(201, CommentAdded(id, "Comment added successfully"));
  }

  /** deleteComment: SELECT the author, compare it with parseInt(userId), then DELETE. */
  method DeleteComment(db: Db, commentId: CommentId, userId: Option<nat>) returns (r: Response)
    requires db.Valid()
    modifies db
    ensures db.Valid()
    ensures Outcome(db.T(), r) == DeleteCommentByAuthor(old(db.T()), commentId, userId)
  {
    if commentId !in db.comments {
      return Fail(404, "Comment not found");
    }
    if userId != Some(db.comments[commentId].userId) {
      return Fail(403, "Unauthorized");
    }
    db.DeleteComment(commentId);
    r := Response(200, Message("Comment deleted successfully"));
  }
}
