/**
 * backend/functions/delete-comment/index.js: comment deletion by its
 * author or an admin, with required ids and a user lookup.
 */
module DeleteCommentChecked {
  import opened Wrappers
  import opened Store
  import opened Http
  import opened InteractionEndpoints

  method Handle(db: Db, commentId: Option<nat>, userId: Option<nat>) returns (r: Response)
    requires db.Valid()
    modifies db
    ensures db.Valid()
    ensures Outcome(db.T(), r) == DeleteCommentByAuthorOrAdmin(old(db.T()), commentId, userId)
  {
    if commentId.None? || userId.None? {
      return Fail(400, "commentId and userId are required");
    }
    if commentId.value !in db.comments {
      return Fail(404, "Comment not found");
    }
    if userId.value !in db.users {
      return Fail(404, "User not found");
    }
    var isOwner := db.comments[commentId.value].userId == userId.value;
    var isAdmin := db.users[userId.value].role == AdminRole;
    if !isOwner && !isAdmin {
      return Fail(403, "Unauthorized");
    }
    db.DeleteComment(commentId.value);
    r := Response(200, Message("Comment deleted successfully"));
  }
}
