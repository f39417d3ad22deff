/**
 * Likes and comments: the like toggle, the two comment-posting rules
 * (text-only check with the text stored as sent, and full validation with
 * the text stored trimmed) and the two comment-deletion rules (author
 * only, and author or admin).
 */
module InteractionEndpoints {
  import opened Wrappers
  import opened JsText
  import opened Store
  import opened Http

  // ---------------------------------------------------------------------------
  // Like toggle
  // ---------------------------------------------------------------------------

  /**
   * SELECT the (photo, user) like; if it exists DELETE it and take one from
   * the photo's Likes, otherwise INSERT it and add one. Neither the photo
   * nor the user is looked up first.
   */
  function ToggleLike(t: Tables, photoId: PhotoId, userId: UserId): (o: Outcome)
    ensures var k := LikeKey(photoId, userId);
      o.response.status == 200 && o.response.body.Toggled? &&
      (o.response.body.liked <==> k !in t.likes) &&
      (o.response.body.liked <==> k in o.tables.likes) &&
      o.response.body.message == (if o.response.body.liked then "Photo liked" else "Photo unliked") &&
      o.tables.likes == (if k in t.likes then t.likes - {k} else t.likes + {k}) &&
      o.tables.photos.Keys == t.photos.Keys &&
      (photoId in t.photos ==>
        o.tables.photos[photoId] == t.photos[photoId].(likes := t.photos[photoId].likes + if k in t.likes then -1 else 1)) &&
      (forall p :: p in t.photos && p != photoId ==> o.tables.photos[p] == t.photos[p]) &&
      o.tables.users == t.users && o.tables.comments == t.comments &&
      o.tables.nextUserId == t.nextUserId && o.tables.nextPhotoId == t.nextPhotoId &&
      o.tables.nextCommentId == t.nextCommentId
  {
    var k := LikeKey(photoId, userId);
    if k in t.likes then
      Outcome(t.DeleteLike(k).AddLikes(photoId, -1), Response(200, Toggled(false, "Photo unliked")))
    else
      Outcome(t.InsertLike(k).AddLikes(photoId, 1), Response(200, Toggled(true, "Photo liked")))
  }

  /** Toggling twice restores every table, and the two responses disagree on `liked`. */
  lemma ToggleTwiceRestores(t: Tables, photoId: PhotoId, userId: UserId)
    ensures var o1 := ToggleLike(t, photoId, userId);
      var o2 := ToggleLike(o1.tables, photoId, userId);
      o2.tables == t && o1.response.body.liked != o2.response.body.liked
  {
    var k := LikeKey(photoId, userId);
    var o1 := ToggleLike(t, photoId, userId);
    var o2 := ToggleLike(o1.tables, photoId, userId);
    assert o2.tables.photos == t.photos;
    assert o2.tables.likes == t.likes;
  }

  /** The toggle keeps every photo's Likes column equal to its number of Likes rows. */
  lemma {:induction false} ToggleKeepsLikesConsistent(t: Tables, photoId: PhotoId, userId: UserId)
    requires t.LikesConsistent()
    ensures ToggleLike(t, photoId, userId).tables.LikesConsistent()
  {
    var k := LikeKey(photoId, userId);
    var t2 := ToggleLike(t, photoId, userId).tables;
    forall p | p in t2.photos
      ensures t2.photos[p].likes == |t2.LikesOf(p)|
    {
      if k in t.likes {
        LikesOfDelete(t, k, p);
        assert t2.LikesOf(p) == t.DeleteLike(k).LikesOf(p);
      } else {
        LikesOfInsert(t, k, p);
        assert t2.LikesOf(p) == t.InsertLike(k).LikesOf(p);
      }
    }
  }

  // ---------------------------------------------------------------------------
  // Posting a comment
  // ---------------------------------------------------------------------------

  /** `!text || text.trim().length === 0`. */
  predicate TextMissing(text: Option<string>) {
    text.None? || Blank(text.value)
  }

  /**
   * The text-only rule: 400 for a missing or blank text; otherwise the
   * comment is inserted with the text exactly as sent, whether or not the
   * photo or the user exists.
   */
  function PostCommentAsSent(t: Tables, photoId: PhotoId, userId: UserId, text: Option<string>, now: nat): (o: Outcome)
    ensures o.response.status == 400 <==> TextMissing(text)
    ensures o.response.status == 400 ==> o == Outcome(t, Fail(400, "Comment text is required"))
    ensures o.response.status != 400 ==>
      o.response == Response(201, CommentAdded(t.nextCommentId, "Comment added successfully")) &&
      o.tables == t.InsertComment(Comment(photoId, userId, text.value, now)) &&
      o.tables.comments[t.nextCommentId].text == text.value
    ensures t.WellFormed() ==> o.tables.WellFormed()
  {
    if TextMissing(text) then Outcome(t, Fail(400, "Comment text is required"))
    else Outcome(t.InsertComment(Comment(photoId, userId, text.value, now)),
                 Response(201, CommentAdded(t.nextCommentId, "Comment added successfully")))
  }

  /** The validated rule's first check: `!photoId || !userId || !text || !text.trim()`. */
  predicate PostRequestIncomplete(photoId: Option<nat>, userId: Option<nat>, text: Option<string>) {
    photoId.None? || FalsyNumber(userId) || text.None? || Trim(text.value) == ""
  }

  /** The photo the validated rule comments on: it exists and is published. */
  predicate Commentable(t: Tables, photoId: PhotoId) {
    photoId in t.photos && t.photos[photoId].isPublished
  }

  /**
   * The validated rule: 400 for a missing field or blank text, then 404
   * for an unknown user, then 404 for a missing or unpublished photo;
   * otherwise the trimmed text is inserted and echoed back with the
   * author's name and picture.
   */
  function PostCommentValidated(t: Tables, photoId: Option<nat>, userId: Option<nat>, text: Option<string>, now: nat): (o: Outcome)
    ensures o.response.status in {201, 400, 404}
    ensures o.response.status != 201 ==> o.tables == t
    ensures o.response.status == 400 <==> PostRequestIncomplete(photoId, userId, text)
    ensures o.response.status == 400 ==> o.response.body == Error("photoId, userId, and text are required")
    ensures o.response.status == 404 ==>
      o.response.body == Error(if userId.value !in t.users then "User not found" else "Photo not found or unpublished")
    ensures o.response.status == 201 <==>
      !PostRequestIncomplete(photoId, userId, text) && userId.value in t.users && Commentable(t, photoId.value)
    ensures o.response.status == 201 ==>
      var u := t.users[userId.value];
      var c := Comment(photoId.value, userId.value, Trim(text.value), now);
      o.tables == t.InsertComment(c) &&
      o.response == Response(201, CommentPosted(
        PostedComment(t.nextCommentId, Trim(text.value), now, u.name, u.picture), "Comment added successfully")) &&
      Trim(text.value) != "" && Trim(Trim(text.value)) == Trim(text.value)
  {
    if PostRequestIncomplete(photoId, userId, text) then Outcome(t, Fail(400, "photoId, userId, and text are required"))
    else if userId.value !in t.users then Outcome(t, Fail(404, "User not found"))
    else if !Commentable(t, photoId.value) then Outcome(t, Fail(404, "Photo not found or unpublished"))
    else
      var clean := Trim(text.value);
      TrimIdempotent(text.value);
      var u := t.users[userId.value];
      Outcome(t.InsertComment(Comment(photoId.value, userId.value, clean, now)),
              Response(201, CommentPosted(PostedComment(t.nextCommentId, clean, now, u.name, u.picture), "Comment added successfully")))
  }

  /**
   * The two rules reject the same texts: a present text is refused by the
   * text-only rule exactly when trimming leaves nothing, which is what the
   * validated rule tests.
   */
  lemma BlankTextRejectedByBoth(t: Tables, photoId: PhotoId, userId: UserId, text: Option<string>, now: nat)
    requires userId != 0
    ensures PostCommentAsSent(t, photoId, userId, text, now).response.status == 400 <==>
      PostCommentValidated(t, Some(photoId), Some(userId), text, now).response.status == 400
  {
  }

  // ---------------------------------------------------------------------------
  // Deleting a comment
  // ---------------------------------------------------------------------------

  /**
   * The author-only rule: 404 for an unknown comment, 403 unless the
   * query's userId is the comment's author; the caller's role is never
   * read.
   */
  function DeleteCommentByAuthor(t: Tables, commentId: CommentId, userId: Option<nat>): (o: Outcome)
    ensures o.response.status in {200, 403, 404}
    ensures o.response.status == 404 <==> commentId !in t.comments
    ensures o.response.status == 404 ==> o.response.body == Error("Comment not found")
    ensures o.response.status == 403 ==> o.response.body == Error("Unauthorized")
    ensures o.response.status == 200 <==> commentId in t.comments && userId == Some(t.comments[commentId].userId)
    ensures o.response.status == 200 ==>
      o.tables == t.DeleteComment(commentId) && o.response.body == Message("Comment deleted successfully")
    ensures o.response.status != 200 ==> o.tables == t
  {
    if commentId !in t.comments then Outcome(t, Fail(404, "Comment not found"))
    else if userId != Some(t.comments[commentId].userId) then Outcome(t, Fail(403, "Unauthorized"))
    else Outcome(t.DeleteComment(commentId), Response(200, Message("Comment deleted successfully")))
  }

  /**
   * The author-or-admin rule: 400 when either id is missing, 404 for an
   * unknown comment, then 404 for an unknown user, then 403 unless the
   * caller wrote the comment or is an admin (owning the photo is not enough).
   */
  function DeleteCommentByAuthorOrAdmin(t: Tables, commentId: Option<nat>, userId: Option<nat>): (o: Outcome)
    ensures o.response.status in {200, 400, 403, 404}
    ensures o.response.status == 400 <==> commentId.None? || userId.None?
    ensures o.response.status == 400 ==> o.response.body == Error("commentId and userId are required")
    ensures o.response.status == 404 ==>
      o.response.body == Error(if commentId.value !in t.comments then "Comment not found" else "User not found")
    ensures o.response.status == 403 ==> o.response.body == Error("Unauthorized")
    ensures o.response.status == 200 <==>
      commentId.Some? && userId.Some? && commentId.value in t.comments && userId.value in t.users &&
      (t.comments[commentId.value].userId == userId.value || t.users[userId.value].role == AdminRole)
    ensures o.response.status == 200 ==>
      o.tables == t.DeleteComment(commentId.value) && o.response.body == Message("Comment deleted successfully")
    ensures o.response.status != 200 ==> o.tables == t
  {
    if commentId.None? || userId.None? then Outcome(t, Fail(400, "commentId and userId are required"))
    else if commentId.value !in t.comments then Outcome(t, Fail(404, "Comment not found"))
    else if userId.value !in t.users then Outcome(t, Fail(404, "User not found"))
    else
      var isOwner := t.comments[commentId.value].userId == userId.value;
      var isAdmin := t.users[userId.value].role == AdminRole;
      if !isOwner && !isAdmin then Outcome(t, Fail(403, "Unauthorized"))
      else Outcome(t.DeleteComment(commentId.value), Response(200, Message("Comment deleted successfully")))
  }

  /**
   * The two rules agree for an author with a Users row; an admin who did
   * not write the comment is refused by the author-only rule and allowed
   * by the other; and in neither does owning the photo grant anything.
   */
  lemma DeletionRulesCompared(t: Tables, commentId: CommentId, userId: UserId)
    requires commentId in t.comments && userId in t.users
    ensures t.comments[commentId].userId == userId ==>
      DeleteCommentByAuthor(t, commentId, Some(userId)) == DeleteCommentByAuthorOrAdmin(t, Some(commentId), Some(userId))
    ensures t.comments[commentId].userId != userId && t.users[userId].role == AdminRole ==>
      DeleteCommentByAuthor(t, commentId, Some(userId)).response.status == 403 &&
      DeleteCommentByAuthorOrAdmin(t, Some(commentId), Some(userId)).response.status == 200
    ensures t.comments[commentId].userId != userId && t.users[userId].role != AdminRole ==>
      DeleteCommentByAuthor(t, commentId, Some(userId)).response.status == 403 &&
      DeleteCommentByAuthorOrAdmin(t, Some(commentId), Some(userId)).response.status == 403
  {
  }

  /** A deletion removes exactly that comment. */
  lemma CommentDeletionRemovesOne(t: Tables, commentId: Option<nat>, userId: Option<nat>)
    requires DeleteCommentByAuthorOrAdmin(t, commentId, userId).response.status == 200
    ensures var t2 := DeleteCommentByAuthorOrAdmin(t, commentId, userId).tables;
      t2.comments.Keys == t.comments.Keys - {commentId.value} &&
      (forall c :: c in t2.comments ==> t2.comments[c] == t.comments[c]) &&
      t2.photos == t.photos && t2.users == t.users && t2.likes == t.likes
  {
  }
}
